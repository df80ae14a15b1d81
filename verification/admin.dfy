/** The two routes that decide on the administrator role: promoting a user
    (`PUT /user/admin/:email`, index.js:54-69) and reporting a user's role
    (`GET /admin/:email`, index.js:86-91). Both look the requester's or the queried user's
    record up by email and read its `role` field without checking that the record exists. */
module Admin {
  import opened Wrappers
  import opened Documents
  import opened Access

  /** The counts in `updateOne`'s result: documents matched by the filter, and documents
      actually changed (a `$set` to the value already stored changes nothing). */
  datatype UpdateResult = UpdateResult(matched: nat, modified: nat)

  /** The users collection after a request, with the request's outcome. */
  datatype Promotion = Promotion(outcome: Outcome<UpdateResult>, users: Users)

  /** `updateOne({email: target}, {$set: {role: 'admin'}})`, without upsert. */
  function SetAdminRole(users: Users, target: string): (p: (Users, UpdateResult))
    ensures p.0.Keys == users.Keys
    ensures forall e :: e in users && e != target ==> p.0[e] == users[e]
    ensures target in users ==> p.0[target] == UserRecord(Some(AdminRole), users[target].profile)
    ensures p.1.matched == (if target in users then 1 else 0)
    ensures p.1.modified == (if target in users && !IsAdmin(users[target]) then 1 else 0)
  {
    if target !in users then (users, UpdateResult(0, 0))
    else
      var before := users[target];
      (users[target := before.(role := Some(AdminRole))],
       UpdateResult(1, if IsAdmin(before) then 0 else 1))
  }

  /** `PUT /user/admin/:email` behind `verifyJwt`: the requester must be an administrator,
      and then exactly the target's role becomes "admin". */
  function Promote(header: Option<string>, verify: Verifier, target: string, users: Users)
    : (p: Promotion)
    ensures p.outcome.Answered? && p.outcome.reply.Body? <==> RequesterIsAdmin(header, verify, users)
    ensures !RequesterIsAdmin(header, verify, users) ==> p.users == users
    ensures p.outcome == Answered(Unauthorized) <==> !HasHeader(header)
    ensures p.users.Keys == users.Keys
    ensures forall e :: e in users && e != target ==> p.users[e] == users[e]
  {
    match VerifyJwt(header, verify)
    case Rejected => Promotion(Answered(Unauthorized), users)
    case ForbiddenThenNext => Promotion(Threw(Some(Forbidden)), users)
    case Passed(claim) =>
      match FindUser(users, claim.email)
      case None => Promotion(Threw(None), users)
      case Some(account) =>
        if IsAdmin(account) then
          var (users', result) := SetAdminRole(users, target);
          Promotion(Answered(Body(result)), users')
        else Promotion(Answered(Forbidden), users)
  }

  /** A successful promotion gives the target the administrator role, keeps the rest of its
      profile, and reports one matched document; a target with no record is not created. */
  lemma PromoteSetsTargetRole(header: Option<string>, verify: Verifier, target: string,
                              users: Users)
    requires RequesterIsAdmin(header, verify, users)
    ensures var p := Promote(header, verify, target, users);
            && (target in users ==>
                  && IsAdmin(p.users[target])
                  && p.users[target].profile == users[target].profile
                  && p.outcome.reply.value.matched == 1)
            && (target !in users ==> p.users == users && p.outcome.reply.value == UpdateResult(0, 0))
  {
  }

  /** A requester whose record exists but is not an administrator gets 403 and changes
      nothing; a requester with no record makes the handler throw before any reply. */
  lemma PromoteByNonAdmin(header: Option<string>, verify: Verifier, target: string, users: Users)
    requires HasHeader(header) && verify(BearerToken(header.value)).Some?
    ensures var email := verify(BearerToken(header.value)).value.email;
            var p := Promote(header, verify, target, users);
            && (email in users && !IsAdmin(users[email]) ==> p == Promotion(Answered(Forbidden), users))
            && (email !in users ==> p == Promotion(Threw(None), users))
  {
  }

  /** A token the verifier rejects never reaches the promotion: 403 is sent, the handler then
      throws on the undefined `req.decoded`, and no user changes. */
  lemma PromoteRejectedToken(header: Option<string>, verify: Verifier, target: string,
                             users: Users)
    requires HasHeader(header) && verify(BearerToken(header.value)).None?
    ensures Promote(header, verify, target, users) == Promotion(Threw(Some(Forbidden)), users)
  {
  }

  /** Promotion never takes the administrator role away from anyone. */
  lemma PromoteKeepsAdmins(header: Option<string>, verify: Verifier, target: string,
                           users: Users, e: string)
    requires e in users && IsAdmin(users[e])
    ensures var p := Promote(header, verify, target, users);
            e in p.users && IsAdmin(p.users[e])
  {
  }

  /** Promoting the same target twice leaves the collection as the first promotion did, and
      the second reports that it modified nothing. */
  lemma PromoteTwice(header: Option<string>, verify: Verifier, target: string, users: Users)
    requires RequesterIsAdmin(header, verify, users)
    ensures var p := Promote(header, verify, target, users);
            var q := Promote(header, verify, target, p.users);
            && q.users == p.users
            && q.outcome.Answered? && q.outcome.reply.Body?
            && q.outcome.reply.value.modified == 0
  {
  }

  /** `GET /admin/:email`: whether the stored role is "admin"; throws (after no reply) when
      no user has that email. No token is required. */
  function AdminReport(email: string, users: Users): (r: Outcome<bool>)
    ensures r.Threw? <==> email !in users
    ensures r.Threw? ==> r.sent.None?
    ensures r.Answered? ==> r.reply == Body(users[email].role == Some("admin"))
  {
    match FindUser(users, email)
    case None => Threw(None)
    case Some(user) => Answered(Body(IsAdmin(user)))
  }

  /** The report, the `verifyAdmin` middleware and the inline check of the promotion route
      agree on who is an administrator. */
  lemma AdminDecisionsAgree(header: Option<string>, verify: Verifier, users: Users,
                            target: string)
    requires HasHeader(header) && verify(BearerToken(header.value)).Some?
    ensures var claim := verify(BearerToken(header.value)).value;
            var allowed := AdminReport(claim.email, users) == Answered(Body(true));
            var outcome := Promote(header, verify, target, users).outcome;
            && (allowed <==> VerifyAdmin(Some(claim), users) == Pass)
            && (allowed <==> outcome.Answered? && outcome.reply.Body?)
  {
  }
}
