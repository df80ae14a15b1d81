/** The two middlewares that guard routes (index.js:18-31 and index.js:42-51), and the
    replies and outcomes every route handler ends in.

    Token verification is an oracle `verify` supplied by the caller: it receives whatever the
    header parsing produced (possibly nothing) and returns the decoded claim, or nothing when
    the signature, expiry or format is rejected. */
module Access {
  import opened Wrappers
  import opened Documents
  import Text
  import Sequences

  /** A reply sent to the client: 401, 403 or a 200 with a body. */
  datatype Reply<+T> = Unauthorized | Forbidden | Body(value: T)

  /** How a request ends: either the handler returns after sending `reply`, or it throws
      (an unhandled rejection in an async handler), after having sent `sent` if anything. */
  datatype Outcome<+T> = Answered(reply: Reply<T>) | Threw(sent: Option<Reply<T>>)

  /** What `verifyJwt` does with a request. */
  datatype JwtStep =
    | Rejected                  // 401 sent; next() is not called
    | Passed(decoded: Claim)    // req.decoded is the claim; next() is called
    | ForbiddenThenNext         // 403 sent, yet next() is called with req.decoded undefined

  /** The verifier oracle's type. */
  type Verifier = Option<string> -> Option<Claim>

  /** A header counts as present when it is a non-empty string (JavaScript truthiness). */
  predicate HasHeader(header: Option<string>) {
    header.Some? && header.value != ""
  }

  /** `authHeader.split(' ')[1]`: the second space-separated piece, or nothing (`undefined`)
      when the header holds no space. */
  function BearerToken(header: string): (token: Option<string>)
    ensures token.None? <==> ' ' !in header
    ensures token.Some? ==> ' ' !in token.value
  {
    Text.SplitLength(header, ' ');
    var parts := Text.Split(header, ' ');
    if |parts| >= 2 then Some(parts[1]) else None
  }

  /** A header of the form `<scheme> <token>`, where neither part contains a space, yields
      exactly `<token>`, whatever the scheme word is. */
  lemma BearerTokenOfWellFormed(scheme: string, token: string)
    requires ' ' !in scheme && ' ' !in token
    ensures BearerToken(scheme + " " + token) == Some(token)
  {
    Text.SplitJoin([scheme, token], ' ');
    assert Text.Join([token], ' ') == token;
    assert Text.Join([scheme, token], ' ') == scheme + " " + token;
  }

  /** Whatever follows the token after a further space, including more spaces and words,
      does not change it. */
  lemma BearerTokenIgnoresTrailingText(scheme: string, token: string, rest: string)
    requires ' ' !in scheme && ' ' !in token
    ensures BearerToken(scheme + " " + token + " " + rest) == Some(token)
  {
    var afterScheme := " " + token + " " + rest;
    var afterToken := " " + rest;
    Text.SplitPrefixWord(scheme, afterScheme, ' ');
    Text.SplitLeadingSep(token + afterToken, ' ');
    assert afterScheme == [' '] + (token + afterToken);
    Text.SplitPrefixWord(token, afterToken, ' ');
    Text.SplitLeadingSep(rest, ' ');
    assert afterToken == [' '] + rest;
    assert scheme + " " + token + " " + rest == scheme + afterScheme;
    var parts := Text.Split(scheme + afterScheme, ' ');
    assert parts[1] == token + "";
    assert token + "" == token;
  }

  /** The `verifyJwt` middleware. */
  function VerifyJwt(header: Option<string>, verify: Verifier): (step: JwtStep)
    ensures step.Rejected? <==> !HasHeader(header)
    ensures step.Passed? ==> verify(BearerToken(header.value)) == Some(step.decoded)
    ensures step.ForbiddenThenNext? ==> verify(BearerToken(header.value)).None?
  {
    if !HasHeader(header) then Rejected
    else
      match verify(BearerToken(header.value))
      case Some(claim) => Passed(claim)
      case None => ForbiddenThenNext
  }

  /** Whether `verifyJwt` hands the request on to the next handler. */
  predicate CallsNext(step: JwtStep) {
    !step.Rejected?
  }

  /** `req.decoded` as the next handler sees it. */
  function Decoded(step: JwtStep): (d: Option<Claim>)
    requires CallsNext(step)
    ensures d.Some? <==> step.Passed?
    ensures d.Some? ==> d.value == step.decoded
  {
    if step.Passed? then Some(step.decoded) else None
  }

  /** Without an Authorization header the request gets 401 and goes no further; with one,
      the next handler always runs, even after a failed verification has already sent 403. */
  lemma VerifyJwtCallsNextIffHeader(header: Option<string>, verify: Verifier)
    ensures CallsNext(VerifyJwt(header, verify)) <==> HasHeader(header)
    ensures !HasHeader(header) ==> VerifyJwt(header, verify) == Rejected
    ensures (HasHeader(header) && verify(BearerToken(header.value)).None?)
              ==> VerifyJwt(header, verify) == ForbiddenThenNext
  {
  }

  /** A well-formed `Bearer <token>` header has exactly its token checked: the request passes
      with the verifier's claim, or receives 403 when the verifier rejects that token. */
  lemma VerifyJwtChecksBearerToken(token: string, verify: Verifier)
    requires ' ' !in token
    ensures VerifyJwt(Some("Bearer " + token), verify)
              == if verify(Some(token)).Some? then Passed(verify(Some(token)).value)
                 else ForbiddenThenNext
  {
    BearerTokenOfWellFormed("Bearer", token);
    assert "Bearer" + " " + token == "Bearer " + token;
  }

  /** The result of the `verifyAdmin` middleware. */
  datatype AdminCheck = Pass | Deny | Fault

  /** The `verifyAdmin` middleware: `Pass` calls next(), `Deny` sends 403, and `Fault` is the
      TypeError thrown when `req.decoded` is undefined or no user has the claimed email. */
  function VerifyAdmin(decoded: Option<Claim>, users: Users): (check: AdminCheck)
    ensures check == Pass <==> decoded.Some? && decoded.value.email in users
                               && IsAdmin(users[decoded.value.email])
    ensures check == Fault <==> decoded.None? || decoded.value.email !in users
  {
    if decoded.None? then Fault
    else
      match FindUser(users, decoded.value.email)
      case None => Fault
      case Some(account) => if IsAdmin(account) then Pass else Deny
  }

  /** Whether the request carries a token the verifier accepts for an existing administrator. */
  predicate RequesterIsAdmin(header: Option<string>, verify: Verifier, users: Users) {
    && HasHeader(header)
    && verify(BearerToken(header.value)).Some?
    && verify(BearerToken(header.value)).value.email in users
    && IsAdmin(users[verify(BearerToken(header.value)).value.email])
  }

  /** A route guarded by `verifyJwt` and then `verifyAdmin` (adding and deleting a doctor),
      whose own handler would answer `handled`. */
  function AdminOnly<T>(header: Option<string>, verify: Verifier, users: Users, handled: T)
    : (r: Outcome<T>)
    ensures r == Answered(Body(handled)) <==> RequesterIsAdmin(header, verify, users)
    ensures r == Answered(Unauthorized) <==> !HasHeader(header)
    ensures HasHeader(header) && verify(BearerToken(header.value)).Some? ==>
              var email := verify(BearerToken(header.value)).value.email;
              && (email in users && !IsAdmin(users[email]) ==> r == Answered(Forbidden))
              && (email !in users ==> r == Threw(None))
    ensures HasHeader(header) && verify(BearerToken(header.value)).None? ==>
              r == Threw(Some(Forbidden))
  {
    var step := VerifyJwt(header, verify);
    if !CallsNext(step) then Answered(Unauthorized)
    else
      var sent := if step.Passed? then None else Some(Forbidden);
      match VerifyAdmin(Decoded(step), users)
      case Pass => Answered(Body(handled))
      case Deny => Answered(Forbidden)
      case Fault => Threw(sent)
  }
}
