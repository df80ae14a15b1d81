/** The two booking routes: submission with a duplicate check (`POST /booking`,
    index.js:133-142) and a patient's own bookings (`GET /booking`, index.js:145-155).

    The duplicate check compares the submitted body's `treatmentName`, `data` and
    `patientName` fields, while availability reads `treatment`, `date` and `slot`; the model
    keeps both field sets, and the lemmas at the end show what follows from the difference. */
module Bookings {
  import opened Wrappers
  import opened Documents
  import opened Sequences
  import opened Access
  import Availability

  /** The fields the duplicate check queries on. */
  datatype DedupKey = DedupKey(treatmentName: Option<string>, data: Option<string>,
                               patientName: Option<string>)

  /** The query `{treatmentName, data, patientName}` built from a booking body. */
  function KeyOf(b: Booking): DedupKey {
    DedupKey(b.treatmentName, b.data, b.patientName)
  }

  /** The key of every stored booking, in store order. */
  function Keys(store: BookingStore): (keys: seq<DedupKey>)
    ensures |keys| == |store|
    ensures forall i :: 0 <= i < |store| ==> keys[i] == KeyOf(store[i])
  {
    seq(|store|, i requires 0 <= i < |store| => KeyOf(store[i]))
  }

  /** Whether some stored booking matches `key`. */
  predicate HasKey(store: BookingStore, key: DedupKey) {
    exists i :: 0 <= i < |store| && KeyOf(store[i]) == key
  }

  /** `findOne(query)`: the position of the first stored booking matching `key`, in
      insertion order. */
  function FirstWithKey(store: BookingStore, key: DedupKey): (r: Option<nat>)
    ensures r.None? <==> !HasKey(store, key)
    ensures r.Some? ==> r.value < |store| && KeyOf(store[r.value]) == key
    ensures r.Some? ==> forall j :: 0 <= j < r.value ==> KeyOf(store[j]) != key
    decreases |store|
  {
    if |store| == 0 then None
    else if KeyOf(store[0]) == key then Some(0)
    else
      match FirstWithKey(store[1..], key)
      case None => None
      case Some(i) => Some(i + 1)
  }

  /** The reply of `POST /booking`: `{success: false, booking: exists}` or `{success: true}`. */
  datatype SubmitReply = Duplicate(existing: Booking) | Created

  /** The bookings collection after a submission, with the reply. */
  datatype Submission = Submission(reply: SubmitReply, store: BookingStore)

  /** `POST /booking`: insert the body unless a stored booking has the same key. */
  function Submit(store: BookingStore, b: Booking): (s: Submission)
    ensures s.reply.Duplicate? <==> HasKey(store, KeyOf(b))
    ensures s.reply.Duplicate? ==> s.store == store && s.reply.existing in store
                                   && KeyOf(s.reply.existing) == KeyOf(b)
    ensures s.reply.Created? ==> s.store == store + [b]
  {
    match FirstWithKey(store, KeyOf(b))
    case Some(i) => Submission(Duplicate(store[i]), store)
    case None => Submission(Created, store + [b])
  }

  /** No two stored bookings share a key. */
  predicate KeysUnique(store: BookingStore) {
    forall i, j :: 0 <= i < j < |store| ==> KeyOf(store[i]) != KeyOf(store[j])
  }

  /** Submission keeps the keys of the collection unique. */
  lemma SubmitKeepsKeysUnique(store: BookingStore, b: Booking)
    requires KeysUnique(store)
    ensures KeysUnique(Submit(store, b).store)
  {
  }

  /** Submission only ever appends: what was stored stays stored, in place. */
  lemma SubmitOnlyAppends(store: BookingStore, b: Booking)
    ensures var s := Submit(store, b).store;
            |store| <= |s| <= |store| + 1 && s[..|store|] == store
  {
  }

  /** Submitting the same body twice: the second submission is a duplicate answered with the
      first one's record and inserts nothing, so when the key was new the collection ends
      with exactly one booking under it. */
  lemma {:induction false} SubmitTwice(store: BookingStore, b: Booking)
    requires !HasKey(store, KeyOf(b))
    ensures var first := Submit(store, b);
            var second := Submit(first.store, b);
            && first.reply == Created
            && second.reply == Duplicate(b)
            && second.store == store + [b]
            && Count(Keys(second.store), KeyOf(b)) == 1
  {
    var s := store + [b];
    assert KeyOf(s[|store|]) == KeyOf(b);
    var idx := FirstWithKey(s, KeyOf(b));
    assert idx == Some(|store|);
    var before := Keys(store);
    assert Keys(s) == before + [KeyOf(b)];
    CountAppend(before, [KeyOf(b)], KeyOf(b));
    assert KeyOf(b) !in before;
    assert Count([KeyOf(b)], KeyOf(b)) == 1;
  }

  /** The duplicate check does not look at `treatment`, `date` or `slot`: a second patient can
      book a slot that is already taken, and the slot is then held twice. */
  lemma DedupAllowsDoubleBooking()
    ensures var first := Booking(Some("Cleaning"), Some("2024-01-05"), Some("10am"),
                                 Some("a@x"), Some("A"), None, None);
            var second := Booking(Some("Cleaning"), Some("2024-01-05"), Some("10am"),
                                  Some("b@x"), Some("B"), None, None);
            var s := Submit([first], second);
            && Availability.Taken([first], Some("2024-01-05"), "Cleaning", "10am")
            && s.reply == Created
            && s.store == [first, second]
  {
  }

  /** When bodies carry no `treatmentName` or `data`, the key reduces to the patient's name:
      once one such booking is stored, every later body without those fields from a patient
      of the same name is refused as a duplicate, whatever its treatment, date or slot. */
  lemma DedupMergesBodiesWithoutKeyFields(store: BookingStore, first: Booking, second: Booking)
    requires first in store
    requires first.treatmentName.None? && first.data.None?
    requires second.treatmentName.None? && second.data.None?
    requires first.patientName == second.patientName
    ensures Submit(store, second).reply.Duplicate?
    ensures Submit(store, second).store == store
  {
  }

  /** An instance: a patient's filling on another date is refused as a duplicate of the
      same patient's cleaning. */
  lemma DedupMergesExample()
    ensures var first := Booking(Some("Cleaning"), Some("2024-01-05"), Some("10am"),
                                 Some("a@x"), Some("A"), None, None);
            var second := Booking(Some("Filling"), Some("2024-02-01"), Some("9am"),
                                  Some("a@x"), Some("A"), None, None);
            Submit([first], second) == Submission(Duplicate(first), [first])
  {
  }

  /** A created booking with `treatment`, `date` and `slot` takes that slot: it is no longer
      offered for that treatment on that date. */
  lemma CreatedBookingTakesSlot(store: BookingStore, b: Booking, services: seq<Service>, i: int,
                                date: string, slot: string)
    requires 0 <= i < |services|
    requires b.treatment == Some(services[i].name) && b.date == Some(date) && b.slot == Some(slot)
    requires Submit(store, b).reply.Created?
    ensures slot !in Availability.Available(Some(date), services, Submit(store, b).store)[i].slots
  {
  }

  /** Submission never makes a taken slot free again. */
  lemma SubmitKeepsTakenSlots(store: BookingStore, b: Booking, date: Option<string>, name: string,
                              slot: string)
    requires Availability.Taken(store, date, name, slot)
    ensures Availability.Taken(Submit(store, b).store, date, name, slot)
  {
  }

  /** `{patientEmail: email}` on the bookings collection. */
  function ForPatient(email: string): Booking -> bool {
    (b: Booking) => b.patientEmail == Some(email)
  }

  /** `GET /booking?patientEmail=` behind `verifyJwt`: the caller's own bookings when the
      query names the email in the caller's token, 403 otherwise. `query` is absent when the
      request has no `patientEmail` parameter. */
  function PatientBookings(header: Option<string>, verify: Verifier, query: Option<string>,
                           store: BookingStore): (r: Outcome<seq<Booking>>)
    ensures r == Answered(Unauthorized) <==> !HasHeader(header)
    ensures r.Answered? && r.reply.Body? <==>
              && HasHeader(header)
              && verify(BearerToken(header.value)).Some?
              && query == Some(verify(BearerToken(header.value)).value.email)
    ensures r.Answered? && r.reply.Body? ==>
              && (forall k :: 0 <= k < |r.reply.value| ==>
                    r.reply.value[k] in store && r.reply.value[k].patientEmail == query)
              && (forall k :: 0 <= k < |store| && store[k].patientEmail == query ==>
                    store[k] in r.reply.value)
    ensures r == Answered(Forbidden) <==>
              && HasHeader(header)
              && verify(BearerToken(header.value)).Some?
              && query != Some(verify(BearerToken(header.value)).value.email)
  {
    match VerifyJwt(header, verify)
    case Rejected => Answered(Unauthorized)
    case ForbiddenThenNext => Threw(Some(Forbidden))
    case Passed(claim) =>
      if query == Some(claim.email) then Answered(Body(Filter(ForPatient(claim.email), store)))
      else Answered(Forbidden)
  }

  /** The bookings returned to a patient are in stored order, with every one of the patient's
      bookings as often as it is stored. */
  lemma PatientBookingsInOrder(header: Option<string>, verify: Verifier, email: string,
                               store: BookingStore, x: Booking)
    requires PatientBookings(header, verify, Some(email), store).Answered?
    requires PatientBookings(header, verify, Some(email), store).reply.Body?
    ensures var list := PatientBookings(header, verify, Some(email), store).reply.value;
            && IsSubseq(list, store)
            && Count(list, x) == if x.patientEmail == Some(email) then Count(store, x) else 0
  {
    FilterIsSubseq(ForPatient(email), store);
    FilterCount(ForPatient(email), store, x);
  }

  /** A rejected token yields 403 from the gate and then a throw in the handler, which reads
      `req.decoded.email`; no booking is sent. */
  lemma PatientBookingsRejectedToken(header: Option<string>, verify: Verifier,
                                     query: Option<string>, store: BookingStore)
    requires HasHeader(header) && verify(BearerToken(header.value)).None?
    ensures PatientBookings(header, verify, query, store) == Threw(Some(Forbidden))
  {
  }
}
