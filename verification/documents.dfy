/** The documents the server keeps in its four collections and the identity claim it signs.
    A field a client may leave out of a JSON body is an `Option<string>`; `None` stands for a
    missing field and for `null` alike, because a query for `null` matches both. */
module Documents {
  import opened Wrappers

  /** A `bookings` document. It carries two overlapping sets of fields: `treatment`, `date`
      and `slot` are what the availability computation reads, while `treatmentName`, `data`
      and `patientName` are what the duplicate check on submission compares. */
  datatype Booking = Booking(
    treatment: Option<string>,
    date: Option<string>,
    slot: Option<string>,
    patientEmail: Option<string>,
    patientName: Option<string>,
    treatmentName: Option<string>,
    data: Option<string>)

  /** A `services` document: a treatment and its full daily catalogue of slot labels. */
  datatype Service = Service(name: string, slots: seq<string>)

  /** A `users` document without its key: the `role` field (the only one any decision reads)
      and the remaining profile fields, which no modelled operation interprets. */
  datatype UserRecord = UserRecord(role: Option<string>, profile: map<string, string>)

  /** The `users` collection, keyed by the `email` field. */
  type Users = map<string, UserRecord>

  /** The `doctors` collection is not modelled; the `bookings` collection is a sequence in
      insertion order. */
  type BookingStore = seq<Booking>

  /** The payload of a verified access token. */
  datatype Claim = Claim(email: string)

  /** The role value that grants administrator rights; compared as a plain string. */
  const AdminRole: string := "admin"

  /** `userCollection.findOne({email})`: the record, or nothing when no user has that email. */
  function FindUser(users: Users, email: string): (r: Option<UserRecord>)
    ensures r.Some? <==> email in users
    ensures r.Some? ==> r.value == users[email]
  {
    if email in users then Some(users[email]) else None
  }

  /** Whether a stored user record holds the administrator role. */
  predicate IsAdmin(u: UserRecord) {
    u.role == Some(AdminRole)
  }
}
