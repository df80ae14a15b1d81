# Doctors portal server: access gates, slot availability and booking dedup

A Dafny model of the decision logic of a clinic-portal backend. The backend is a single
Express/MongoDB file, `index.js`. The model covers three pieces of it, as pure functions over
immutable collections:

- **Access gates.** The `verifyJwt` middleware reads the second space-separated word of the
  `Authorization` header and checks it. It answers 401 when the header is missing. When
  verification fails it answers 403 and still calls `next()`. The `verifyAdmin` middleware, the
  inline admin check of the promotion route, the admin report and the self-access check of
  `GET /booking` are modelled on top of it.
- **Slot availability** (`GET /available?date=`). Each service's `slots` list is replaced by
  the slots that no booking on that date holds for that treatment, in catalogue order.
- **Booking submission** (`POST /booking`). A booking is inserted unless a stored booking
  has the same `treatmentName`, `data` and `patientName`.

Modules, one file each:

| module | file | contents |
|---|---|---|
| `Wrappers` | wrappers.dfy | `Option` |
| `Sequences` | sequences.dfy | `Filter` (JavaScript's `Array.prototype.filter`), `IsSubseq`, `Count` and lemmas about them |
| `Text` | text.dfy | `String.prototype.split` with a one-character separator, and its inverse `Join` |
| `Documents` | documents.dfy | `Booking`, `Service`, `UserRecord`, the users map, `Claim` |
| `Access` | access.dfy | `Reply`, `Outcome`, `VerifyJwt`, `VerifyAdmin`, the admin-only route chain |
| `Availability` | availability.dfy | `GET /available` |
| `Admin` | admin.dfy | `PUT /user/admin/:email`, `GET /admin/:email` |
| `Bookings` | bookings.dfy | `POST /booking`, `GET /booking` |

### Modelling choices

- **Collections.** The bookings collection is a sequence in insertion order. The model assumes
  that `find` returns matches in that order and that `findOne` returns the first match; MongoDB
  promises neither without a sort (see "Left out"). The users collection is a map keyed by
  email, which assumes one document per email.
- **Optional fields.** A body field or query parameter that a client may leave out is an
  `Option<string>`. `None` stands for both absent and `null`. The MongoDB Node driver by default
  sends an `undefined` filter value as `null`, and the filter `{f: null}` also matches documents
  without `f`. So a filter matches exactly when the two `Option` values are equal. The model
  relies on this driver default.
- **Outcomes.** A request ends either in one `Reply` (401, 403 or a body) or in a throw.
  A throw carries the reply, if any, that was sent before it. Each of these is a throw:
  - the TypeError from reading `req.decoded.email` after a failed verification;
  - the TypeError from reading `.role` of a user record that is missing.

  The model assumes Express 4, which ignores the promise an async handler returns, so such a
  throw is an unhandled rejection and no reply is sent. On Node 15 and later an unhandled
  rejection ends the process by default. Express 5 would instead pass the rejection to its error
  handler, which answers 500. Either way a missing user record is a throw, not a 403.
- **Token verification** is an oracle parameter of type `Option<string> -> Option<Claim>`. It
  receives whatever `split(' ')[1]` produced, including `undefined` when the header has no
  space. Real verification also depends on the clock: tokens expire one hour after issue
  (index.js:81). Lemmas that span two requests, such as `Admin.PromoteTwice`, use one oracle for
  both, so they assume the token gets the same verdict both times.
- **Roles** are the stored `role` string compared with `"admin"`. They are not a closed enum,
  because a user document can hold any role value.

### Behaviour worth noting

- **Failed verification.** `verifyJwt` sends 403 and then still calls `next()`, because there
  is no `return` after the 403 (index.js:25-29). Every downstream handler that reads
  `req.decoded.email` then throws.
- **Missing user record.** `verifyAdmin`, the promotion route and the admin report dereference
  the looked-up record without checking it (index.js:45, 58, 89). A missing record makes the
  handler throw. It is not answered with 403.
- **Repeated slots.** The `includes` test removes every occurrence of a booked slot from a
  service's list, which `Availability.AvailableCount` states.
- **Dedup fields.** The duplicate check queries `treatmentName` and `data`, but availability
  reads `treatment` and `date`. The model keeps both field sets and does not reconcile them. Two
  consequences are proved as lemmas:
  - `Bookings.DedupAllowsDoubleBooking`: a slot can be booked twice.
  - `Bookings.DedupMergesBodiesWithoutKeyFields`: bodies lacking the key fields collapse onto
    the patient's name.

## Model

| member | source | states |
|---|---|---|
| `Sequences.Filter` | index.js:121-125 | the filter result contains exactly the input elements the predicate accepts, and is no longer than the input |
| `Sequences.FilterIsSubseq` | index.js:125 | filtering preserves order: the result is a subsequence of the input |
| `Sequences.FilterCount` | index.js:125 | filtering keeps every occurrence of an accepted element and none of a rejected one |
| `Text.Split` | index.js:23 | `split` on a one-character separator returns at least one piece, and no piece contains the separator; with `Text.JoinSplit` the pieces are exactly the text between separators |
| `Text.JoinSplit` | index.js:23 | splitting on a space loses nothing: joining the pieces gives back the header |
| `Text.SplitJoin` | index.js:23 | joining space-free words and splitting again gives back the same words |
| `Text.SplitLength` | index.js:23 | a string splits into one more piece than it has separators |
| `Documents.FindUser` | index.js:44 | the user lookup by email returns a record exactly when a user has that email, and then that user's record; the same lookup is made at index.js:57 and index.js:88 |
| `Access.BearerToken` | index.js:23 | `split(' ')[1]` is undefined exactly when the header has no space, and otherwise contains no space |
| `Access.BearerTokenOfWellFormed` | index.js:23 | for a header `<scheme> <token>`, the token is exactly what the verifier receives |
| `Access.BearerTokenIgnoresTrailingText` | index.js:23 | any text after a space following the token, including more spaces, does not change it; with `Access.BearerTokenOfWellFormed` this fixes the token for every header that contains a space after a space-free scheme |
| `Access.VerifyJwt` | index.js:18-31 | 401 exactly when the header is missing or empty; passes with the verifier's claim for the bearer token; otherwise 403 |
| `Access.VerifyJwtCallsNextIffHeader` | index.js:19-29 | `next()` is called exactly when a header is present, including after 403 for a rejected token |
| `Access.VerifyJwtChecksBearerToken` | index.js:23-29 | for `Bearer <token>`, the outcome is decided by the verifier's verdict on that token alone |
| `Access.Decoded` | index.js:28 | after `next()`, `req.decoded` holds a claim exactly when the token verified, and then it is the verifier's claim; after a rejected token it is undefined |
| `Access.VerifyAdmin` | index.js:42-51 | calls `next()` exactly when the requester's stored role is "admin"; throws when `req.decoded` is undefined or the user record is missing; otherwise 403 |
| `Access.AdminOnly` | index.js:166-170 | the handler behind `verifyJwt` and `verifyAdmin` runs exactly for a verified administrator; 401 exactly when the header is missing; 403 for a verified requester whose stored role is not "admin"; a throw with no reply when the requester has no record; 403 and then a throw for a rejected token |
| `Admin.SetAdminRole` | index.js:59-63 | the target's role becomes "admin" and its profile is kept; no other user changes; no user is created; the matched and modified counts follow MongoDB's rules |
| `Admin.Promote` | index.js:54-69 | the update runs exactly when the requester is a verified administrator; otherwise users are unchanged; only the target's record can change |
| `Admin.PromoteSetsTargetRole` | index.js:58-64 | a successful promotion makes an existing target an administrator with the same profile (one document matched); a missing target is not created |
| `Admin.PromoteByNonAdmin` | index.js:57-68 | a non-admin requester gets 403 and nothing changes; a requester with no record makes the handler throw with no reply |
| `Admin.PromoteRejectedToken` | index.js:25-29 | with a rejected token, the promotion route sends 403, then throws on `req.decoded.email`, and changes no user |
| `Admin.PromoteKeepsAdmins` | index.js:59-63 | promotion never removes the administrator role from anyone |
| `Admin.PromoteTwice` | index.js:59-64 | promoting the same target again changes nothing and reports zero modified documents |
| `Admin.AdminReport` | index.js:86-91 | reports whether the stored role is "admin"; throws with no reply exactly when no user has that email |
| `Admin.AdminDecisionsAgree` | index.js:42-91 | the report, `verifyAdmin` and the inline promotion check agree on who is an administrator |
| `Availability.Available` | index.js:108-130 | same number of services, in the same order, with only `slots` replaced and never longer; a slot is offered exactly when it is in the catalogue and no booking on the date holds it for that treatment |
| `Availability.SlotsOf` | index.js:123 | the booked list has one entry per booking, each that booking's `slot` (undefined when the booking has none), in the same order |
| `Availability.BookedIffTaken` | index.js:115-123 | a slot is in the handler's booked list exactly when a stored booking on the date holds it for that treatment |
| `Availability.AvailableKeepsOrder` | index.js:125 | each service's free slots are a subsequence of its catalogue |
| `Availability.AvailableCount` | index.js:121-125 | each free slot keeps all its occurrences in the catalogue; each taken slot keeps none |
| `Availability.AvailableWithoutBookings` | index.js:115-128 | with no booking on the date, every service is returned unchanged |
| `Availability.AvailableIdempotent` | index.js:125-127 | recomputing over the output with the same bookings changes nothing |
| `Availability.UnrelatedBookingIgnored` | index.js:115-121 | adding a booking on another date or for another treatment does not change the service's free slots |
| `Availability.AvailableExample` | index.js:119-128 | one booking of the 10am Cleaning slot leaves ["9am", "11am"] |
| `Bookings.FirstWithKey` | index.js:135-136 | finds the first stored booking with the query key, and finds none exactly when no booking has it |
| `Bookings.Submit` | index.js:133-142 | a stored booking with the same key means a duplicate reply carrying a stored record with that key, and no change; otherwise exactly the body is appended |
| `Bookings.SubmitKeepsKeysUnique` | index.js:135-141 | if no two stored bookings share a key, none do after a submission |
| `Bookings.SubmitOnlyAppends` | index.js:137-141 | a submission leaves every stored booking in place and adds at most one |
| `Bookings.SubmitTwice` | index.js:133-142 | with a new key, the first submission creates the booking and the second is a duplicate answered with it; exactly one booking then has the key |
| `Bookings.DedupAllowsDoubleBooking` | index.js:135 | the dedup key ignores `treatment`, `date` and `slot`, so a second patient can book a slot that is already taken |
| `Bookings.DedupMergesBodiesWithoutKeyFields` | index.js:135-138 | for every store holding a booking without `treatmentName` and `data`, any later body without them from a patient of the same name is refused as a duplicate and the store is unchanged, whatever its treatment, date or slot |
| `Bookings.DedupMergesExample` | index.js:135-138 | a patient's filling on another date is refused as a duplicate of the same patient's cleaning |
| `Bookings.CreatedBookingTakesSlot` | index.js:121-140 | once a booking is created, its slot is no longer offered for its treatment and date |
| `Bookings.SubmitKeepsTakenSlots` | index.js:133-142 | a submission never frees a taken slot |
| `Bookings.PatientBookings` | index.js:145-155 | bookings are returned exactly when the token verifies and the query email equals the token's email; then they are exactly the stored bookings with that `patientEmail`; a mismatch gives 403 |
| `Bookings.PatientBookingsInOrder` | index.js:149-151 | a patient's bookings come back in stored order, each as often as it is stored |
| `Bookings.PatientBookingsRejectedToken` | index.js:145-147 | with a rejected token, 403 is sent and the handler then throws on `req.decoded.email`; no booking is sent |

## Left out

- Express setup, CORS, JSON body parsing, the listener and the root route (index.js:1-12, 191-197) are HTTP plumbing.
- The MongoDB client, connection string and collection handles (index.js:14-15, 35-39) are the external store. The collections are plain sequences and maps here.
- JWT signing (index.js:81) and signature and expiry checking (index.js:24) are not modelled. Verification is an oracle parameter. Token issuance is opaque.
- User upsert, `PUT /user/:email` (index.js:72-83), is left out. It is an unconditional write plus token issuance. Because it writes `$set: req.body`, a client can store any `role` value, including "admin".
- `GET /bookings/:id` (index.js:158-163) is left out. It calls `ObjectId`, which is never imported, so it always throws.
- Doctor add, list and delete (index.js:166-184) are plain CRUD. Only the guard chain of add and delete (index.js:166, 179) is modelled, as `Access.AdminOnly`. List (index.js:173) is behind `verifyJwt` alone, which is `Access.VerifyJwt`.
- `GET /services` and `GET /user` (index.js:94-105) are plain reads.
- `nodemailer` (index.js:6) is imported but never used.
- Request concurrency is not modelled. The model is single-request and sequential, so the race between the duplicate check and the insert in `POST /booking` is absent.
- Query parameters given several times, which Express turns into arrays, are not modelled. Neither are bracketed parameters such as `?date[$ne]=x`. Express's extended query parser turns those into objects, which reach `find` as MongoDB operators (index.js:109, 115). Body fields that are not strings are not modelled either.
- Users with the same email are not modelled: the users collection is a map keyed by email. The source does not enforce one document per email. `PUT /user/:email` writes `$set: req.body` (index.js:75-80), so a body carrying another `email` can create a second document with an email that already exists. `findOne` in `verifyAdmin`, the promotion route and the admin report (index.js:44, 57, 88) would then pick one of them.
- Booking fields beyond the seven in `Documents.Booking` (a client's `phone`, say) are not modelled. `POST /booking` stores the whole body (index.js:133, 139), so the stored document, the `booking` returned with a duplicate reply (index.js:135-137) and the `GET /booking` body (index.js:149-150) would carry those fields too. Here they are cut-down copies. No decision reads the extra fields.
- The `_id` of inserted documents and the rest of `insertOne`'s result are not modelled.
- Bookings.PatientBookingsInOrder: that the bookings come back in stored order is an assumption of the model. MongoDB's `find` without a sort (index.js:150) does not promise insertion order. The set of bookings returned, and how often each occurs, do not depend on this assumption.
- `Bookings.FirstWithKey` picks the first match in insertion order. MongoDB's `findOne` without a sort only promises some matching document.
- Service documents without `slots` or without `name` are not modelled. The model's `Service` always has both, and the two gaps behave differently:
  - Without `slots`, the handler throws a TypeError on `service.slots.filter` (index.js:125).
  - Without `name`, nothing throws. The test `book.treatment === service.name` (index.js:121) compares with `undefined`. It then holds for every booking on the date that has no `treatment` field, such as one submitted with only `treatmentName`. The slots of those bookings are silently removed from the nameless service.
