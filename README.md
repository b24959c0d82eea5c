# Event registration ledger

A Dafny model of the backend of an academic event-management application
(`event_backendsql/server.js`). Its route handlers are operations on three
tables: `users`, `events` and `event_registrations`. Each handler runs a
short, fixed chain of checks and then at most one INSERT, UPDATE or DELETE.

The model has these parts:

- `Tables` (`tables.dfy`): the three row types and the queries the handlers run, as functions
  over sequences of rows. It also holds the invariants of a sequential run:
  - at most one registration per (event, user);
  - distinct registration codes;
  - no capped event holds more registrations than its `max_seats`.

  The lemmas show that inserting a registration that passed both guards keeps these invariants, and so does the attendance update.
- `Auth` (`auth.dfy`): the `auth` middleware. It has JavaScript's `split(" ")` with its inverse `join(" ")` and the round trip in both directions. The token is the second field of the header. `Authenticate` gives 401 "No token", 401 "Invalid token" or the decoded `{id, role}`.
- `Payment` (`payment.dfy`): the fee gate, the order amount (`fee * 100` paise in INR), the
  signed message `order_id|payment_id`, and the signature gate with its `"FREE"`
  sentinel.
- `Server` (`server.dfy`): class `Ledger`. Its fields are the three tables and their
  AUTO_INCREMENT counters. There is one method per modelled route handler. Each method returns the status code and body the handler sends, and its contract states the new tables. `Valid()` is the conjunction of the invariants, and every handler keeps it.
- `Scenario` (`scenario.dfy`): a client of `Ledger` reasoning only from the contracts. The event has one seat and no fee. Alice registers with the free sentinel. Bob gets 403 "Event is full". Scanning Alice's code twice leaves the same table as scanning it once.

Calls into libraries and the environment are fields of `Server.Config`:
`jwt.verify`, `jwt.sign`, `bcrypt.hash`, `bcrypt.compare`, HMAC-SHA256 as a hex
digest, `QRCode.toDataURL` and `razorpay.orders.create`, together with
`JWT_SECRET`, `RAZORPAY_KEY_SECRET` and `BASE_URL`. They are uninterpreted
function values, so every property holds for every deterministic,
time-independent behaviour of those libraries. `uuidv4()` is modelled as a nondeterministic choice of a code that
no registration holds yet.

The model follows the code as written:

- No claimed-amount check is made; the `amount` field of the body is read and never used.
- The `"FREE"` sentinel skips the signature check for paid events too.
- The attendance scan always answers "Attendance Verified". There is no "already verified" or "invalid code" reply and no `verified_at`.
- Deleting an event does not touch its registrations.

## Model

| member | source | states |
|---|---|---|
| `Auth.Fields` | event_backendsql/server.js:45 | `split(" ")` always gives at least one field, and no field contains a space |
| `Auth.JoinOfFields` | event_backendsql/server.js:45 | joining the fields with single spaces gives the header back |
| `Auth.FieldsOfJoin` | event_backendsql/server.js:45 | splitting space-free fields joined by single spaces gives the same fields |
| `Auth.FieldsOfPrefix` | event_backendsql/server.js:45 | a space-free prefix is glued onto the first field of what follows it |
| `Auth.BearerToken` | event_backendsql/server.js:45-46 | an absent header gives no token; a token is given exactly when the header has a non-empty second field, and it is that field, without a space |
| `Auth.BearerTokenOfScheme` | event_backendsql/server.js:45-46 | a header `<scheme> <token>` yields exactly that token |
| `Auth.BearerTokenOfSchemeAndMore` | event_backendsql/server.js:45-46 | fields after the token are ignored: `<scheme> <token> <more>` yields exactly the token |
| `Auth.NoTokenWithoutSpace` | event_backendsql/server.js:45-46 | a header with no space in it gives no token |
| `Auth.NoTokenForEmptySecondField` | event_backendsql/server.js:45-46 | a header whose first space is followed by another space or ends the header (`"Bearer "`, `"Bearer  x"`) gives no token |
| `Auth.Authenticate` | event_backendsql/server.js:44-54 | every failure is a 401; success happens exactly when a token exists and `jwt.verify` decodes it, and then the caller is the decoded payload; no token gives "No token", a token `jwt.verify` rejects gives "Invalid token" |
| `Auth.SessionTokenAuthenticates` | event_backendsql/server.js:44-54 | a token accepted by `jwt.verify` and sent as `Bearer <token>` authenticates as its payload |
| `Tables.FindByEmail` | event_backendsql/server.js:87-90 | the user found carries the e-mail, and none is found exactly when no row has it |
| `Tables.FindEvent` | event_backendsql/server.js:197-213 | the event found is a row with that id, and none is found exactly when no row has that id |
| `Tables.OwnedBy` | event_backendsql/server.js:151-155 | an event is listed exactly when it is in the table and its organizer is the caller, and each owned row appears as often as it does in the table |
| `Tables.DeleteOwned` | event_backendsql/server.js:167-169 | a row survives exactly when it is not both the given id and owned by the caller, and each surviving row appears as often as it did before |
| `Tables.DeleteOwnedNoMatch` | event_backendsql/server.js:166-172 | a delete that matches no row leaves the table unchanged |
| `Tables.DeleteOwnedKeepsOthers` | event_backendsql/server.js:166-172 | a delete by one organizer leaves every other organizer's listing unchanged |
| `Tables.DeleteOwnedKeepsUniqueIds` | event_backendsql/server.js:166-172 | after a delete, no two remaining events share an id |
| `Tables.UsedSeats` | event_backendsql/server.js:198-206 | the count is at most the number of registrations, and it is zero exactly when no registration names the event |
| `Tables.IsRegistered` | event_backendsql/server.js:189-194 | a caller already registered for an event means the event has at least one seat taken |
| `Tables.IsFull` | event_backendsql/server.js:215 | an event with `max_seats` zero or less is never full, and a capped event that is not full has room for one more registration |
| `Tables.UsedSeatsAppend` | event_backendsql/server.js:296-299 | inserting a registration raises its own event's count by one and leaves every other event's count unchanged |
| `Tables.MarkVerified` | event_backendsql/server.js:326 | only the `verified` column changes, and it becomes true exactly on the rows holding the code |
| `Tables.MarkVerifiedKeepsSeats` | event_backendsql/server.js:326 | the attendance update changes no event's seat count |
| `Tables.MarkVerifiedIdempotent` | event_backendsql/server.js:324-330 | a second scan with the same code leaves the table the first one left |
| `Tables.MarkVerifiedUnknownCode` | event_backendsql/server.js:324-330 | an unknown code changes nothing |
| `Tables.MarkVerifiedKeepsInvariants` | event_backendsql/server.js:324-330 | the attendance update keeps one-registration-per-user, distinct codes and capacity |
| `Tables.FreshCodeExists` | event_backendsql/server.js:265 | a code that no registration holds always exists, so the `uuidv4()` choice is possible |
| `Tables.AdmitKeepsInvariants` | event_backendsql/server.js:267-299 | a row that passed the duplicate and seat guards, inserted with a fresh code, keeps one-registration-per-user, distinct codes and `count <= max_seats` for every capped event |
| `Payment.OrderAmount` | event_backendsql/server.js:221-225 | the gateway amount is a whole number of hundreds of paise that divides back to the fee, and it is positive exactly when the event is not free |
| `Payment.IsFreeEvent` | event_backendsql/server.js:218 | an event is free exactly when the gateway amount for its fee would be zero or less |
| `Payment.SignedMessage` | event_backendsql/server.js:258 | the message is the order id, one `\|` and the payment id, in that order and nothing else |
| `Payment.SignatureAccepted` | event_backendsql/server.js:253-263 | `"FREE"` is accepted whatever the ids; the HMAC of `order_id\|payment_id` under the key secret is accepted; any other accepted signature is that HMAC |
| `Payment.FirstBarEndsOrderId` | event_backendsql/server.js:258 | in the signed message the first separator bar comes right after an order id that contains none |
| `Payment.SignedMessageInjective` | event_backendsql/server.js:258 | for order ids without a separator bar, the signed message determines the order id and the payment id |
| `Payment.SignedMessageAmbiguous` | event_backendsql/server.js:258 | without that restriction, two different pairs share one signed message |
| `Server.ThumbnailPath` | event_backendsql/server.js:136 | a path is stored exactly when a file was uploaded, and it is `/uploads/` followed by exactly the stored file name |
| `Server.VerifyUrl` | event_backendsql/server.js:311 | the link is the base URL, then `/api/verify/`, then exactly the registration code |
| `Server.Ledger.constructor` | event_backendsql/server.js:56-67 | empty tables with AUTO_INCREMENT at 1 satisfy the invariants |
| `Server.Ledger.Caller` | event_backendsql/server.js:44-54 | the `auth` step every guarded route runs: any failure is a 401 reply, a request without a header gets "No token", and a caller is only ever identified through a bearer token that `jwt.verify` decodes to that caller |
| `Server.Ledger.RegisterUser` | event_backendsql/server.js:70-82 | a taken e-mail gives 400 "User exists" and no change; otherwise exactly one user row is appended with the next id and the hashed password |
| `Server.Ledger.Login` | event_backendsql/server.js:84-102 | 200 exactly when the e-mail is known and the password matches its hash, and then the reply is a token signed over `{id, role}` with that id and role; otherwise 401 "Invalid" |
| `Server.Ledger.CreateEvent` | event_backendsql/server.js:112-144 | auth failures pass through and a non-organizer gets 403 "Forbidden", both with no change; an organizer's event is appended with the next id, the caller as owner and a default fee of 0 |
| `Server.Ledger.OrganizerEvents` | event_backendsql/server.js:147-156 | auth failures pass through and a non-organizer gets 403; an organizer gets exactly `OwnedBy` of the table: each event they own, as often as it is in the table, and no other |
| `Server.Ledger.DeleteEvent` | event_backendsql/server.js:166-172 | with any authenticated caller, only a row with the id owned by the caller is removed, and the reply is "Deleted" either way |
| `Server.Ledger.CreatePaymentOrder` | event_backendsql/server.js:187-238 | the first failing check decides: already registered 400, no event 404, full 403, free 400; an order for `fee*100` INR is requested only when every check passes; no table changes |
| `Server.Ledger.VerifyPaymentAndRegister` | event_backendsql/server.js:242-321 | a bad signature gives 400, a duplicate 400, a missing event aborts, a full event 403, and each leaves the tables unchanged; otherwise exactly one unverified row is appended with the caller, the supplied payment id and a fresh code, and the reply is the QR pass for that code's link; a change to the table happens only after a passed signature gate |
| `Server.Ledger.VerifyAttendance` | event_backendsql/server.js:324-330 | the registrations table becomes `MarkVerified` of the old one and the reply is the same page for every code |
| `Scenario.SignedIn` | event_backendsql/server.js:44-54 | a client's `Bearer <token>` header authenticates the ledger's caller |
| `Scenario.SingleSeatEvent` | event_backendsql/server.js:292-294 | on a one-seat event the first registration succeeds and the second gets 403 "Event is full"; two scans of the first pass give the same verified table |

## Left out

- `GET /api/events` (event_backendsql/server.js:105-110) is not modelled. It is a read-only listing sorted by `event_date`, a date sort done by the database.
- The listings `GET /api/organizer/events/:id/registrations` and `GET /api/student/registrations` (event_backendsql/server.js:158-184) are not modelled. They are read-only projections and a join, and they change no table.
- The admin stub (event_backendsql/server.js:333) is not modelled. It always returns `[]`.
- Database and gateway errors are not modelled. These are "Create failed" (server.js:140), "Seat check failed" (server.js:288), the ignored insert error (server.js:309), the ignored gateway error (server.js:226) and a failing QR rendering (server.js:310). The connection setup is left out too.
- The users table's e-mail uniqueness is taken to be the only constraint that makes the insert fail. The schema is not part of this model.
- Concurrency is not modelled. Two requests can interleave between the checks and the insert in the nested callbacks; the model runs handlers one at a time.
- The fee and `max_seats` are integers; the fee is in whole rupees. The floating-point product `fee * 100` and the string coercions of form fields and route parameters are not modelled.
- `bcrypt.hash` is a function, so its random salt is not modelled. Token expiry (`expiresIn: "1d"`) is not modelled: `jwt.verify` is one fixed function for the ledger's lifetime, so a token's verdict never changes between calls.
- Multer's file naming, size limit and storage are not modelled. The upload is a filename input, stored even on a 403 in the source.
- The `amount` field of the verify-payment-and-register body is not modelled. It is read and never used.
- Cascading deletes of registrations, `verified_at`, "already verified" replies and the certificate endpoint are not modelled. The server has none of them.
- `Server.Ledger.VerifyPaymentAndRegister`: the crash on `rows[0]` for a missing event is modelled as the `Aborted` response (no reply, no change), not as the process failure it causes.
- `Tables.EmailTaken`, `Tables.FindByEmail`, `Tables.MarkVerified`: strings are compared exactly. MySQL's default collations are case- and accent-insensitive (and trailing-space-insensitive under PAD SPACE collations such as MySQL 5.7's default) in `WHERE email=?` (server.js:87), in the users table's uniqueness check (server.js:75) and in `WHERE reg_code=?` (server.js:326), so a code or e-mail that differs only in case or accents is a match there and a different value here.
