# Reservation admission for the event planning service

`index.js` is an Express service that keeps users, event types, organizers, events
and reservations in SQLite. This project models its one piece of real logic:
deciding whether a user may reserve a place in an event of limited capacity.
It also models the tables and constraints that decision relies on, and the input
validators the service runs on request bodies.

- `wrappers.dfy`, module `Wrappers`: `Option`. `None` stands for a JSON body field
  that is `undefined`.
- `validation.dfy`, module `Validation`: the validators. These are
  `isAlphaNumeric`, `isAlphaNumericWithSpaces`, `isNumeric`,
  `are_user_details_defined`, `are_user_details_valid`, `is_length_valid` and
  `are_event_parameters_valid`. The module also holds the id guard
  `!isNumeric(id) || id == ""` together with the integer SQLite compares with a
  primary key.
  - JavaScript's `trim` is modelled with its whitespace set.
  - `.length` counts UTF-16 code units.
  - Each regular expression is a check that every character is in its class.
  - A `(status, message)` pair is a `Verdict`. Its message is kept as the list of
    `Problem`s whose sentences it concatenates; `Sentence` holds each sentence
    exactly as the source writes it.
- `tables.dfy`, module `Tables`: the `event` (id to maxParticipants, a real), `user` (ids)
  and `reservation` (id to eventID and userID) tables as values.
  - Each request is one atomic step: admission, read by id, and delete of a
    reservation, a user or an event.
  - The invariant `Inv` holds the table constraints declared at `index.js:16`:
    the two foreign keys, `UNIQUE(eventID, userID)` and positive rowids. It also
    holds the capacity bound and positive capacities.
  - maxParticipants is a JSON number that is only tested `<= 0` before it is
    stored, so a capacity may be fractional. The handler refuses once
    `rows.length >= maxParticipants`, so the proved bound is
    count < maxParticipants + 1: a whole capacity is never exceeded
    (`Tables.WholeCapacityBound`), while a fractional one is rounded up
    (`Tables.FractionalCapacityOverfills`).
  - The lemmas prove that every step keeps `Inv`, so every state reached from an
    empty reservation table satisfies it.
- `store.dfy`, module `ReservationStore`: the tables as a mutable `Store` object
  with map fields.
  - Its methods `Admit`, `Get`, `DeleteReservation`, `DeleteUser` and
    `DeleteEvent` change the fields in place.
  - Each method is proved to leave exactly the state, and return exactly the
    outcome, of the matching `Tables` step, and to keep `Valid()`.
  - The event's reservations are counted row by row (`CountReservations`), as the
    `SELECT ... WHERE eventID=?` and `rows.length` of the handler do.
  - The next rowid is found by one pass over the ids (`NextRowIdOf`).

Admission follows the handler's order:
1. Look up the event.
2. Compare its reservation count with `maxParticipants`.
3. Insert, letting the NOT NULL, foreign-key and UNIQUE constraints of
   `reservation` reject a missing user, an unknown user or a pair already held,
   all with one combined outcome.

Reservation ids are SQLite rowids of an `INTEGER PRIMARY KEY` without
`AUTOINCREMENT`. A new row gets one more than the largest id in use, or 1 when the
table is empty.

Four properties of the code that a reader might not expect:
- **Reused ids.** Ids are not monotonic. Deleting the row with the largest id lets
  the next insert reuse that id.
- **A full event beats a duplicate.** Re-admitting a user who already holds a
  reservation for a full event gets `CapacityExceeded`, not an "already reserved"
  reply, because the count is checked before the insert (`Tables.TwoSeatEvent`).
- **Missing user and duplicate are one outcome.** They share
  `UserMissingOrDuplicate` (`index.js:831-833`) and are not told apart.
- **The eventTypeID sentence.** When `eventTypeID` is undefined,
  `are_event_parameters_valid` appends the lastname sentence (`index.js:126-129`),
  and the model keeps that text.

## Model

| member | source | states |
|---|---|---|
| Validation.TrimStart | index.js:28 | the result is a suffix of the input with every leading JS whitespace character removed and none left at its start |
| Validation.TrimEnd | index.js:28 | the result is a prefix of the input with every trailing JS whitespace character removed and none left at its end |
| Validation.Trim | index.js:28 | `trim()` leaves no whitespace at either end |
| Validation.TrimStrips | index.js:28 | `trim()` is the input with exactly its leading and trailing whitespace cut off: a contiguous slice, and everything outside it is whitespace |
| Validation.TrimIdempotent | index.js:28 | trimming twice is trimming once |
| Validation.MatchesOneOrMore | index.js:29-30 | `^[class]+$` matches exactly a non-empty string all of whose characters are in the class |
| Validation.IsAlphaNumeric | index.js:27-33 | true exactly when the trimmed input is non-empty and made only of ASCII letters and digits (case-insensitive `[a-z0-9]`) |
| Validation.IsAlphaNumericWithSpaces | index.js:35-41 | true exactly when the trimmed input is non-empty and made only of ASCII letters, digits and spaces |
| Validation.IsNumeric | index.js:43-49 | true exactly when the trimmed input is non-empty and made only of ASCII digits |
| Validation.Utf16Length | index.js:83-90 | JavaScript `.length` lies between the number of characters and twice that number, and equals it when every character is in the Basic Multilingual Plane |
| Validation.AreUserDetailsDefined | index.js:51-68 | status is false exactly when username, firstname or lastname is undefined; the message is one sentence per undefined field, in username, firstname, lastname order; status is true exactly when the message is empty |
| Validation.AreUserDetailsValid | index.js:70-98 | no verdict exactly when username, firstname or lastname is undefined (the source throws on `.length` or `trim`, as in the user update handler, which does not test definedness first); otherwise accepts exactly when firstname and lastname each have at least 2 code units and the username is alphanumeric after trimming; status is true exactly when no sentence was added |
| Validation.CheckUserDetails | index.js:70-98 | on defined fields, the message lists, in source order, username empty, firstname empty, firstname shorter than 2, lastname shorter than 2, username not alphanumeric, each exactly when its test fails; accepts exactly when that list is empty |
| Validation.EmptyFirstnameReportedTwice | index.js:78-86 | an empty firstname adds the "at least 2 characters" sentence twice, once from the empty test and once from the length test |
| Validation.IsLengthValid | index.js:101-119 | an undefined name gives no verdict (the source throws on `name.length`); a defined name is accepted exactly when it has 2 to 255 code units, and the message is the length sentence exactly when it is not, empty otherwise |
| Validation.CheckDefined | index.js:126-164 | the eight `== undefined` tests fail the verdict exactly when some field is undefined; the message lists one sentence per undefined field, in source order |
| Validation.CheckName | index.js:166-179 | the name tests fail exactly when the name is not letters, digits and spaces after trimming, or is not 2 to 255 code units long; the message lists those two sentences, each exactly when its test fails |
| Validation.CheckIdTypes | index.js:181-189 | the `typeof != "number"` tests fail exactly when eventTypeID or organizerID is undefined; one sentence per failing test, in source order |
| Validation.CheckRanges | index.js:191-214 | the range tests fail exactly when a defined price is at most 0, a defined dateTime is not after now, a defined latitude or longitude is out of range, or a defined maxParticipants is at most 0; one sentence per failing test, in source order |
| Validation.AreEventParametersValid | index.js:121-220 | no verdict exactly when the name is undefined (the source throws); otherwise it accepts exactly when every field is defined, the name is valid, price > 0, dateTime is after `Date.now()/1000`, latitude is in -90..90, longitude is in -180..180 and maxParticipants > 0 (fractions allowed), so an accepted event always has a positive capacity; the message is the concatenation of the four groups' lists; status is true exactly when the message is empty |
| Validation.ParseId | index.js:860-865 | the id guard lets an id through exactly when `isNumeric` holds for it, and the id is then the decimal value of its trimmed digits |
| Validation.DecimalText | index.js:881 | the decimal numeral of an id is a non-empty string of digits |
| Validation.DecimalValueOfText | index.js:866 | the value of a decimal numeral is the number it writes |
| Validation.ParseIdOfDecimalText | index.js:860-866 | an id written in decimal passes the guard and denotes that id |
| Tables.NextRowId | index.js:16 | the rowid of a new reservation is above every id in use, is 1 in an empty table, and is otherwise one more than an id in use (the largest) |
| Tables.NextRowIdUnique | index.js:16 | those three properties determine the new rowid |
| Tables.Admit | index.js:799-855 | admission never changes `event` or `user`; it changes nothing unless it admits; an admission echoes the requested userID and eventID |
| Tables.DeleteReservation | index.js:890-921 | a reservation delete never changes `event` or `user`, changes nothing unless it deletes, and is never refused as referenced (nothing references `reservation`) |
| Tables.DeleteUser | index.js:299-329 | a user delete changes only `user`, and only when it deletes |
| Tables.DeleteUserOutcomes | index.js:299-329 | a malformed id gives InvalidId; a well-formed id gives Absent exactly when there is no such user, Referenced exactly when the user exists and a reservation names it, Deleted exactly when it exists and none does, and then exactly that user is removed |
| Tables.DeleteEvent | index.js:664-694 | an event delete changes only `event`, and only when it deletes |
| Tables.DeleteEventOutcomes | index.js:664-694 | a malformed id gives InvalidId; a well-formed id gives Absent exactly when there is no such event, Referenced exactly when the event exists and has reservations, Deleted exactly when it exists and has none, and then exactly that event is removed |
| Tables.CountInsert | index.js:817-829 | inserting a row under a fresh id raises the count of its event by one and leaves every other event's count unchanged |
| Tables.CountRemove | index.js:817-824 | removing a row lowers the count of its event by one and leaves every other event's count unchanged |
| Tables.AdmitMissingEvent | index.js:811-814 | an eventID that is undefined or has no row gives EventNotFound and leaves the tables unchanged |
| Tables.AdmitFullEvent | index.js:824-828 | when the event's count is at or above maxParticipants (compared as numbers, so a fractional capacity counts as the next whole number), every request, including one from a user already holding a reservation, gives CapacityExceeded and changes nothing |
| Tables.AdmitMissingUserOrDuplicate | index.js:829-833 | with a free slot, an undefined userID, an unknown user or a pair already held gives the one combined outcome and adds no row |
| Tables.AdmitAddsOneRow | index.js:829-846 | a successful admission adds exactly the row (eventID, userID) under a fresh id and keeps every other row; that event's count rises by one, every other count stays, and the reply echoes `{userID, eventID}` |
| Tables.AdmitSucceedsIff | index.js:811-846 | admission succeeds exactly when the event exists, its count is below maxParticipants, the user exists and does not already hold that event |
| Tables.AdmitPreservesInv | index.js:16-19 | admission keeps the foreign keys, UNIQUE(eventID, userID), positive ids, positive capacities and every event's count below its maxParticipants plus one |
| Tables.AdmitTwiceRejected | index.js:16 | once a pair is admitted, admitting it again is refused, as CapacityExceeded or as the combined outcome |
| Tables.AdmitThenGet | index.js:866-884 | a reservation just admitted reads back, under its decimal id, as the admitted (eventID, userID) |
| Tables.DeleteReservationRemovesRow | index.js:892-920 | a malformed id gives InvalidId and changes nothing; a well-formed id with no row changes nothing and is answered Absent; otherwise exactly that row goes, its event's count falls by one and every other count stays |
| Tables.DeleteThenGet | index.js:866-876 | after a reservation is deleted, reading its id gives not found |
| Tables.DeleteReservationPreservesInv | index.js:898 | deleting a reservation keeps the invariant |
| Tables.DeleteReferencedUser | index.js:307-310 | deleting a user that a reservation names is refused as referenced and changes nothing |
| Tables.DeleteUserPreservesInv | index.js:307 | deleting a user keeps the invariant, foreign keys included |
| Tables.DeleteReferencedEvent | index.js:672-675 | deleting an event that a reservation names is refused as referenced and changes nothing |
| Tables.DeleteEventPreservesInv | index.js:672 | deleting an event keeps the invariant, foreign keys included |
| Tables.ApplyPreservesInv | index.js:799-921 | every single request keeps the invariant |
| Tables.RunPreservesInv | index.js:799-921 | every finite sequence of requests keeps the invariant |
| Tables.ReachableStatesKeepInv | index.js:16 | starting from an empty reservation table over events of positive (possibly fractional) capacity, any sequence of admissions, reads and deletes keeps every event's count below its maxParticipants plus one, every pair unique and every reservation pointing at an existing event and user |
| Tables.WholeCapacityBound | index.js:824 | in a valid state, an event whose maxParticipants is a whole number holds at most maxParticipants reservations |
| Tables.FractionalCapacityOverfills | index.js:211-214 | an event of capacity 1.5, which the validator accepts, admits two users: its count then exceeds maxParticipants |
| Tables.DeleteFreesSlot | index.js:898 | deleting one reservation of a full event frees a slot: an existing user not holding that event is then admitted |
| Tables.TwoSeatEvent | index.js:824-846 | for an event with two seats: users 1 and 2 are admitted; user 3 and then user 1 again both get CapacityExceeded; two reservations remain |
| Tables.ReplyAsWritten | index.js:910-917 | the delete handlers as written never answer "not found": a delete that removed nothing is answered Deleted, like one that removed a row, and every other outcome stays as it is |
| Tables.AsWrittenMissingRowReportedDeleted | index.js:910-917 | deleting reservation 42 from an empty table is Absent as intended but answered "OK" as written |
| ReservationStore.Store.constructor | index.js:16-19 | a store over event and user tables of positive capacity, with an empty reservation table, is valid |
| ReservationStore.Store.CountReservations | index.js:817-824 | the row-by-row count equals the number of reservations for the event |
| ReservationStore.NextRowIdOf | index.js:829 | one pass over the ids yields a value above all of them, 1 for none, otherwise one more than an id in use |
| ReservationStore.Store.NewRowId | index.js:829 | the store picks the rowid SQLite assigns |
| ReservationStore.Store.Admit | index.js:799-855 | the new tables and the outcome are those of `Tables.Admit` on the old tables, and the store stays valid |
| ReservationStore.Store.Get | index.js:858-887 | the outcome is that of `Tables.Get`: malformed id, not found, or the row under that id |
| ReservationStore.Store.DeleteReservation | index.js:890-921 | the new tables and the outcome are those of `Tables.DeleteReservation`, and the store stays valid |
| ReservationStore.Store.DeleteUser | index.js:299-329 | the new tables and the outcome are those of `Tables.DeleteUser`, and the store stays valid |
| ReservationStore.Store.DeleteEvent | index.js:664-694 | the new tables and the outcome are those of `Tables.DeleteEvent`, and the store stays valid |

## Left out

- Concurrency: the handler spreads admission over three callbacks (`index.js:804`, `817`, `829`), so two requests can pass the count check together. The model serves each request as one atomic step and proves the capacity bound only under that assumption.
- Event update (`PUT /api/event/update`, `index.js:770`) can lower maxParticipants below the current count. It is not modelled, and the capacity bound is proved only for states reached through the modelled requests.
- HTTP plumbing is not modelled: Express routing, status codes, headers, JSON encoding of replies and `app.listen`. Outcomes are datatypes instead.
- Database I/O is not modelled: the connection, schema creation, logging and the 500 error paths. This includes the GET handler's second reply after a query error (`index.js:867-876`).
- The 404 branch of the delete handlers would build its message from an undefined `code`. Not modelled: as written the branch is never reached, and the intended behaviour is modelled as `Absent`.
- Plain CRUD is not modelled: user, organizer, event-type and event create, list and update, and the listing joins. They have no admission logic.
- After an event is deleted, its eventType or organizer rows are unrelated to reservations; only the reservation foreign keys are modelled.
- JSON values other than undefined, numbers and strings are not modelled: `null`, booleans, objects, and numeric strings sent as ids. Fields are `Option` of the expected type, so `typeof x != "number"` can fail only for an undefined field.
- A request without `?id=` gives `isNumeric(undefined)`, which throws. The id parameter is always a string in the model, so this case is not covered.
- Validation.AreEventParametersValid: price, dateTime, latitude and longitude are exact reals, not IEEE doubles. `Date.now()` is the parameter `nowMs`.
- Validation.ParseId: ids are unbounded naturals. SQLite's 64-bit integer limit and its conversion of longer numerals to REAL are not modelled. Whitespace around the digits is taken as ignored by SQLite as it is by `trim`, including non-ASCII whitespace.
- Validation.Sentence: every validator's list of problems is proved in closed form (which sentences, in which order). The rendered string is not reasoned about, so "the message is empty exactly when the status is true" is stated on the list of problems, not on the text.
- Validation.AreEventParametersValid: a maxParticipants that is not a number (a string such as "abc") makes `<= 0` false, so it is accepted and then makes the capacity comparison always false, switching the capacity test off. Only numbers are modelled, so Tables.Admit and the capacity bound do not cover this case.
- Tables.Get: no contract of its own; what it returns is stated by `Tables.AdmitThenGet`, `Tables.DeleteThenGet` and `ReservationStore.Store.Get`.

## Findings

| source | as written | input that shows it | evidently intended | confidence | as-written member | corrected member |
|---|---|---|---|---|---|---|
| index.js:910-913 (also 318-321, 683-686) | the callbacks are arrow functions, so `this.changes` is undefined, `this.changes === 0` is false, and a delete that matched no row is answered 200 "OK" | `DELETE /api/reservation/delete?id=42` on an empty reservation table | 404, reservation not found | not executed | Tables.AsWrittenMissingRowReportedDeleted | Tables.DeleteReservationRemovesRow |
