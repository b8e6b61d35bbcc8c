# Movie reservation: a Dafny model of the booking core

The system is a cinema booking application. A FastAPI backend keeps users, movies, screenings and seat reservations in four SQLAlchemy tables. Authenticated users book one named seat of a screening, paying with a simulated card check. They can list, read and cancel their own reservations. Administrators create and delete screenings. At start-up a seeding routine inserts five demonstration movies and a week of screenings. A Next.js frontend draws the seat map of a screening and collects the card details before a booking.

This project models that core in Dafny:

- `Models` (models.dfy) holds the four tables of `backend/app/models/user.py`. They are shown as one `Database` class with a sequence field per table and an id counter per table. `TablesValid` states:
  - the column defaults, widths and CHECK constraints;
  - unique ids and unique user emails;
  - foreign keys;
  - at most one active reservation per seat. This is the rule the reservation key `unique_active_seat` is named for. The key as declared, UNIQUE (screening_id, seat_number, status), is stricter; it is modelled separately (see "## Findings").
- `Http` (http.dfy) holds the error responses, `Result`, and the authenticated caller.
- `ScreeningRoutes` (screening.dfy) covers `backend/app/api/v1/screening.py`: the seat layout, seat availability, listing, lookup, creation and deletion.
- `ReservationRoutes` (reservation.dfy) covers `app/api/v1/reservation.py`: the simulated payment, booking, listing, lookup and cancellation.
- `UserRoutes` (users.dfy) covers `backend/app/api/v1/users.py`: register, login, read, update and delete.
- `Seed` (seed.dfy) covers `backend/app/core/seed.py`: the demonstration movies and the weekly screening plan.
- `PaymentForm` (payment_form.dfy) covers `frontend/components/PaymentForm.tsx`: the card-number formatter, the input sanitisers and the submit checks.
- `SeatSelector` (seat_selector.dfy) covers `frontend/components/SeatSelector.tsx`: the grouping of seats into rows, the two sorts, and the state and click handling of each seat button.
- `Wrappers`, `Seqs` and `Text` hold `Option`, sequence filtering lemmas, and the character classes and number parsing that Python and JavaScript use.

Request handlers are methods that take the `Database` and modify it. Every error path leaves the database state unchanged. An insert or update whose row breaks a column constraint (width, role value, CHECK) or the email key becomes a 500 response with the transaction rolled back. The cancel path commits under the one-active-per-seat rule rather than the declared key (see "## Left out"). Instants are integer seconds, prices integer cents, and password hashing, token issue, UUID generation and the clock are parameters.

Behaviour of the code worth noting:

- `delete_screening` cascades to the screening's reservations; it does not refuse while active reservations exist.
- `cancel_reservation` answers 404 to anyone but the owner, admins included; it has no separate 403.
- `create_reservation` does not validate the seat label: a label outside the layout can be booked.
- `update_user` lets only the user themself update their row; admins cannot.

Because of the unvalidated seat label, "available plus taken equals total" holds only under stated conditions (`ScreeningRoutes.Conservation`). Two lemmas show what breaks it.

## Model

| member | source | states |
|---|---|---|
| Models.ParseRole | backend/app/models/user.py:17-21 | a role value is accepted exactly when it is "user" or "admin", and it reads back as that name |
| Models.FindScreening | backend/app/api/v1/screening.py:37 | the lookup finds a row exactly when the id is in the table, and the row found has that id |
| Models.FindUser | backend/app/api/v1/users.py:100 | the lookup finds a row exactly when the id is in the table, and the row found has that id |
| Models.FindMovie | backend/app/api/v1/screening.py:118 | the lookup finds a row exactly when the id is in the table, and the row found has that id |
| Models.FindUserByEmail | backend/app/api/v1/users.py:22-24 | the lookup finds a row exactly when some user has that email, and the row found has it |
| Models.Database.constructor | backend/app/models/user.py:9-80 | a fresh schema has empty tables, id sequences at 1, and satisfies every table constraint |
| ScreeningRoutes.GenerateSeatLayout | backend/app/api/v1/screening.py:46-63 | the layout has min(total, 260) labels (none for total <= 0); label i is row letter `A`+i/10 followed by the decimal seat number i%10+1 |
| ScreeningRoutes.SeatPositionOfLabel | backend/app/api/v1/screening.py:56-61 | every label reads back as its row and a seat number between 1 and 10 |
| ScreeningRoutes.SeatLabelsDistinct | backend/app/api/v1/screening.py:46-63 | no label occurs twice in a layout |
| ScreeningRoutes.LastRowSize | backend/app/api/v1/screening.py:54-61 | every row but the last holds 10 seats; the last holds total % 10, or 10 when that is 0 |
| ScreeningRoutes.TakenSeats | backend/app/api/v1/screening.py:84-89 | a label is taken exactly when some active reservation of that screening holds it; one entry per active row |
| ScreeningRoutes.Availability | backend/app/api/v1/screening.py:89-104 | the response repeats the screening's id and size; a label is available exactly when it is in the layout and not taken; both counts are the lengths of their lists |
| ScreeningRoutes.AvailableInLayoutOrder | backend/app/api/v1/screening.py:95 | the available seats come in layout order |
| ScreeningRoutes.TakenSeatsDistinct | backend/app/api/v1/screening.py:84-89 | with at most one active reservation per seat, no taken label repeats |
| ScreeningRoutes.Conservation | backend/app/api/v1/screening.py:89-101 | available count plus taken count equals total seats, when the screening has at most 260 seats and every active seat is in its layout |
| ScreeningRoutes.SeatOutsideLayoutBreaksConservation | backend/app/api/v1/screening.py:89-101 | a 12-seat screening with an active booking of "Z99" reports 13 seats |
| ScreeningRoutes.OversizedScreeningBreaksConservation | backend/app/api/v1/screening.py:56 | a 300-seat screening reports only 260 seats |
| ScreeningRoutes.GetSeatAvailability | backend/app/api/v1/screening.py:66-104 | 404 for an unknown screening, otherwise the availability of that screening |
| ScreeningRoutes.GetAllScreenings | backend/app/api/v1/screening.py:12-24 | exactly min(`limit`, rows after `skip`) rows, the k-th being row `skip`+k of the table |
| ScreeningRoutes.GetScreeningById | backend/app/api/v1/screening.py:27-43 | found exactly when the id exists, and then the row with that id; 404 otherwise |
| ScreeningRoutes.NewScreening | backend/app/models/user.py:52-53 | an absent seat count becomes 100 and an absent price 10.00 |
| ScreeningRoutes.CreateScreening | backend/app/api/v1/screening.py:107-130 | 403 for a non-admin; 404 for an unknown movie; 500 for a row that breaks a column constraint; otherwise, and always for an admin with an existing movie and a fitting row, success: the new row appended with the next id; constraints kept |
| ScreeningRoutes.CreatedScreeningIsFound | backend/app/api/v1/screening.py:126-130 | after creation, lookup by the new id finds the new row, and every other lookup is unchanged |
| ScreeningRoutes.FindScreeningRemoved | backend/app/api/v1/screening.py:150-151 | after deletion the id is no longer found, and every other lookup is unchanged |
| ScreeningRoutes.DeleteScreening | backend/app/api/v1/screening.py:133-152 | 403 for a non-admin, 404 for an unknown id, each leaving the database unchanged; an admin deleting an existing id succeeds, removing the screening and its reservations (ON DELETE CASCADE) and nothing else |
| ReservationRoutes.CleanCard | app/api/v1/reservation.py:28 | no space or dash remains, and a character remains exactly when it occurs in the input and is no separator |
| ReservationRoutes.CleanCardConcat | app/api/v1/reservation.py:28 | cleaning two pieces and joining them is cleaning the joined input |
| ReservationRoutes.CleanCardOfChar | app/api/v1/reservation.py:28 | a single space or dash cleans to nothing, any other character to itself |
| ReservationRoutes.ProcessFakePayment | app/api/v1/reservation.py:21-52 | success exactly when the cleaned number is 16 ASCII digits starting with 4; "invalid format" when it is not 16 digits; "declined" when it does not start with 4; on success the amount is echoed and the transaction id is "TXN-" and 12 upper-case hex digits of the UUID |
| ReservationRoutes.SeparatorsIgnored | app/api/v1/reservation.py:28 | inserting a space or dash anywhere in the card number never changes the payment outcome |
| ReservationRoutes.NewReservation | backend/app/models/user.py:72-75 | a new booking is active, has no cancellation time, and belongs to the caller |
| ReservationRoutes.FindActive | app/api/v1/reservation.py:84-88 | an active reservation for that seat is found exactly when the seat is among the taken seats |
| ReservationRoutes.BookingKeepsValid | app/api/v1/reservation.py:103-108 | appending an active booking for a seat not taken keeps every table constraint, including at most one active reservation per seat |
| ReservationRoutes.CreateReservation | app/api/v1/reservation.py:55-124 | in order: 404 unknown screening, 400 screening already started, 409 seat taken, the payment's error, 500 column too long; otherwise the booking is appended with the next id and returned with the payment; every error leaves the database unchanged |
| ReservationRoutes.GetMyReservations | app/api/v1/reservation.py:127-141 | exactly min(`limit`, own rows after `skip`) rows, the k-th being the caller's (`skip`+k)-th reservation in table order |
| ReservationRoutes.MyReservationsComplete | app/api/v1/reservation.py:135-139 | with no skip and a large enough limit, the list is exactly the caller's reservations in table order |
| ReservationRoutes.GetReservation | app/api/v1/reservation.py:144-165 | a reservation is returned exactly when the caller owns one with that id; 404 otherwise, also for another user's reservation |
| ReservationRoutes.FindOwned | app/api/v1/reservation.py:154-157 | a row is found exactly when one has that id and belongs to that user; the result is the first such row |
| ReservationRoutes.CancelAt | app/api/v1/reservation.py:196-197 | the row becomes cancelled with the cancellation time set; its other columns and every other row are unchanged |
| ReservationRoutes.CancelReservation | app/api/v1/reservation.py:168-202 | 404 unless the caller owns the reservation; 400 if already cancelled; otherwise that row is cancelled at `now`, returned, and nothing else changes; constraints kept |
| ReservationRoutes.BookingTakesSeat | app/api/v1/reservation.py:103-108 | after a booking the seat is taken, no longer available, and the taken count grew by one |
| ReservationRoutes.CancelReleasesSeat | app/api/v1/reservation.py:196-199 | after a cancellation the seat is no longer taken and is available again |
| ReservationRoutes.CancelCommitAsWritten | backend/app/models/user.py:79 | the cancel commit under the declared UNIQUE (screening_id, seat_number, status) succeeds only with a table that satisfies it; otherwise it is a 500 |
| ReservationRoutes.CancelAsWrittenRefusedIff | backend/app/models/user.py:79 | under the declared constraint, a cancel is refused exactly when the seat already has a cancelled reservation |
| ReservationRoutes.RebookCancelTwiceFails | app/api/v1/reservation.py:189-199 | book A1, cancel, book A1 again, cancel again: the second cancel is refused by the declared constraint, although the result would hold at most one active reservation |
| UserRoutes.RequestedRole | backend/app/models/user.py:17 | the role is "user" exactly when none or "user" is given, "admin" exactly when "admin" is given, and refused for any other text |
| UserRoutes.Register | backend/app/api/v1/users.py:18-43 | 400 if the email is taken; 500 for an invalid role or an over-long column; otherwise appends the row with the next id and the hashed password; constraints kept |
| UserRoutes.Login | backend/app/api/v1/users.py:47-60 | succeeds exactly when a user has that email and the password verifies against its hash, returning that user's id; 401 otherwise |
| UserRoutes.LoginExactlyOwner | backend/app/api/v1/users.py:47-60 | with unique emails, login yields id exactly when that user has the email and the password verifies |
| UserRoutes.ReadUsers | backend/app/api/v1/users.py:78-90 | 403 for a non-admin; otherwise exactly min(`limit`, rows after `skip`) rows, the k-th being row `skip`+k |
| UserRoutes.ReadUser | backend/app/api/v1/users.py:93-106 | found exactly when the id exists; 404 otherwise |
| UserRoutes.UpdateData | backend/app/api/v1/users.py:134-137 | a password change is present exactly when a password is supplied, and carries its hash |
| UserRoutes.ApplyChanges | backend/app/api/v1/users.py:138-139 | the loop's result is the draft with every change applied in order |
| UserRoutes.UpdateChangesSuppliedFields | backend/app/api/v1/users.py:134-139 | each supplied field replaces the stored value (the password by its hash); each absent field keeps it |
| UserRoutes.Committed | backend/app/models/user.py:15-21 | the edited row commits exactly when its role is valid, its columns fit and its email belongs to no other user; id and creation time are kept |
| UserRoutes.UpdateUser | backend/app/api/v1/users.py:109-144 | 403 unless the caller updates themself; 404 for an unknown id; 500 if the commit is refused; otherwise only that row is replaced by the edited one; constraints kept |
| UserRoutes.UpdateKeepsValid | backend/app/api/v1/users.py:140-142 | replacing a row by one with the same id, a fitting width and an email no other user has keeps every table constraint |
| UserRoutes.DeleteUser | backend/app/api/v1/users.py:147-170 | 403 unless the caller is that user or an admin; 404 for an unknown id; such a caller deleting an existing id succeeds, removing the user and their reservations (ON DELETE CASCADE) |
| UserRoutes.DeleteRemovesOne | backend/app/api/v1/users.py:168-169 | deletion removes exactly one row |
| UserRoutes.FindUserRemoved | backend/app/api/v1/users.py:168-169 | after deletion the id is no longer found, and every other lookup is unchanged |
| Seed.SeededMoviesValid | backend/app/core/seed.py:16-47 | the seed inserts five movies, "The Dark Knight Returns", "Love in Paris", "Galaxy Warriors", "The Haunted Manor", "Comedy Night Live", with genres Action, Romance, Sci-Fi, Horror, Comedy, ids `nextId`..`nextId`+4, and together they satisfy the movie table's constraints |
| Seed.DummyMoviesFit | backend/app/core/seed.py:16-47 | every demonstration movie fits the column widths |
| Seed.SeedMovies | backend/app/core/seed.py:50-68 | with movies present, returns them and changes nothing; otherwise inserts the five demonstration movies with the next ids |
| Seed.ShowtimeClocks | backend/app/core/seed.py:91-101 | the four showtimes read as 10:00, 14:00, 18:00 and 21:00 |
| Seed.ShowtimeOffset | backend/app/core/seed.py:91-103 | the showtimes as seconds after midnight |
| Seed.PlanWeek | backend/app/core/seed.py:95-121 | the nested loops keep, in day-then-movie order, the slot of each day 1..7 and movie i at showtime (day + i) mod 4 that has no screening yet |
| Seed.CreateWeeklyScreenings | backend/app/core/seed.py:71-127 | nothing when 5 or more screenings lie in the future or no movie exists; otherwise the planned screenings with 100 seats and the next ids are appended; constraints kept |
| Seed.PlanBound | backend/app/core/seed.py:95-98 | a run creates at most 7 screenings per movie in all: 7 times the number of movies |
| Seed.MovieShowingsBound | backend/app/core/seed.py:95-121 | with distinct movie ids, a run creates at most 7 screenings of any one movie |
| Seed.OneShowingPerDay | backend/app/core/seed.py:95-121 | with distinct movie ids, no two screenings a run creates show the same movie on the same calendar day |
| Seed.CandidateShape | backend/app/core/seed.py:95-103 | each slot is later than now, on a whole minute, at 10:00, 14:00, 18:00 or 21:00 of its day, with the price that showtime index dictates |
| Seed.CreatedShape | backend/app/core/seed.py:114-119 | every created screening has 100 seats, starts in the future on a whole minute, shows an existing movie and has one of the four prices |
| Seed.PlanDistinct | backend/app/core/seed.py:95-121 | no run plans the same movie at the same instant twice |
| Seed.SecondRunAddsNothing | backend/app/core/seed.py:76-121 | running the seeding again right after a run creates nothing |
| Seed.CommitKeepsValid | backend/app/core/seed.py:123-124 | committing the run's screenings keeps every table constraint |
| PaymentForm.FormatCardNumber | frontend/components/PaymentForm.tsx:19-23 | the formatted field has at most 19 characters, digits in groups of four separated by one space, no trailing space, and its digits are the first 16 digits of the input |
| PaymentForm.FormatIdempotent | frontend/components/PaymentForm.tsx:97 | formatting a formatted field changes nothing |
| PaymentForm.SanitizeCvv | frontend/components/PaymentForm.tsx:137 | the CVV field keeps the first four digits typed, and only digits |
| PaymentForm.SanitizeMonth | frontend/components/PaymentForm.tsx:111 | the month field keeps the first two characters typed |
| PaymentForm.SanitizeYear | frontend/components/PaymentForm.tsx:124 | the year field keeps the first four characters typed |
| PaymentForm.HandleSubmit | frontend/components/PaymentForm.tsx:25-65 | in order: card shorter than 13, card not starting with 4, month out of 1..12, year out of 2026..2040, CVV shorter than 3; the form submits exactly when none applies, sending the card without whitespace and the parsed month and year |
| PaymentForm.NonNumericMonthPasses | frontend/components/PaymentForm.tsx:41-47 | a month that does not parse (NaN) passes the month check and is submitted as no number |
| PaymentForm.SubmittedCardOfField | frontend/components/PaymentForm.tsx:19-29 | the card sent is the first 16 digits the user typed |
| PaymentForm.CardRuleMismatch | frontend/components/PaymentForm.tsx:31-39 | the form accepts a card the payment check then refuses exactly when it has 13 to 15 digits and starts with 4 |
| SeatSelector.SortStrings | frontend/components/SeatSelector.tsx:16-22 | `sort()` returns a permutation in ascending code-unit order, strictly ascending when the input has no duplicates |
| SeatSelector.SortOrdered | frontend/components/SeatSelector.tsx:65-69 | a stable insertion sort by any strict order never places an element after one it must precede |
| SeatSelector.GroupByRow | frontend/components/SeatSelector.tsx:15-20 | each first character maps to the labels sharing it, in input order; the keys are listed once each |
| SeatSelector.SeatsByRow | frontend/components/SeatSelector.tsx:15-22 | every seat's row is a key and every key is some seat's row; each row's list contains that row's seats with their multiplicity; the row list holds exactly the keys, strictly ascending |
| SeatSelector.SortRow | frontend/components/SeatSelector.tsx:65-69 | the row is permuted so that no seat comes after one with a larger parsed number |
| SeatSelector.SortRowAscends | frontend/components/SeatSelector.tsx:65-69 | when every seat number parses, the numbers ascend |
| SeatSelector.LayoutLabelParts | frontend/components/SeatSelector.tsx:66-83 | a backend label's row key is its row letter, and its suffix is the seat number, which parses back |
| SeatSelector.LayoutRowAscends | frontend/components/SeatSelector.tsx:65-69 | a row of backend labels is shown in ascending seat-number order |
| SeatSelector.SeatClass | frontend/components/SeatSelector.tsx:78-80 | "selected" exactly when the seat is selected; otherwise "taken" exactly when taken, "available" exactly when not |
| SeatSelector.Click | frontend/components/SeatSelector.tsx:76-77 | a click selects a seat only on an enabled button, and selects that button's seat |
| SeatSelector.RowButtonsShowRow | frontend/components/SeatSelector.tsx:65-86 | the buttons' seats are a permutation of the row, never a seat after one with a larger number, ascending when every number parses, each button labelled with its seat's number |
| SeatSelector.ClickSelectsOnlyFreeSeats | frontend/components/SeatSelector.tsx:70-81 | a button is disabled exactly when its seat is taken; a taken seat is titled "Taken"; clicking selects exactly the seats that are not taken; every button is a seat of its row |

## Left out

- ReservationRoutes.CancelReservation: commits under the corrected key, at most one active reservation per seat, not under the declared UNIQUE (screening_id, seat_number, status). The declared key's behaviour is `ReservationRoutes.CancelCommitAsWritten`: the server answers 500 when the seat already has a cancelled reservation, which `CancelReservation` does not promise.
- The database engine is not fixed by the code (`DATABASE_URL` at app/core/config.py:8 has no default). The model assumes one that enforces `String(n)` widths and the foreign keys with ON DELETE CASCADE, such as PostgreSQL. SQLite by default ignores VARCHAR lengths and foreign keys, so there the over-long-column 500s would not occur and deletions would not cascade.
- Concurrency: the check-then-insert in `create_reservation` runs without a lock, so two simultaneous bookings of one seat can both pass the availability check. The model runs one request at a time.
- Password hashing, verification (bcrypt), JWT issue and decoding, `uuid4` and `datetime.utcnow` are parameters of the handlers.
- Prices are integer cents rather than `Decimal` / `Numeric(10, 2)`; amounts are not rounded.
- Queries without `ORDER BY` are taken to return rows in insertion order.
- The `/me` endpoint (backend/app/api/v1/users.py:64-75) is not part of this model: it repeats `ReadUser` for the caller.
- Commits refused by the database are modelled as a 500 with the state unchanged. An id the database would still consume for the refused insert is not modelled.
- The request-body schemas (`UserCreate`, `UserUpdate`, `ScreeningAdd`) are not part of this model; their fields, such as the optional `role` and the optional seat count and price, are reconstructed from how the handlers use them (backend/app/api/v1/users.py:37, backend/app/api/v1/users.py:134, backend/app/api/v1/screening.py:126).
- Schema validation of request bodies (pydantic `EmailStr`, types, explicit `null`) is assumed to have passed. Ids, `skip` and `limit` are natural numbers, so negative values are not modelled.
- `seed_initial_data` and the periodic `weekly_screening_task` (backend/app/core/seed.py:130-168), with their sessions, sleeps and logging, are left out; only the two seeding functions they call are modelled.
- app/api/v1/screening.py, an older copy of the screening router, is not part of this model.
- ReservationRoutes.ProcessFakePayment: Python's `\d` in `^\d{16}$` also matches non-ASCII decimal digits, such as Arabic-Indic ones. The model accepts ASCII digits only, so it declines such card numbers as badly formatted where the server does not. JavaScript's `\D` in PaymentForm.tsx is ASCII, so the frontend model is exact.
- Dafny `char` is a Unicode scalar value, while JavaScript strings are UTF-16 code units. `SeatSelector.StrLess` orders characters by scalar value, which agrees with JavaScript's `sort()` except for surrogate pairs. Likewise `SeatSelector.RowKey` takes the first scalar value, where `seat.charAt(0)` (frontend/components/SeatSelector.tsx:17) takes the first code unit, so a label starting with a character outside the Basic Multilingual Plane gets a different row key.
- `Object.keys` lists integer-like keys first; the model's keys are sorted afterwards, so the order is not modelled.
- SeatSelector.SortRow: when a seat number does not parse, the comparator returns `NaN`; the model treats that as a tie in a stable insertion sort. V8's order in that case depends on its algorithm, so the model fixes one behaviour and states only the non-inversion property.
- SeatSelector.ClickSelectsOnlyFreeSeats: the title is "Taken" for a taken seat, but the converse is not stated, because a free seat literally named "Taken" also has that title.
- React rendering, state hooks and styles of both components are left out; only the values they compute are modelled.

## Findings

| source | as written | input that shows it | evidently intended | confidence | as-written member | corrected member |
|---|---|---|---|---|---|---|
| backend/app/models/user.py:79 with app/api/v1/reservation.py:189-199 | the constraint `unique_active_seat` is UNIQUE (screening_id, seat_number, status), which also allows only one cancelled reservation per seat | book seat A1, cancel it, book A1 again, cancel that: the second cancel's commit violates the constraint and returns 500 | at most one active reservation per seat, with any number of cancelled ones, as the constraint's name says | not executed | ReservationRoutes.RebookCancelTwiceFails | ReservationRoutes.CancelReservation |
