/** The reservation endpoints of app/api/v1/reservation.py: the simulated
    card payment, booking a seat, listing and reading one's own bookings,
    and cancelling one. */
module ReservationRoutes {
  import opened Wrappers
  import opened Seqs
  import opened Text
  import opened Models
  import opened Http
  import opened ScreeningRoutes

  // ---------------------------------------------------------------------
  // process_fake_payment

  datatype PaymentResponse = PaymentResponse(
    transactionId: string, status: string, amountCents: int, message: string)

  const InvalidCardFormat: ApiError := ApiError(400, "Invalid card number format. Must be 16 digits.")
  const PaymentDeclined: ApiError :=
    ApiError(400, "Payment declined. Only Visa cards (starting with 4) are accepted.")

  predicate IsSeparator(c: char) {
    IsPySpace(c) || c == '-'
  }

  /** `re.sub(r'[\s-]', '', card_number)`. */
  function CleanCard(card: string): (r: string)
    ensures forall k :: 0 <= k < |r| ==> !IsSeparator(r[k])
    ensures forall c :: c in r <==> c in card && !IsSeparator(c)
  {
    var r := Filter(card, (c: char) => !IsSeparator(c));
    assert forall k :: 0 <= k < |r| ==> r[k] in r;
    r
  }

  /** `re.match(r'^\d{16}$', s)`; a trailing newline, which `$` would also
      accept, never survives `CleanCard`. */
  predicate IsSixteenDigits(s: string) {
    |s| == 16 && AllDigits(s)
  }

  /** `uuid.uuid4().hex`: 32 lower-case hexadecimal digits. */
  predicate IsUuidHex(h: string) {
    |h| == 32 && forall i :: 0 <= i < |h| ==> IsLowerHex(h[i])
  }

  /** "TXN-" followed by 12 upper-case hexadecimal digits. */
  predicate IsTransactionId(t: string) {
    |t| == 16 && t[..4] == "TXN-" && forall i :: 4 <= i < 16 ==> IsUpperHex(t[i])
  }

  /** `process_fake_payment`; `uuidHex` stands for the fresh `uuid4().hex`. */
  function ProcessFakePayment(card: string, amountCents: int, uuidHex: string): (r: Result<PaymentResponse>)
    requires IsUuidHex(uuidHex)
    ensures r.Ok? <==> IsSixteenDigits(CleanCard(card)) && CleanCard(card)[0] == '4'
    ensures !IsSixteenDigits(CleanCard(card)) ==> r == Err(InvalidCardFormat)
    ensures IsSixteenDigits(CleanCard(card)) && CleanCard(card)[0] != '4' ==> r == Err(PaymentDeclined)
    ensures r.Ok? ==> && r.value.status == "success" && r.value.amountCents == amountCents
                      && IsTransactionId(r.value.transactionId)
                      && r.value.transactionId[4..] == UpperHex(uuidHex[..12])
  {
    var clean := CleanCard(card);
    if !IsSixteenDigits(clean) then Err(InvalidCardFormat)
    else if clean[0] != '4' then Err(PaymentDeclined)
    else
      var id := "TXN-" + UpperHex(uuidHex[..12]);
      assert id[4..] == UpperHex(uuidHex[..12]);
      Ok(PaymentResponse(id, "success", amountCents, "Payment processed successfully (simulated)"))
  }

  /** Cleaning works character by character: it distributes over
      concatenation, drops a separator and keeps any other character. */
  lemma CleanCardConcat(a: string, b: string)
    ensures CleanCard(a + b) == CleanCard(a) + CleanCard(b)
  {
    FilterConcat(a, b, (c: char) => !IsSeparator(c));
  }

  lemma CleanCardOfChar(c: char)
    ensures CleanCard([c]) == if IsSeparator(c) then [] else [c]
  {
    assert [c][1..] == [];
  }

  /** Spaces and dashes anywhere in the card number are dropped. */
  lemma CleanCardSkipsSeparator(front: string, back: string, c: char)
    requires IsSeparator(c)
    ensures CleanCard(front + [c] + back) == CleanCard(front + back)
  {
    FilterSkipsRejected(front, back, c, (x: char) => !IsSeparator(x));
  }

  /** so they do not change the outcome of the payment. */
  lemma SeparatorsIgnored(front: string, back: string, c: char, amountCents: int, uuidHex: string)
    requires IsSeparator(c) && IsUuidHex(uuidHex)
    ensures ProcessFakePayment(front + [c] + back, amountCents, uuidHex) ==
            ProcessFakePayment(front + back, amountCents, uuidHex)
  {
    CleanCardSkipsSeparator(front, back, c);
  }

  // ---------------------------------------------------------------------
  // create_reservation

  /** The payment part of the booking request; only the card number is read. */
  datatype PaymentDetails = PaymentDetails(cardNumber: string, expiryMonth: int, expiryYear: int, cvv: string)

  datatype ReservationCreate = ReservationCreate(screeningId: nat, seatNumber: string, payment: PaymentDetails)

  /** `ReservationResponse`: the new row together with the payment outcome. */
  datatype BookingResponse = BookingResponse(reservation: Reservation, payment: PaymentResponse)

  const PastScreening: ApiError := ApiError(400, "Cannot reserve seats for past screenings")

  function SeatAlreadyReserved(seat: string): ApiError {
    ApiError(409, "Seat " + seat + " is already reserved")
  }

  /** The row the database stores for a booking: status defaults to
      "active", `cancelled_at` is null, `created_at` is the commit time. */
  function NewReservation(id: nat, req: ReservationCreate, userId: nat, now: int): (r: Reservation)
    ensures r.id == id && r.screeningId == req.screeningId && r.userId == userId
    ensures r.seatNumber == req.seatNumber && r.status == Active && r.cancelledAt.None? && r.createdAt == now
  {
    Reservation(id, req.screeningId, userId, req.seatNumber, DefaultStatus, now, None)
  }

  /** Whether the seat has an active reservation for the screening,
      computed as the query `.filter(...).first()` does. */
  function FindActive(rs: seq<Reservation>, screeningId: nat, seat: string): (r: Option<Reservation>)
    ensures r.Some? <==> seat in TakenSeats(rs, screeningId)
    ensures r.Some? ==> r.value in rs && r.value.screeningId == screeningId
                        && r.value.seatNumber == seat && r.value.status == Active
  {
    if rs == [] then None
    else if rs[0].screeningId == screeningId && rs[0].seatNumber == seat && rs[0].status == Active then Some(rs[0])
    else
      var rest := FindActive(rs[1..], screeningId, seat);
      assert forall x :: x in rs ==> x == rs[0] || x in rs[1..];
      rest
  }

  /** Appending an active row for a free seat, by an existing user, for
      an existing screening, under the next id, keeps every table
      invariant, in particular one active reservation per seat. */
  lemma BookingKeepsValid(t: Tables, row: Reservation, caller: Caller)
    requires TablesValid(t) && Authenticated(caller, t.users)
    requires row.id == t.nextReservationId && row.userId == caller.id && ReservationFits(row)
    requires row.status == Active && row.cancelledAt.None? && row.screeningId in ScreeningIds(t.screenings)
    requires row.seatNumber !in TakenSeats(t.reservations, row.screeningId)
    ensures TablesValid(t.(reservations := t.reservations + [row], nextReservationId := t.nextReservationId + 1))
  {
    var i :| 0 <= i < |t.users| && t.users[i].id == caller.id && t.users[i].role == caller.role;
    assert t.users[i] in t.users;
    AppendKeepsReservationsValid(t.reservations, t.nextReservationId, t.screenings, t.users, row);
  }

  lemma AppendKeepsReservationsValid(rs: seq<Reservation>, nextId: nat, ss: seq<Screening>, us: seq<User>, row: Reservation)
    requires ReservationsValid(rs, nextId, ss, us)
    requires 1 <= row.id == nextId && ReservationFits(row) && row.userId in UserIds(us)
    requires row.status == Active && row.cancelledAt.None? && row.screeningId in ScreeningIds(ss)
    requires row.seatNumber !in TakenSeats(rs, row.screeningId)
    ensures ReservationsValid(rs + [row], nextId + 1, ss, us)
  {
    assert forall x :: x in rs ==> NotBothActiveOnSeat(x, row) && DistinctReservations(x, row);
    PairwiseAppend(rs, row, DistinctReservations);
    PairwiseAppend(rs, row, NotBothActiveOnSeat);
  }

  /** `create_reservation`, for an authenticated caller at instant `now`.
      The checks run in the order of the source: the screening exists, it
      has not started, the seat has no active reservation, the card is
      accepted; only then is one active row added. */
  method CreateReservation(db: Database, caller: Caller, req: ReservationCreate, now: int, uuidHex: string)
    returns (r: Result<BookingResponse>)
    requires db.Valid() && Authenticated(caller, db.users) && IsUuidHex(uuidHex)
    modifies db
    ensures db.Valid()
    ensures r.Err? ==> db.State() == old(db.State())
    ensures req.screeningId !in ScreeningIds(old(db.screenings)) ==> r == Err(ScreeningNotFound)
    ensures FindScreening(old(db.screenings), req.screeningId).Some? ==>
              var sc := FindScreening(old(db.screenings), req.screeningId).value;
              var payment := ProcessFakePayment(req.payment.cardNumber, sc.priceCents, uuidHex);
              var row := NewReservation(old(db.nextReservationId), req, caller.id, now);
              && (sc.showDatetime < now ==> r == Err(PastScreening))
              && (sc.showDatetime >= now && req.seatNumber in TakenSeats(old(db.reservations), req.screeningId) ==>
                    r == Err(SeatAlreadyReserved(req.seatNumber)))
              && (sc.showDatetime >= now && req.seatNumber !in TakenSeats(old(db.reservations), req.screeningId) ==>
                    && (payment.Err? ==> r == Err(payment.error))
                    && (payment.Ok? && !ReservationFits(row) ==> r == Err(CommitRefused))
                    && (payment.Ok? && ReservationFits(row) ==>
                          && r == Ok(BookingResponse(row, payment.value))
                          && db.State() == old(db.State()).(reservations := old(db.reservations) + [row],
                                                            nextReservationId := old(db.nextReservationId) + 1)))
  {
    var screening := FindScreening(db.screenings, req.screeningId);
    if screening.None? {
      return Err(ScreeningNotFound);
    }
    var sc := screening.value;
    if sc.showDatetime < now {
      return Err(PastScreening);
    }
    var existing := FindActive(db.reservations, req.screeningId, req.seatNumber);
    if existing.Some? {
      return Err(SeatAlreadyReserved(req.seatNumber));
    }
    var payment := ProcessFakePayment(req.payment.cardNumber, sc.priceCents, uuidHex);
    if payment.Err? {
      return Err(payment.error);
    }
    var row := NewReservation(db.nextReservationId, req, caller.id, now);
    if !ReservationFits(row) {
      return Err(CommitRefused);
    }
    BookingKeepsValid(db.State(), row, caller);
    db.reservations := db.reservations + [row];
    db.nextReservationId := db.nextReservationId + 1;
    r := Ok(BookingResponse(row, payment.value));
  }

  // ---------------------------------------------------------------------
  // get_my_reservations, get_reservation

  /** The caller's rows, in table order. */
  function OwnReservations(rs: seq<Reservation>, userId: nat): seq<Reservation> {
    Filter(rs, (x: Reservation) => x.userId == userId)
  }

  /** `get_my_reservations`: the caller's rows in table order, then
      `.offset(skip).limit(limit)`. */
  function GetMyReservations(db: Database, caller: Caller, skip: nat, limit: nat): (r: seq<Reservation>)
    reads db
    ensures var mine := OwnReservations(db.reservations, caller.id);
            && |r| == Min(limit, if skip <= |mine| then |mine| - skip else 0)
            && forall k :: 0 <= k < |r| ==> r[k] == mine[skip + k]
    ensures forall x :: x in r ==> x in db.reservations && x.userId == caller.id
  {
    var mine := OwnReservations(db.reservations, caller.id);
    var page := Page(mine, skip, limit);
    assert forall x :: x in page ==> x in mine;
    page
  }

  /** With offset 0 and a limit no smaller than their number, the
      listing is all of the caller's rows, in table order. */
  lemma MyReservationsComplete(db: Database, caller: Caller, limit: nat)
    requires limit >= |OwnReservations(db.reservations, caller.id)|
    ensures GetMyReservations(db, caller, 0, limit) == OwnReservations(db.reservations, caller.id)
  {
    var mine := OwnReservations(db.reservations, caller.id);
    assert mine[0..|mine|] == mine;
  }

  const ReservationNotFound: ApiError := ApiError(404, "Reservation not found")

  /** The position of the first row with this id owned by this user. */
  function FindOwned(rs: seq<Reservation>, reservationId: nat, userId: nat): (r: Option<nat>)
    ensures r.Some? <==> exists i :: 0 <= i < |rs| && rs[i].id == reservationId && rs[i].userId == userId
    ensures r.Some? ==> r.value < |rs| && rs[r.value].id == reservationId && rs[r.value].userId == userId
    ensures r.Some? ==> forall j :: 0 <= j < r.value ==> !(rs[j].id == reservationId && rs[j].userId == userId)
  {
    if rs == [] then None
    else if rs[0].id == reservationId && rs[0].userId == userId then Some(0)
    else
      match FindOwned(rs[1..], reservationId, userId)
      case None =>
        assert forall i :: 1 <= i < |rs| ==> rs[i] == rs[1..][i - 1];
        None
      case Some(j) =>
        assert forall i :: 1 <= i < |rs| ==> rs[i] == rs[1..][i - 1];
        Some(j + 1)
  }

  /** `get_reservation`: a row owned by someone else is reported exactly
      like a missing one. */
  function GetReservation(db: Database, caller: Caller, reservationId: nat): (r: Result<Reservation>)
    reads db
    ensures r.Ok? <==> exists x :: x in db.reservations && x.id == reservationId && x.userId == caller.id
    ensures r.Ok? ==> r.value in db.reservations && r.value.id == reservationId && r.value.userId == caller.id
    ensures r.Err? ==> r.error == ReservationNotFound
  {
    match FindOwned(db.reservations, reservationId, caller.id)
    case Some(i) => Ok(db.reservations[i])
    case None =>
      assert forall x :: x in db.reservations ==> exists i :: 0 <= i < |db.reservations| && db.reservations[i] == x;
      Err(ReservationNotFound)
  }

  // ---------------------------------------------------------------------
  // cancel_reservation

  const AlreadyCancelled: ApiError := ApiError(400, "Reservation is already cancelled")

  /** The table after `reservation.status = "cancelled"` and
      `reservation.cancelled_at = now` on row `i`. */
  function CancelAt(rs: seq<Reservation>, i: nat, now: int): (r: seq<Reservation>)
    requires i < |rs|
    ensures |r| == |rs|
    ensures r[i].status == Cancelled && r[i].cancelledAt == Some(now)
    ensures r[i].id == rs[i].id && r[i].screeningId == rs[i].screeningId && r[i].userId == rs[i].userId
    ensures r[i].seatNumber == rs[i].seatNumber && r[i].createdAt == rs[i].createdAt
    ensures forall j :: 0 <= j < |rs| && j != i ==> r[j] == rs[j]
  {
    rs[i := rs[i].(status := Cancelled, cancelledAt := Some(now))]
  }

  /** `cancel_reservation`: only the owner can cancel, and a row owned by
      someone else answers 404 exactly like a missing one (there is no
      admin override); a cancelled row cannot be cancelled again;
      otherwise the one row becomes cancelled at `now` and nothing else
      changes. The schema's UNIQUE (screening_id, seat_number, status) is
      not consulted here: `CancelCommitAsWritten` shows what it does. */
  method CancelReservation(db: Database, caller: Caller, reservationId: nat, now: int) returns (r: Result<Reservation>)
    requires db.Valid()
    modifies db
    ensures db.Valid()
    ensures r.Err? ==> db.State() == old(db.State())
    ensures FindOwned(old(db.reservations), reservationId, caller.id).None? ==> r == Err(ReservationNotFound)
    ensures FindOwned(old(db.reservations), reservationId, caller.id).Some? ==>
              var i := FindOwned(old(db.reservations), reservationId, caller.id).value;
              && (old(db.reservations)[i].status == Cancelled ==> r == Err(AlreadyCancelled))
              && (old(db.reservations)[i].status == Active ==>
                    && db.State() == old(db.State()).(reservations := CancelAt(old(db.reservations), i, now))
                    && r == Ok(db.reservations[i]))
  {
    var found := FindOwned(db.reservations, reservationId, caller.id);
    if found.None? {
      return Err(ReservationNotFound);
    }
    var i := found.value;
    if db.reservations[i].status == Cancelled {
      return Err(AlreadyCancelled);
    }
    var rs := CancelAt(db.reservations, i, now);
    assert forall x :: x in rs ==> x == rs[i] || x in db.reservations;
    assert Pairwise(rs, DistinctReservations) && AtMostOneActive(rs) by {
      forall p, q | 0 <= p < q < |rs| ensures DistinctReservations(rs[p], rs[q]) && NotBothActiveOnSeat(rs[p], rs[q]) {
        assert DistinctReservations(db.reservations[p], db.reservations[q]);
        assert NotBothActiveOnSeat(db.reservations[p], db.reservations[q]);
      }
    }
    db.reservations := rs;
    r := Ok(db.reservations[i]);
  }

  // ---------------------------------------------------------------------
  // The seat map seen through the two state changes

  /** A successful booking moves its seat from the available list to the
      taken list and adds exactly one to the taken count. */
  lemma BookingTakesSeat(sc: Screening, rs: seq<Reservation>, row: Reservation)
    requires row.screeningId == sc.id && row.status == Active
    ensures row.seatNumber in Availability(sc, rs + [row]).takenSeats
    ensures row.seatNumber !in Availability(sc, rs + [row]).availableSeats
    ensures Availability(sc, rs + [row]).takenCount == Availability(sc, rs).takenCount + 1
  {
    assert row in rs + [row];
    var p := (r: Reservation) => r.screeningId == sc.id && r.status == Active;
    FilterConcat(rs, [row], p);
    assert Filter([row], p) == [row];
  }

  /** Cancelling the one active reservation of a seat of the layout makes
      that seat available again. */
  lemma CancelReleasesSeat(sc: Screening, rs: seq<Reservation>, i: nat, now: int)
    requires AtMostOneActive(rs)
    requires i < |rs| && rs[i].screeningId == sc.id && rs[i].status == Active
    requires rs[i].seatNumber in SeatLayout(sc.totalSeats)
    ensures rs[i].seatNumber !in Availability(sc, CancelAt(rs, i, now)).takenSeats
    ensures rs[i].seatNumber in Availability(sc, CancelAt(rs, i, now)).availableSeats
  {
    var after := CancelAt(rs, i, now);
    forall j | 0 <= j < |after| && after[j].screeningId == sc.id && after[j].status == Active
      ensures after[j].seatNumber != rs[i].seatNumber
    {
      if j < i {
        assert NotBothActiveOnSeat(rs[j], rs[i]);
      } else if j > i {
        assert NotBothActiveOnSeat(rs[i], rs[j]);
      }
    }
  }

  // ---------------------------------------------------------------------
  // The declared unique key

  /** The commit of `cancel_reservation` against the schema as declared:
      UNIQUE (screening_id, seat_number, status) also covers cancelled
      rows, so the update is refused when the seat already has a
      cancelled reservation for this screening. */
  function CancelCommitAsWritten(rs: seq<Reservation>, i: nat, now: int): (r: Result<seq<Reservation>>)
    requires i < |rs|
    ensures r.Ok? ==> UniqueSeatStatus(r.value) && r.value == CancelAt(rs, i, now)
    ensures r.Err? ==> r.error == CommitRefused
  {
    if UniqueSeatStatus(CancelAt(rs, i, now)) then Ok(CancelAt(rs, i, now)) else Err(CommitRefused)
  }

  /** On a table that satisfies the declared key, cancelling an active
      row is refused exactly when another cancelled row for the same
      screening and seat exists. */
  lemma CancelAsWrittenRefusedIff(rs: seq<Reservation>, i: nat, now: int)
    requires UniqueSeatStatus(rs) && i < |rs| && rs[i].status == Active
    ensures CancelCommitAsWritten(rs, i, now).Err? <==>
            exists j :: 0 <= j < |rs| && j != i && rs[j].status == Cancelled && SameSeat(rs[j], rs[i])
  {
    var after := CancelAt(rs, i, now);
    if exists j :: 0 <= j < |rs| && j != i && rs[j].status == Cancelled && SameSeat(rs[j], rs[i]) {
      var j :| 0 <= j < |rs| && j != i && rs[j].status == Cancelled && SameSeat(rs[j], rs[i]);
      if j < i {
        assert !NotSameSeatAndStatus(after[j], after[i]);
      } else {
        assert !NotSameSeatAndStatus(after[i], after[j]);
      }
    } else {
      forall p, q | 0 <= p < q < |after| ensures NotSameSeatAndStatus(after[p], after[q]) {
        assert NotSameSeatAndStatus(rs[p], rs[q]);
      }
    }
  }

  /** Book seat "A1", cancel, book it again and cancel again: the second
      cancellation is refused by the declared key, although the
      single-active rule that booking relies on still holds. */
  lemma RebookCancelTwiceFails()
    ensures var first := Reservation(1, 1, 1, "A1", Active, 0, None);
            var second := Reservation(2, 1, 1, "A1", Active, 20, None);
            var afterCancel := CancelAt([first], 0, 10);
            var rebooked := afterCancel + [second];
            && UniqueSeatStatus(rebooked) && AtMostOneActive(rebooked)
            && CancelCommitAsWritten([first], 0, 10) == Ok(afterCancel)
            && CancelCommitAsWritten(rebooked, 1, 30) == Err(CommitRefused)
            && AtMostOneActive(CancelAt(rebooked, 1, 30))
  {
    var first := Reservation(1, 1, 1, "A1", Active, 0, None);
    var second := Reservation(2, 1, 1, "A1", Active, 20, None);
    var afterCancel := CancelAt([first], 0, 10);
    var rebooked := afterCancel + [second];
    assert !NotSameSeatAndStatus(CancelAt(rebooked, 1, 30)[0], CancelAt(rebooked, 1, 30)[1]);
  }
}
