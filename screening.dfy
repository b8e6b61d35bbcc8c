/** backend/app/api/v1/screening.py: the seat layout derived from a
    screening's `total_seats`, the seat-availability report, and the
    screening CRUD handlers. */
module ScreeningRoutes {
  import opened Wrappers
  import opened Seqs
  import opened Text
  import opened Models
  import opened Http

  const SeatsPerRow: nat := 10
  const MaxRows: nat := 26
  const MaxSeats: nat := 260

  const ScreeningNotFound: ApiError := ApiError(404, "Screening not found")
  const MovieNotFound: ApiError := ApiError(404, "Movie not found")

  /** `chr(65 + row_idx)`: 'A' for row 0 up to 'Z' for row 25. */
  function RowLetter(row: nat): (c: char)
    requires row < MaxRows
    ensures 'A' <= c <= 'Z'
  {
    (65 + row) as char
  }

  /** The name of the i-th seat in row-major order, `f"{row_letter}{seat_num}"`. */
  function SeatLabel(i: nat): string
    requires i < MaxSeats
  {
    [RowLetter(i / SeatsPerRow)] + NatToDecimal(i % SeatsPerRow + 1)
  }

  /** How many labels a screening with `n` seats gets: none for n <= 0, at
      most 26 rows of 10. */
  function LayoutSize(n: int): nat {
    if n <= 0 then 0 else Min(n, MaxSeats)
  }

  /** The value `generate_seat_layout(n)` returns, for use in functions. */
  function SeatLayout(n: int): seq<string> {
    seq(LayoutSize(n), i requires 0 <= i < LayoutSize(n) => SeatLabel(i))
  }

  /** `generate_seat_layout`: rows A, B, ... of ten seats each, stopping
      after `total_seats` labels or after row Z. */
  method GenerateSeatLayout(totalSeats: int) returns (seats: seq<string>)
    ensures |seats| == LayoutSize(totalSeats)
    ensures |seats| == (if totalSeats <= 0 then 0 else Min(totalSeats, 260))
    ensures forall i :: 0 <= i < |seats| ==>
              i < MaxSeats && seats[i] == [(65 + i / 10) as char] + NatToDecimal(i % 10 + 1)
    ensures seats == SeatLayout(totalSeats)
  {
    seats := [];
    var seatsPerRow := 10;
    // Python's `//` floors; so does Dafny's `/` for a positive divisor.
    var rowCount := (totalSeats + seatsPerRow - 1) / seatsPerRow;
    var rows := Min(rowCount, 26);
    var rowIdx := 0;
    while rowIdx < rows
      invariant 0 <= rowIdx && (rows >= 0 ==> rowIdx <= rows)
      invariant rowIdx > 0 ==> rowIdx <= rows
      invariant |seats| == Min(if totalSeats <= 0 then 0 else totalSeats, 10 * rowIdx)
      invariant forall i :: 0 <= i < |seats| ==> i < MaxSeats && seats[i] == SeatLabel(i)
    {
      var rowLetter := (65 + rowIdx) as char;
      var seatNum := 1;
      assert |seats| == 10 * rowIdx < totalSeats;
      while seatNum < seatsPerRow + 1
        invariant 1 <= seatNum <= seatsPerRow + 1
        invariant |seats| == 10 * rowIdx + seatNum - 1 <= totalSeats
        invariant forall i :: 0 <= i < |seats| ==> i < MaxSeats && seats[i] == SeatLabel(i)
      {
        if |seats| >= totalSeats {
          break;
        }
        ghost var i := |seats|;
        assert i / 10 == rowIdx && i % 10 + 1 == seatNum;
        seats := seats + [[rowLetter] + NatToDecimal(seatNum)];
        seatNum := seatNum + 1;
      }
      rowIdx := rowIdx + 1;
    }
    assert |seats| == LayoutSize(totalSeats);
  }

  /** Reads a label back into its (row index, seat number), if it has the
      form of a name: one letter A..Z followed by decimal digits. */
  function SeatPosition(name: string): Option<(nat, nat)> {
    if |name| >= 2 && 'A' <= name[0] <= 'Z' && AllDigits(name[1..])
    then Some((name[0] as int - 'A' as int, DecimalValue(name[1..])))
    else None
  }

  /** Every name names its row and a seat number between 1 and 10, and
      reading it back gives its position in the layout. */
  lemma SeatPositionOfLabel(i: nat)
    requires i < MaxSeats
    ensures SeatPosition(SeatLabel(i)) == Some((i / SeatsPerRow, i % SeatsPerRow + 1))
    ensures 1 <= i % SeatsPerRow + 1 <= SeatsPerRow
  {
    var name := SeatLabel(i);
    assert name[1..] == NatToDecimal(i % SeatsPerRow + 1);
    DecimalRoundTrip(i % SeatsPerRow + 1);
  }

  /** Layout index of a name: row * 10 + seat - 1. */
  function LayoutIndex(name: string): int {
    match SeatPosition(name)
    case Some((row, col)) => row * SeatsPerRow + col - 1
    case None => -1
  }

  lemma LayoutIndexOfLabel(i: nat)
    requires i < MaxSeats
    ensures LayoutIndex(SeatLabel(i)) == i
  {
    SeatPositionOfLabel(i);
  }

  /** No name occurs twice in a layout. */
  lemma SeatLabelsDistinct(n: int)
    ensures NoDuplicates(SeatLayout(n))
  {
    var layout := SeatLayout(n);
    forall i, j | 0 <= i < j < |layout| ensures layout[i] != layout[j] {
      LayoutIndexOfLabel(i);
      LayoutIndexOfLabel(j);
    }
  }

  predicate InRow(name: string, row: nat) {
    |name| > 0 && row < MaxRows && name[0] == RowLetter(row)
  }

  /** A label lies in row `row` exactly when its index does. */
  lemma InRowOfLabel(i: nat, row: nat)
    requires i < MaxSeats && row < MaxRows
    ensures InRow(SeatLabel(i), row) <==> i / SeatsPerRow == row
  {
    assert SeatLabel(i)[0] == RowLetter(i / SeatsPerRow);
  }

  lemma RowOfIndex(i: nat, row: nat)
    ensures i < row * SeatsPerRow ==> i / SeatsPerRow < row
    ensures row * SeatsPerRow <= i < row * SeatsPerRow + SeatsPerRow ==> i / SeatsPerRow == row
    ensures row * SeatsPerRow + SeatsPerRow <= i ==> i / SeatsPerRow > row
  {
  }

  /** How many labels with index in [lo, hi) lie in `row`: all of them
      when the range is inside the row, none when it is outside. */
  lemma {:induction false} RowSlice(n: int, lo: nat, hi: nat, row: nat)
    requires lo <= hi <= LayoutSize(n) && row < MaxRows
    requires hi <= row * SeatsPerRow || row * SeatsPerRow + SeatsPerRow <= lo
             || (row * SeatsPerRow <= lo && hi <= row * SeatsPerRow + SeatsPerRow)
    ensures |Filter(SeatLayout(n)[lo..hi], (l: string) => InRow(l, row))| ==
            if row * SeatsPerRow <= lo && hi <= row * SeatsPerRow + SeatsPerRow then hi - lo else 0
  {
    var part := SeatLayout(n)[lo..hi];
    var inside := row * SeatsPerRow <= lo && hi <= row * SeatsPerRow + SeatsPerRow;
    forall k | 0 <= k < |part| ensures InRow(part[k], row) == inside {
      assert part[k] == SeatLabel(lo + k);
      InRowOfLabel(lo + k, row);
      RowOfIndex(lo + k, row);
    }
    if inside {
      FilterKeepsAll(part, (l: string) => InRow(l, row));
    } else {
      FilterDropsAll(part, (l: string) => InRow(l, row));
    }
  }

  lemma RowWidth(n: int, row: nat)
    requires 0 < n <= MaxSeats
    requires row <= (n - 1) / SeatsPerRow
    ensures row < MaxRows && row * SeatsPerRow < n
    ensures Min(n, row * SeatsPerRow + SeatsPerRow) - row * SeatsPerRow ==
            if row < (n - 1) / SeatsPerRow then SeatsPerRow
            else if n % SeatsPerRow == 0 then SeatsPerRow else n % SeatsPerRow
  {
  }

  /** With 1..260 seats every row before the last holds 10 seats and the
      last row holds `n mod 10`, or 10 when `n` is a multiple of 10. */
  lemma LastRowSize(n: int, row: nat)
    requires 0 < n <= MaxSeats
    requires row <= (n - 1) / SeatsPerRow
    ensures |Filter(SeatLayout(n), (l: string) => InRow(l, row))| ==
            if row < (n - 1) / SeatsPerRow then SeatsPerRow
            else if n % SeatsPerRow == 0 then SeatsPerRow else n % SeatsPerRow
  {
    var layout := SeatLayout(n);
    RowWidth(n, row);
    var lo := row * SeatsPerRow;
    var hi := Min(n, lo + SeatsPerRow);
    RowSlice(n, 0, lo, row);
    RowSlice(n, lo, hi, row);
    RowSlice(n, hi, |layout|, row);
    FilterThreeSlices(layout, lo, hi, (l: string) => InRow(l, row));
  }

  datatype SeatAvailability = SeatAvailability(
    screeningId: nat, totalSeats: int, availableCount: nat, takenCount: nat,
    takenSeats: seq<string>, availableSeats: seq<string>)

  /** The active reservations of one screening, in table order. */
  function ActiveRows(rs: seq<Reservation>, screeningId: nat): seq<Reservation> {
    Filter(rs, (r: Reservation) => r.screeningId == screeningId && r.status == Active)
  }

  /** `[r.seat_number for r in active_reservations]`. */
  function TakenSeats(rs: seq<Reservation>, screeningId: nat): (taken: seq<string>)
    ensures |taken| == |ActiveRows(rs, screeningId)|
    ensures forall x :: x in taken <==>
              exists r :: r in rs && r.screeningId == screeningId && r.status == Active && r.seatNumber == x
  {
    var active := ActiveRows(rs, screeningId);
    var taken := seq(|active|, k requires 0 <= k < |active| => active[k].seatNumber);
    assert forall x :: x in taken ==>
             exists r :: r in rs && r.screeningId == screeningId && r.status == Active && r.seatNumber == x by {
      forall x | x in taken
        ensures exists r :: r in rs && r.screeningId == screeningId && r.status == Active && r.seatNumber == x
      {
        var k :| 0 <= k < |taken| && taken[k] == x;
        assert active[k] in active;
      }
    }
    assert forall r :: r in rs && r.screeningId == screeningId && r.status == Active ==> r.seatNumber in taken by {
      forall r | r in rs && r.screeningId == screeningId && r.status == Active ensures r.seatNumber in taken {
        assert r in active;
        var k :| 0 <= k < |active| && active[k] == r;
        assert taken[k] == r.seatNumber;
      }
    }
    taken
  }

  /** `[seat for seat in all_seats if seat not in taken_seats]`. */
  function AvailableSeats(layout: seq<string>, taken: seq<string>): seq<string> {
    Filter(layout, (s: string) => s !in taken)
  }

  /** The body of the seat-availability response for one screening. */
  function Availability(sc: Screening, rs: seq<Reservation>): (a: SeatAvailability)
    ensures a.screeningId == sc.id && a.totalSeats == sc.totalSeats
    ensures a.takenSeats == TakenSeats(rs, sc.id) && a.takenCount == |a.takenSeats|
    ensures a.availableCount == |a.availableSeats|
    ensures forall x :: x in a.availableSeats <==> x in SeatLayout(sc.totalSeats) && x !in a.takenSeats
  {
    var taken := TakenSeats(rs, sc.id);
    var available := AvailableSeats(SeatLayout(sc.totalSeats), taken);
    SeatAvailability(sc.id, sc.totalSeats, |available|, |taken|, taken, available)
  }

  /** The available seats keep the layout's row-major order. */
  lemma AvailableInLayoutOrder(sc: Screening, rs: seq<Reservation>)
    ensures var a := Availability(sc, rs).availableSeats;
            forall i, j :: 0 <= i < j < |a| ==> LayoutIndex(a[i]) < LayoutIndex(a[j])
  {
    var layout := SeatLayout(sc.totalSeats);
    var before := (x: string, y: string) => LayoutIndex(x) < LayoutIndex(y);
    forall i, j | 0 <= i < j < |layout| ensures before(layout[i], layout[j]) {
      LayoutIndexOfLabel(i);
      LayoutIndexOfLabel(j);
    }
    FilterPairwise(layout, (s: string) => s !in TakenSeats(rs, sc.id), before);
  }

  /** One active reservation per seat makes the taken list duplicate-free. */
  lemma TakenSeatsDistinct(rs: seq<Reservation>, screeningId: nat)
    requires AtMostOneActive(rs)
    ensures NoDuplicates(TakenSeats(rs, screeningId))
  {
    var active := ActiveRows(rs, screeningId);
    FilterPairwise(rs, (r: Reservation) => r.screeningId == screeningId && r.status == Active, NotBothActiveOnSeat);
    var taken := TakenSeats(rs, screeningId);
    forall i, j | 0 <= i < j < |taken| ensures taken[i] != taken[j] {
      assert NotBothActiveOnSeat(active[i], active[j]);
      assert active[i] in active && active[j] in active;
    }
  }

  /** `available_count + taken_count == total_seats` holds when each seat has
      at most one active reservation, every reserved seat is a name of the
      layout, and the screening has no more than 260 seats. */
  lemma Conservation(sc: Screening, rs: seq<Reservation>)
    requires AtMostOneActive(rs)
    requires 0 < sc.totalSeats <= MaxSeats
    requires forall r :: r in rs && r.screeningId == sc.id && r.status == Active ==>
               r.seatNumber in SeatLayout(sc.totalSeats)
    ensures Availability(sc, rs).availableCount + Availability(sc, rs).takenCount == sc.totalSeats
  {
    var layout := SeatLayout(sc.totalSeats);
    var taken := TakenSeats(rs, sc.id);
    var isFree := (s: string) => s !in taken;
    var isTaken := (s: string) => s in taken;
    FilterPartition(layout, isFree, isTaken);
    var reserved := Filter(layout, isTaken);
    SeatLabelsDistinct(sc.totalSeats);
    FilterPairwise(layout, isTaken, (x: string, y: string) => x != y);
    assert NoDuplicates(reserved);
    TakenSeatsDistinct(rs, sc.id);
    DistinctCardinality(reserved);
    DistinctCardinality(taken);
    assert Elements(reserved) == Elements(taken);
  }

  /** Booking does not check the seat against the layout, so a seat outside
      it breaks the sum: 12 seats, one reservation for "Z99". */
  lemma SeatOutsideLayoutBreaksConservation()
    ensures var sc := Screening(1, 1, 0, 12, DefaultPriceCents, 0);
            var rs := [Reservation(1, 1, 1, "Z99", Active, 0, None)];
            && AtMostOneActive(rs)
            && Availability(sc, rs).availableCount + Availability(sc, rs).takenCount == 13
  {
    var sc := Screening(1, 1, 0, 12, DefaultPriceCents, 0);
    var rs := [Reservation(1, 1, 1, "Z99", Active, 0, None)];
    var layout := SeatLayout(12);
    var taken := TakenSeats(rs, 1);
    assert taken == ["Z99"] by {
      assert ActiveRows(rs, 1) == rs;
    }
    forall k | 0 <= k < |layout| ensures layout[k] !in taken {
      assert layout[k][0] == RowLetter(k / SeatsPerRow) != 'Z';
    }
    FilterKeepsAll(layout, (s: string) => s !in taken);
  }

  /** The layout stops at 260 labels while `total_seats` is reported as is. */
  lemma OversizedScreeningBreaksConservation()
    ensures var sc := Screening(1, 1, 0, 300, DefaultPriceCents, 0);
            Availability(sc, []).availableCount + Availability(sc, []).takenCount == 260
  {
    var layout := SeatLayout(300);
    assert TakenSeats([], 1) == [];
    FilterKeepsAll(layout, (s: string) => s !in []);
  }

  /** `get_seat_availability`. */
  method GetSeatAvailability(db: Database, screeningId: nat) returns (r: Result<SeatAvailability>)
    ensures FindScreening(db.screenings, screeningId).None? ==> r == Err(ScreeningNotFound)
    ensures FindScreening(db.screenings, screeningId).Some? ==>
              r == Ok(Availability(FindScreening(db.screenings, screeningId).value, db.reservations))
  {
    var screening := FindScreening(db.screenings, screeningId);
    if screening.None? {
      return Err(ScreeningNotFound);
    }
    var taken := TakenSeats(db.reservations, screeningId);
    var allSeats := GenerateSeatLayout(screening.value.totalSeats);
    var available := AvailableSeats(allSeats, taken);
    r := Ok(SeatAvailability(screeningId, screening.value.totalSeats, |available|, |taken|, taken, available));
  }

  /** `get_all_screenings`: `.offset(skip).limit(limit)` in table order. */
  function GetAllScreenings(db: Database, skip: nat, limit: nat): (r: seq<Screening>)
    reads db
    ensures |r| == Min(limit, if skip <= |db.screenings| then |db.screenings| - skip else 0)
    ensures forall x :: x in r ==> x in db.screenings
    ensures forall k :: 0 <= k < |r| ==> skip + k < |db.screenings| && r[k] == db.screenings[skip + k]
  {
    Page(db.screenings, skip, limit)
  }

  /** `get_screening_by_id`. */
  function GetScreeningById(db: Database, screeningId: nat): (r: Result<Screening>)
    reads db
    ensures r.Ok? <==> screeningId in ScreeningIds(db.screenings)
    ensures r.Ok? ==> r.value in db.screenings && r.value.id == screeningId
    ensures r.Err? ==> r.error == ScreeningNotFound
  {
    match FindScreening(db.screenings, screeningId)
    case Some(sc) => Ok(sc)
    case None => Err(ScreeningNotFound)
  }

  /** The request body of `create_screening`; an absent seat count or price
      takes the column default. */
  datatype ScreeningAdd = ScreeningAdd(
    movieId: nat, showDatetime: int, totalSeats: Option<int>, priceCents: Option<int>)

  /** The row `Screening(**screening.dict())` becomes once the database has
      filled in the primary key, the column defaults and `created_at`. */
  function NewScreening(id: nat, req: ScreeningAdd, now: int): (s: Screening)
    ensures s.id == id && s.movieId == req.movieId && s.showDatetime == req.showDatetime
    ensures s.totalSeats == (if req.totalSeats.Some? then req.totalSeats.value else 100)
    ensures s.priceCents == (if req.priceCents.Some? then req.priceCents.value else 1000)
    ensures s.createdAt == now
  {
    Screening(id, req.movieId, req.showDatetime,
              req.totalSeats.GetOr(DefaultTotalSeats), req.priceCents.GetOr(DefaultPriceCents), now)
  }

  /** `create_screening`: admin only; the movie must exist; the new row is
      appended, unless the database refuses it (`total_seats <= 0`, or a
      value out of the column's range). */
  method CreateScreening(db: Database, caller: Caller, req: ScreeningAdd, now: int) returns (r: Result<Screening>)
    requires db.Valid()
    modifies db
    ensures db.Valid()
    ensures caller.role != AdminRole ==> r == Err(NotEnoughPrivileges) && db.State() == old(db.State())
    ensures caller.role == AdminRole && req.movieId !in MovieIds(old(db.movies)) ==>
              r == Err(MovieNotFound) && db.State() == old(db.State())
    ensures caller.role == AdminRole && req.movieId in MovieIds(old(db.movies)) &&
            !ScreeningFits(NewScreening(old(db.nextScreeningId), req, now)) ==>
              r == Err(CommitRefused) && db.State() == old(db.State())
    ensures (caller.role == AdminRole && req.movieId in MovieIds(old(db.movies)) &&
             ScreeningFits(NewScreening(old(db.nextScreeningId), req, now))) ==> r.Ok?
    ensures r.Ok? ==>
              && caller.role == AdminRole && req.movieId in MovieIds(old(db.movies))
              && r.value == NewScreening(old(db.nextScreeningId), req, now) && ScreeningFits(r.value)
              && db.State() == old(db.State()).(screenings := old(db.screenings) + [r.value],
                                                nextScreeningId := old(db.nextScreeningId) + 1)
  {
    if caller.role != AdminRole {
      return Err(NotEnoughPrivileges);
    }
    var movie := FindMovie(db.movies, req.movieId);
    if movie.None? {
      return Err(MovieNotFound);
    }
    var row := NewScreening(db.nextScreeningId, req, now);
    if !ScreeningFits(row) {
      return Err(CommitRefused);
    }
    PairwiseAppend(db.screenings, row, DistinctScreenings);
    db.screenings := db.screenings + [row];
    db.nextScreeningId := db.nextScreeningId + 1;
    assert ScreeningIds(old(db.screenings)) <= ScreeningIds(db.screenings);
    r := Ok(row);
  }

  /** A screening appended with a fresh id is found under that id, and
      every other lookup is unaffected. */
  lemma {:induction false} FindScreeningAppend(ss: seq<Screening>, row: Screening, id: nat)
    requires row.id !in ScreeningIds(ss)
    ensures FindScreening(ss + [row], id) == if id == row.id then Some(row) else FindScreening(ss, id)
  {
    if ss == [] {
      assert ss + [row] == [row];
    } else {
      assert (ss + [row])[1..] == ss[1..] + [row];
      assert ScreeningIds(ss) == {ss[0].id} + ScreeningIds(ss[1..]);
      if ss[0].id != id {
        FindScreeningAppend(ss[1..], row, id);
      }
    }
  }

  /** Removing the rows with one id hides that id and no other. */
  lemma {:induction false} FindScreeningRemoved(ss: seq<Screening>, gone: nat, id: nat)
    ensures FindScreening(Filter(ss, (s: Screening) => s.id != gone), id) ==
            if id == gone then None else FindScreening(ss, id)
  {
    var keep := (s: Screening) => s.id != gone;
    if ss != [] {
      var rest := Filter(ss[1..], keep);
      FindScreeningRemoved(ss[1..], gone, id);
      if ss[0].id != gone {
        assert Filter(ss, keep) == [ss[0]] + rest;
        assert ([ss[0]] + rest)[1..] == rest;
      } else {
        assert Filter(ss, keep) == rest;
      }
    }
  }

  /** After a successful `create_screening`, `get_screening_by_id` returns
      the new row under the new id and every other screening as before. */
  lemma CreatedScreeningIsFound(ss: seq<Screening>, nextId: nat, ms: seq<Movie>, req: ScreeningAdd, now: int, id: nat)
    requires ScreeningsValid(ss, nextId, ms)
    ensures FindScreening(ss + [NewScreening(nextId, req, now)], id) ==
            if id == nextId then Some(NewScreening(nextId, req, now)) else FindScreening(ss, id)
  {
    FindScreeningAppend(ss, NewScreening(nextId, req, now), id);
  }

  /** `delete_screening`: admin only; 404 for a missing screening; otherwise
      the row goes, and `ON DELETE CASCADE` takes its reservations with it,
      active or not. */
  method DeleteScreening(db: Database, caller: Caller, screeningId: nat) returns (r: Result<()>)
    requires db.Valid()
    modifies db
    ensures db.Valid()
    ensures caller.role != AdminRole ==> r == Err(NotEnoughPrivileges) && db.State() == old(db.State())
    ensures caller.role == AdminRole && screeningId !in ScreeningIds(old(db.screenings)) ==>
              r == Err(ScreeningNotFound) && db.State() == old(db.State())
    ensures caller.role == AdminRole && screeningId in ScreeningIds(old(db.screenings)) ==> r.Ok?
    ensures r.Err? ==> db.State() == old(db.State())
    ensures r.Ok? ==>
              && caller.role == AdminRole && screeningId in ScreeningIds(old(db.screenings))
              && db.State() == old(db.State()).(
                   screenings := Filter(old(db.screenings), (s: Screening) => s.id != screeningId),
                   reservations := Filter(old(db.reservations), (x: Reservation) => x.screeningId != screeningId))
  {
    if caller.role != AdminRole {
      return Err(NotEnoughPrivileges);
    }
    var screening := FindScreening(db.screenings, screeningId);
    if screening.None? {
      return Err(ScreeningNotFound);
    }
    var keepScreening := (s: Screening) => s.id != screeningId;
    var keepReservation := (x: Reservation) => x.screeningId != screeningId;
    FilterPairwise(db.screenings, keepScreening, DistinctScreenings);
    FilterPairwise(db.reservations, keepReservation, DistinctReservations);
    FilterPairwise(db.reservations, keepReservation, NotBothActiveOnSeat);
    var screenings := Filter(db.screenings, keepScreening);
    var reservations := Filter(db.reservations, keepReservation);
    forall x | x in reservations ensures x.screeningId in ScreeningIds(screenings) {
      var s :| s in db.screenings && s.id == x.screeningId;
      assert s in screenings;
    }
    db.screenings := screenings;
    db.reservations := reservations;
    r := Ok(());
  }
}
