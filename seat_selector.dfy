/** The seat map of frontend/components/SeatSelector.tsx: the labels of a
    `SeatAvailability` grouped by their first character, the rows in string
    order, the seats of a row by the number after the row character, and
    the state of each seat's button. */
module SeatSelector {
  import opened Wrappers
  import opened Seqs
  import opened Text
  import ScreeningRoutes

  // Array.prototype.sort with a comparator, stable as V8's is since 2018.

  /** Where a stable sort puts `x` among the sorted `s`: in front of the
      first element `x` must precede, so after every element it ties with.
      `before(a, b)` means that the comparator returns a negative number. */
  function Insert<T>(x: T, s: seq<T>, before: (T, T) -> bool): (r: seq<T>)
    ensures |r| == |s| + 1
    ensures multiset(r) == multiset(s) + multiset{x}
  {
    if s == [] then [x]
    else if before(x, s[0]) then [x] + s
    else
      assert s == [s[0]] + s[1..];
      [s[0]] + Insert(x, s[1..], before)
  }

  /** The elements of `s` taken in order, each inserted into the sorted
      prefix. */
  function SortBy<T>(s: seq<T>, before: (T, T) -> bool): (r: seq<T>)
    ensures |r| == |s|
    ensures multiset(r) == multiset(s)
  {
    if s == [] then []
    else
      assert s == s[..|s| - 1] + [s[|s| - 1]];
      Insert(s[|s| - 1], SortBy(s[..|s| - 1], before), before)
  }

  /** No element stands after one it must precede. */
  predicate OrderedBy<T>(s: seq<T>, before: (T, T) -> bool) {
    forall i, j :: 0 <= i < j < |s| ==> !before(s[j], s[i])
  }

  /** `before` is a strict partial order: irreflexive and transitive. */
  ghost predicate StrictOrder<T(!new)>(before: (T, T) -> bool) {
    && (forall a :: !before(a, a))
    && (forall a, b, c :: before(a, b) && before(b, c) ==> before(a, c))
  }

  lemma {:induction false} InsertOrdered<T(!new)>(x: T, s: seq<T>, before: (T, T) -> bool)
    requires StrictOrder(before) && OrderedBy(s, before)
    ensures OrderedBy(Insert(x, s, before), before)
  {
    var r := Insert(x, s, before);
    if s == [] {
    } else if before(x, s[0]) {
      forall j | 1 <= j < |r| ensures !before(r[j], r[0]) {
        assert r[j] == s[j - 1] && r[0] == x;
        assert !before(s[j - 1], s[0]);
      }
      assert forall i, j :: 1 <= i < j < |r| ==> r[i] == s[i - 1] && r[j] == s[j - 1];
    } else {
      var t := Insert(x, s[1..], before);
      InsertOrdered(x, s[1..], before);
      assert r == [s[0]] + t;
      forall j | 1 <= j < |r| ensures !before(r[j], r[0]) {
        var y := r[j];
        assert y == t[j - 1];
        assert y in multiset(t);
        if y != x {
          assert y in multiset(s[1..]);
          var k :| 0 <= k < |s[1..]| && s[1..][k] == y;
          assert s[k + 1] == y;
        }
      }
    }
  }

  /** Sorting with a strict partial order leaves no element behind one it
      must precede. */
  lemma {:induction false} SortOrdered<T(!new)>(s: seq<T>, before: (T, T) -> bool)
    requires StrictOrder(before)
    ensures OrderedBy(SortBy(s, before), before)
  {
    if s != [] {
      SortOrdered(s[..|s| - 1], before);
      InsertOrdered(s[|s| - 1], SortBy(s[..|s| - 1], before), before);
    }
  }

  /** A sequence repeats an element exactly when its multiset counts it
      twice; sorting therefore keeps a sequence free of duplicates. */
  lemma {:induction false} InsertDistinct<T>(x: T, s: seq<T>, before: (T, T) -> bool)
    requires NoDuplicates(s) && x !in s
    ensures NoDuplicates(Insert(x, s, before))
  {
    var r := Insert(x, s, before);
    if s == [] {
    } else if before(x, s[0]) {
      forall i, j | 0 <= i < j < |r| ensures r[i] != r[j] {
        assert r[j] == s[j - 1];
        if i > 0 {
          assert r[i] == s[i - 1];
        }
      }
    } else {
      var t := Insert(x, s[1..], before);
      assert x !in s[1..];
      assert NoDuplicates(s[1..]) by {
        forall i, j | 0 <= i < j < |s[1..]| ensures s[1..][i] != s[1..][j] {
          assert s[1..][i] == s[i + 1] && s[1..][j] == s[j + 1];
        }
      }
      InsertDistinct(x, s[1..], before);
      assert r == [s[0]] + t;
      assert s[0] !in t by {
        forall k | 0 <= k < |s[1..]| ensures s[1..][k] != s[0] {
          assert s[1..][k] == s[k + 1];
        }
        assert s[0] !in multiset(s[1..]) && s[0] != x;
        assert s[0] !in multiset(t);
      }
      forall i, j | 0 <= i < j < |r| ensures r[i] != r[j] {
        assert r[j] == t[j - 1];
        if i > 0 {
          assert r[i] == t[i - 1];
        }
      }
    }
  }

  lemma {:induction false} SortDistinct<T>(s: seq<T>, before: (T, T) -> bool)
    requires NoDuplicates(s)
    ensures NoDuplicates(SortBy(s, before))
  {
    if s != [] {
      var front := s[..|s| - 1];
      var x := s[|s| - 1];
      assert NoDuplicates(front) by {
        forall i, j | 0 <= i < j < |front| ensures front[i] != front[j] {
          assert front[i] == s[i] && front[j] == s[j];
        }
      }
      SortDistinct(front, before);
      assert x !in SortBy(front, before) by {
        forall k | 0 <= k < |front| ensures front[k] != x {
          assert front[k] == s[k];
        }
        assert x !in multiset(front);
        assert x !in multiset(SortBy(front, before));
      }
      InsertDistinct(x, SortBy(front, before), before);
    }
  }

  // The default sort: strings compared character by character.

  /** `a < b` on two strings. */
  predicate StrLess(a: string, b: string)
    decreases |a|
  {
    b != [] && (a == [] || a[0] < b[0] || (a[0] == b[0] && StrLess(a[1..], b[1..])))
  }

  lemma {:induction false} StrLessIrreflexive(a: string)
    ensures !StrLess(a, a)
    decreases |a|
  {
    if a != [] {
      StrLessIrreflexive(a[1..]);
    }
  }

  lemma {:induction false} StrLessTransitive(a: string, b: string, c: string)
    requires StrLess(a, b) && StrLess(b, c)
    ensures StrLess(a, c)
    decreases |a|
  {
    if a != [] && a[0] == b[0] && b[0] == c[0] {
      StrLessTransitive(a[1..], b[1..], c[1..]);
    }
  }

  lemma {:induction false} StrLessTotal(a: string, b: string)
    requires a != b
    ensures StrLess(a, b) || StrLess(b, a)
    decreases |a|
  {
    if a != [] && b != [] && a[0] == b[0] {
      assert a[1..] != b[1..] by {
        assert a == [a[0]] + a[1..] && b == [b[0]] + b[1..];
      }
      StrLessTotal(a[1..], b[1..]);
    }
  }

  lemma StrLessIsStrictOrder()
    ensures StrictOrder(StrLess)
  {
    forall a: string ensures !StrLess(a, a) {
      StrLessIrreflexive(a);
    }
    forall a: string, b: string, c: string | StrLess(a, b) && StrLess(b, c) ensures StrLess(a, c) {
      StrLessTransitive(a, b, c);
    }
  }

  /** `.sort()` with no comparator on an array of strings: ascending in
      string order, a permutation of its input. */
  function SortStrings(s: seq<string>): (r: seq<string>)
    ensures multiset(r) == multiset(s)
    ensures forall i, j :: 0 <= i < j < |r| ==> r[i] == r[j] || StrLess(r[i], r[j])
    ensures NoDuplicates(s) ==> forall i, j :: 0 <= i < j < |r| ==> StrLess(r[i], r[j])
  {
    StrLessIsStrictOrder();
    SortOrdered(s, StrLess);
    var r := SortBy(s, StrLess);
    assert forall i, j :: 0 <= i < j < |r| ==> r[i] == r[j] || StrLess(r[i], r[j]) by {
      forall i, j | 0 <= i < j < |r| && r[i] != r[j] ensures StrLess(r[i], r[j]) {
        StrLessTotal(r[i], r[j]);
      }
    }
    if NoDuplicates(s) then SortDistinct(s, StrLess); r else r
  }

  // Grouping, lines 15-22.

  /** `seat.charAt(0)`: the first character, or "" for an empty label. */
  function RowKey(seat: string): string {
    if seat == [] then "" else [seat[0]]
  }

  function OfRow(key: string): string -> bool {
    (seat: string) => RowKey(seat) == key
  }

  /** One step of the `forEach`: `seat` pushed onto the list under its row
      key, the list created first when the key is new. */
  function Push(seatsByRow: map<string, seq<string>>, seat: string): map<string, seq<string>> {
    var row := RowKey(seat);
    var created := if row in seatsByRow then seatsByRow else seatsByRow[row := []];
    created[row := created[row] + [seat]]
  }

  /** `keys` lists the keys of `seatsByRow`, once each. */
  ghost predicate KeysListed(seatsByRow: map<string, seq<string>>, keys: seq<string>) {
    (forall k :: k in seatsByRow <==> k in keys) && NoDuplicates(keys)
  }

  /** Every label of `seats` has a list under its row key. */
  ghost predicate RowsCovered(seatsByRow: map<string, seq<string>>, seats: seq<string>) {
    forall i :: 0 <= i < |seats| ==> RowKey(seats[i]) in seatsByRow
  }

  /** The list under each key holds the labels of that row in order, and
      is not empty. */
  ghost predicate BucketsFiltered(seatsByRow: map<string, seq<string>>, seats: seq<string>) {
    forall k :: k in seatsByRow ==> seatsByRow[k] == Filter(seats, OfRow(k)) && seatsByRow[k] != []
  }

  lemma PushKeys(seatsByRow: map<string, seq<string>>, keys: seq<string>, seat: string)
    requires KeysListed(seatsByRow, keys)
    ensures KeysListed(Push(seatsByRow, seat),
                       if RowKey(seat) in seatsByRow then keys else keys + [RowKey(seat)])
  {
    var row := RowKey(seat);
    if row !in seatsByRow {
      var keys' := keys + [row];
      forall i, j | 0 <= i < j < |keys'| ensures keys'[i] != keys'[j] {
        assert keys'[i] == keys[i];
      }
    }
  }

  lemma PushCovers(seatsByRow: map<string, seq<string>>, seats: seq<string>, seat: string)
    requires RowsCovered(seatsByRow, seats)
    ensures RowsCovered(Push(seatsByRow, seat), seats + [seat])
  {
    forall i | 0 <= i < |seats + [seat]| ensures RowKey((seats + [seat])[i]) in Push(seatsByRow, seat) {
      if i < |seats| {
        assert (seats + [seat])[i] == seats[i];
      }
    }
  }

  lemma FreshRowEmpty(seatsByRow: map<string, seq<string>>, seats: seq<string>, row: string)
    requires RowsCovered(seatsByRow, seats)
    requires row !in seatsByRow
    ensures Filter(seats, OfRow(row)) == []
  {
    forall k | 0 <= k < |seats| ensures !OfRow(row)(seats[k]) {
      assert RowKey(seats[k]) in seatsByRow;
    }
    FilterDropsAll(seats, OfRow(row));
  }

  lemma PushBuckets(seatsByRow: map<string, seq<string>>, seats: seq<string>, seat: string)
    requires BucketsFiltered(seatsByRow, seats) && RowsCovered(seatsByRow, seats)
    ensures BucketsFiltered(Push(seatsByRow, seat), seats + [seat])
  {
    if RowKey(seat) !in seatsByRow {
      FreshRowEmpty(seatsByRow, seats, RowKey(seat));
    }
    var m := Push(seatsByRow, seat);
    forall k | k in m ensures m[k] == Filter(seats + [seat], OfRow(k)) && m[k] != [] {
      FilterSnoc(seats, seat, OfRow(k));
    }
  }

  /** The `forEach` of lines 16-20 over `seats`: each label is pushed onto
      the list under its row key, the list being created on first use.
      `keys` are the row keys in the order they were created, which is the
      order `Object.keys` reports for one-character keys that are not
      digits. */
  method GroupByRow(seats: seq<string>) returns (seatsByRow: map<string, seq<string>>, keys: seq<string>)
    ensures KeysListed(seatsByRow, keys)
    ensures RowsCovered(seatsByRow, seats)
    ensures BucketsFiltered(seatsByRow, seats)
  {
    seatsByRow := map[];
    keys := [];
    for n := 0 to |seats|
      invariant KeysListed(seatsByRow, keys)
      invariant RowsCovered(seatsByRow, seats[..n])
      invariant BucketsFiltered(seatsByRow, seats[..n])
    {
      var seat := seats[n];
      var row := RowKey(seat);
      assert seats[..n + 1] == seats[..n] + [seat];
      ghost var before := seatsByRow;
      PushKeys(seatsByRow, keys, seat);
      PushCovers(seatsByRow, seats[..n], seat);
      PushBuckets(seatsByRow, seats[..n], seat);
      if row !in seatsByRow {
        seatsByRow := seatsByRow[row := []];
        keys := keys + [row];
      }
      seatsByRow := seatsByRow[row := seatsByRow[row] + [seat]];
      assert seatsByRow == Push(before, seat);
    }
    assert seats[..|seats|] == seats;
  }

  /** Every label of `all` has its row's key, and every key a label. */
  lemma KeysCover(all: seq<string>, seats: seq<string>, seatsByRow: map<string, seq<string>>)
    requires multiset(seats) == multiset(all)
    requires RowsCovered(seatsByRow, seats)
    requires BucketsFiltered(seatsByRow, seats)
    ensures forall x :: x in all ==> RowKey(x) in seatsByRow
    ensures forall k :: k in seatsByRow ==> exists x :: x in all && RowKey(x) == k
  {
    forall x | x in all ensures RowKey(x) in seatsByRow {
      assert x in multiset(seats);
      var i :| 0 <= i < |seats| && seats[i] == x;
    }
    forall k | k in seatsByRow ensures exists x :: x in all && RowKey(x) == k {
      var x := seatsByRow[k][0];
      assert x in Filter(seats, OfRow(k));
      assert x in multiset(seats);
    }
  }

  lemma SameMembers<T>(a: seq<T>, b: seq<T>)
    requires multiset(a) == multiset(b)
    ensures forall x :: x in a <==> x in b
  {
    forall x ensures x in a <==> x in b {
      assert x in a <==> x in multiset(a);
      assert x in b <==> x in multiset(b);
    }
  }

  /** Each bucket holds every label of its row as often as `all` does,
      and no other label. */
  ghost predicate CountsKept(seatsByRow: map<string, seq<string>>, all: seq<string>) {
    forall k, x :: k in seatsByRow ==>
      multiset(seatsByRow[k])[x] == if RowKey(x) == k then multiset(all)[x] else 0
  }

  lemma BucketCounts(all: seq<string>, seats: seq<string>, seatsByRow: map<string, seq<string>>)
    requires multiset(seats) == multiset(all)
    requires BucketsFiltered(seatsByRow, seats)
    ensures CountsKept(seatsByRow, all)
  {
    forall k, x | k in seatsByRow
      ensures multiset(seatsByRow[k])[x] == if RowKey(x) == k then multiset(all)[x] else 0
    {
      FilterMultiset(seats, OfRow(k), x);
    }
  }

  /** Lines 15-22: the available and taken labels concatenated, sorted as
      strings and grouped by row key; `rows` are the keys, sorted. Every
      label lands in the bucket of its first character and in no other,
      as often as it occurs in the two lists. */
  method SeatsByRow(available: seq<string>, taken: seq<string>)
    returns (seatsByRow: map<string, seq<string>>, rows: seq<string>)
    ensures forall x :: x in available + taken ==> RowKey(x) in seatsByRow
    ensures forall k :: k in seatsByRow ==> exists x :: x in available + taken && RowKey(x) == k
    ensures CountsKept(seatsByRow, available + taken)
    ensures forall k :: k in rows <==> k in seatsByRow
    ensures forall i, j :: 0 <= i < j < |rows| ==> StrLess(rows[i], rows[j])
  {
    var seats := SortStrings(available + taken);
    var keys;
    seatsByRow, keys := GroupByRow(seats);
    rows := SortStrings(keys);
    KeysCover(available + taken, seats, seatsByRow);
    BucketCounts(available + taken, seats, seatsByRow);
    SameMembers(rows, keys);
  }

  // Ordering within a row, lines 65-69.

  /** `seat.slice(1)`: the label after its row character, also the text
      shown on the button. */
  function Suffix(seat: string): string {
    if seat == [] then "" else seat[1..]
  }

  /** `parseInt(seat.slice(1))`, `None` for `NaN`. */
  function SeatNumber(seat: string): Option<int> {
    ParseInt(Suffix(seat))
  }

  /** The comparator `numA - numB` is negative: both numbers parse and the
      first is smaller. A `NaN` difference counts as zero, a tie. */
  predicate NumberBefore(a: string, b: string) {
    SeatNumber(a).Some? && SeatNumber(b).Some? && SeatNumber(a).value < SeatNumber(b).value
  }

  lemma NumberBeforeIsStrictOrder()
    ensures StrictOrder(NumberBefore)
  {
  }

  predicate AllNumbered(row: seq<string>) {
    forall x :: x in row ==> SeatNumber(x).Some?
  }

  predicate NumbersAscend(row: seq<string>) {
    forall i, j :: 0 <= i < j < |row| ==>
      SeatNumber(row[i]).Some? && SeatNumber(row[j]).Some? && SeatNumber(row[i]).value <= SeatNumber(row[j]).value
  }

  /** The sort of lines 65-69: a permutation of the row that never puts a
      seat behind one with a larger number. */
  function SortRow(row: seq<string>): (r: seq<string>)
    ensures multiset(r) == multiset(row)
    ensures OrderedBy(r, NumberBefore)
  {
    NumberBeforeIsStrictOrder();
    SortOrdered(row, NumberBefore);
    SortBy(row, NumberBefore)
  }

  /** A sequence ordered by a comparator on integer keys, all of them
      present, has ascending keys. */
  lemma KeysAscend<T>(r: seq<T>, key: T -> Option<int>, before: (T, T) -> bool)
    requires forall a, b :: before(a, b) <==> key(a).Some? && key(b).Some? && key(a).value < key(b).value
    requires forall i :: 0 <= i < |r| ==> key(r[i]).Some?
    requires OrderedBy(r, before)
    ensures forall i, j :: 0 <= i < j < |r| ==> key(r[i]).Some? && key(r[j]).Some? && key(r[i]).value <= key(r[j]).value
  {
    forall i, j | 0 <= i < j < |r| ensures key(r[i]).value <= key(r[j]).value {
      assert !before(r[j], r[i]);
    }
  }

  /** When every suffix in the row parses, the row is shown in ascending
      seat number. */
  lemma SortRowAscends(row: seq<string>)
    requires AllNumbered(row)
    ensures NumbersAscend(SortRow(row))
  {
    var r := SortRow(row);
    forall i | 0 <= i < |r| ensures SeatNumber(r[i]).Some? {
      assert r[i] in multiset(row);
    }
    KeysAscend(r, SeatNumber, NumberBefore);
  }

  /** The labels the backend generates, `f"{row_letter}{seat_num}"`, parse
      back to their seat number and are keyed by their row letter. */
  lemma LayoutLabelParts(i: nat)
    requires i < ScreeningRoutes.MaxSeats
    ensures RowKey(ScreeningRoutes.SeatLabel(i)) == [ScreeningRoutes.RowLetter(i / ScreeningRoutes.SeatsPerRow)]
    ensures Suffix(ScreeningRoutes.SeatLabel(i)) == NatToDecimal(i % ScreeningRoutes.SeatsPerRow + 1)
    ensures SeatNumber(ScreeningRoutes.SeatLabel(i)) == Some(i % ScreeningRoutes.SeatsPerRow + 1)
  {
    var n := i % ScreeningRoutes.SeatsPerRow + 1;
    assert ScreeningRoutes.SeatLabel(i)[1..] == NatToDecimal(n);
    ParseIntOfDecimal(n);
  }

  /** A row holding only backend labels is shown in ascending seat number. */
  lemma LayoutRowAscends(row: seq<string>)
    requires forall x :: x in row ==> exists i :: 0 <= i < ScreeningRoutes.MaxSeats && x == ScreeningRoutes.SeatLabel(i)
    ensures NumbersAscend(SortRow(row))
  {
    forall x | x in row ensures SeatNumber(x).Some? {
      var i :| 0 <= i < ScreeningRoutes.MaxSeats && x == ScreeningRoutes.SeatLabel(i);
      LayoutLabelParts(i);
    }
    SortRowAscends(row);
  }

  // The seat buttons, lines 70-84.

  const SelectedClass: string := "seat seat-selected"
  const TakenClass: string := "seat seat-taken"
  const AvailableClass: string := "seat seat-available"

  /** `taken_seats.includes(seat)`. */
  predicate IsTaken(seat: string, taken: seq<string>) {
    seat in taken
  }

  /** The class of a seat: selected wins over taken, taken over available. */
  function SeatClass(seat: string, taken: seq<string>, selected: Option<string>): (c: string)
    ensures c == SelectedClass <==> selected == Some(seat)
    ensures c == TakenClass <==> selected != Some(seat) && IsTaken(seat, taken)
    ensures c == AvailableClass <==> selected != Some(seat) && !IsTaken(seat, taken)
  {
    if selected == Some(seat) then SelectedClass
    else if IsTaken(seat, taken) then TakenClass
    else AvailableClass
  }

  datatype SeatButton = SeatButton(seat: string, text: string, disabled: bool, className: string, title: string)

  function Button(seat: string, taken: seq<string>, selected: Option<string>): SeatButton {
    var isTaken := IsTaken(seat, taken);
    SeatButton(seat, Suffix(seat), isTaken, SeatClass(seat, taken, selected), if isTaken then "Taken" else seat)
  }

  /** `onClick={() => !isTaken && onSelectSeat(seat)}`: the seat handed to
      `onSelectSeat`, `None` when the handler is not called. A disabled
      button receives no click at all. */
  function Click(b: SeatButton): (r: Option<string>)
    ensures r.Some? ==> !b.disabled && r.value == b.seat
  {
    if b.disabled then None else Some(b.seat)
  }

  /** The buttons of one row, in the row's sorted order. */
  function RowButtons(row: seq<string>, taken: seq<string>, selected: Option<string>): (bs: seq<SeatButton>)
    ensures |bs| == |row|
    ensures forall k :: 0 <= k < |bs| ==> bs[k] == Button(SortRow(row)[k], taken, selected)
  {
    var sorted := SortRow(row);
    seq(|sorted|, k requires 0 <= k < |sorted| => Button(sorted[k], taken, selected))
  }

  function ButtonSeats(bs: seq<SeatButton>): seq<string> {
    seq(|bs|, k requires 0 <= k < |bs| => bs[k].seat)
  }

  /** The buttons of a row show each of its seats once, labelled with the
      seat's number, in seat-number order; ascending when every number
      parses. */
  lemma RowButtonsShowRow(row: seq<string>, taken: seq<string>, selected: Option<string>)
    ensures var bs := RowButtons(row, taken, selected);
            && multiset(ButtonSeats(bs)) == multiset(row)
            && OrderedBy(ButtonSeats(bs), NumberBefore)
            && (AllNumbered(row) ==> NumbersAscend(ButtonSeats(bs)))
            && forall k :: 0 <= k < |bs| ==> bs[k].text == Suffix(bs[k].seat)
  {
    assert ButtonSeats(RowButtons(row, taken, selected)) == SortRow(row);
    if AllNumbered(row) {
      SortRowAscends(row);
    }
  }

  /** A button is disabled exactly when its seat is in `taken_seats`, and
      is then titled "Taken"; clicking it selects its own seat exactly when it is
      not, so `onSelectSeat` never receives a taken seat. */
  lemma ClickSelectsOnlyFreeSeats(row: seq<string>, taken: seq<string>, selected: Option<string>, k: nat)
    requires k < |row|
    ensures var b := RowButtons(row, taken, selected)[k];
      && (b.disabled <==> b.seat in taken)
      && (b.seat in taken ==> b.title == "Taken")
      && (Click(b).Some? <==> b.seat !in taken)
      && (Click(b).Some? ==> Click(b).value == b.seat && Click(b).value !in taken)
      && b.seat in row
  {
    var sorted := SortRow(row);
    assert sorted[k] in multiset(row);
    var b := RowButtons(row, taken, selected)[k];
    assert b.seat == sorted[k];
  }
}
