/** The seat map of the web front end: seats grouped by row, rows in
    ascending key order, each row's seats sorted by seat number, the display
    style of each seat and the guard on clicks. */
module SeatMap {

  import opened Options
  import opened Sequences

  datatype SeatStatus = Available | Locked | Sold | Selected

  /** A seat as the map receives it. `number` is the value `parseInt` gives
      for the seat's number string. */
  datatype Seat = Seat(id: int, row: string, number: nat, status: SeatStatus, price: int)

  // ---------------------------------------------------------------------
  // Grouping by row

  /** The seats of `seats` in row `row`, in input order. */
  function RowGroup(seats: seq<Seat>, row: string): seq<Seat>
  {
    if seats == [] then []
    else
      var last := seats[|seats| - 1];
      RowGroup(seats[..|seats| - 1], row) + (if last.row == row then [last] else [])
  }

  /** The rows that occur in `seats`. */
  function RowsOf(seats: seq<Seat>): set<string>
  {
    set i | 0 <= i < |seats| :: seats[i].row
  }

  /** A row that no seat has gets an empty group. */
  lemma {:induction false} RowGroupAbsent(seats: seq<Seat>, row: string)
    requires row !in RowsOf(seats)
    ensures RowGroup(seats, row) == []
  {
    if seats != [] {
      var init := seats[..|seats| - 1];
      assert RowsOf(init) <= RowsOf(seats) by {
        forall r | r in RowsOf(init) ensures r in RowsOf(seats) {
          var i :| 0 <= i < |init| && init[i].row == r;
          assert seats[i] == init[i];
        }
      }
      assert seats[|seats| - 1].row in RowsOf(seats);
      RowGroupAbsent(init, row);
    }
  }

  /** The `reduce` that builds the `rows` record: each seat is pushed onto the
      array of its row, which is created on the row's first seat. `keys`
      lists the rows in the order in which they are first met. */
  method GroupByRow(seats: seq<Seat>) returns (rows: map<string, seq<Seat>>, keys: seq<string>)
    ensures rows.Keys == RowsOf(seats)
    ensures forall r | r in rows :: rows[r] == RowGroup(seats, r)
    ensures Distinct(keys)
    ensures forall r :: r in keys <==> r in rows
  {
    rows, keys := map[], [];
    for i := 0 to |seats|
      invariant rows.Keys == RowsOf(seats[..i])
      invariant forall r | r in rows :: rows[r] == RowGroup(seats[..i], r)
      invariant Distinct(keys)
      invariant forall r :: r in keys <==> r in rows
    {
      var seat := seats[i];
      RowsOfStep(seats, i);
      RowGroupStep(seats, i);
      if seat.row !in rows {
        RowGroupAbsent(seats[..i], seat.row);
        rows := rows[seat.row := []];
        keys := keys + [seat.row];
      }
      rows := rows[seat.row := rows[seat.row] + [seat]];
    }
    assert seats[..|seats|] == seats;
  }

  /** One more seat adds its row to the rows met so far. */
  lemma RowsOfStep(seats: seq<Seat>, i: nat)
    requires i < |seats|
    ensures RowsOf(seats[..i + 1]) == RowsOf(seats[..i]) + {seats[i].row}
  {
    var pre, next := seats[..i], seats[..i + 1];
    forall r | r in RowsOf(next) ensures r in RowsOf(pre) + {seats[i].row} {
      var k :| 0 <= k < i + 1 && next[k].row == r;
      if k < i { assert pre[k] == next[k]; }
    }
    forall r | r in RowsOf(pre) ensures r in RowsOf(next) {
      var k :| 0 <= k < i && pre[k].row == r;
      assert next[k] == pre[k];
    }
  }

  /** One more seat joins the group of its own row and no other. */
  lemma RowGroupStep(seats: seq<Seat>, i: nat)
    requires i < |seats|
    ensures forall r :: RowGroup(seats[..i + 1], r) ==
              RowGroup(seats[..i], r) + (if seats[i].row == r then [seats[i]] else [])
  {
    assert seats[..i + 1][..i] == seats[..i];
  }

  /** Every occurrence of a seat lands in the group of its own row and in no other. */
  lemma {:induction false} RowGroupCount(seats: seq<Seat>, row: string, x: Seat)
    ensures multiset(RowGroup(seats, row))[x] == if x.row == row then multiset(seats)[x] else 0
  {
    if seats != [] {
      var init, last := seats[..|seats| - 1], seats[|seats| - 1];
      assert seats == init + [last];
      RowGroupCount(init, row, x);
    }
  }

  /** The positions, in ascending order, of the seats of row `row`. */
  function RowIndices(seats: seq<Seat>, row: string): (ix: seq<nat>)
    ensures forall j | 0 <= j < |ix| :: ix[j] < |seats| && seats[ix[j]].row == row
    ensures forall j, k | 0 <= j < k < |ix| :: ix[j] < ix[k]
    ensures forall i | 0 <= i < |seats| && seats[i].row == row :: i in ix
  {
    if seats == [] then []
    else
      var n := |seats| - 1;
      var init := seats[..n];
      var before := RowIndices(init, row);
      assert forall j | 0 <= j < |before| :: seats[before[j]] == init[before[j]];
      before + (if seats[n].row == row then [n] else [])
  }

  /** Before sorting, a row's group is that row's seats in their input order:
      its j-th seat is the seat at the j-th position of that row. */
  lemma {:induction false} RowGroupInInputOrder(seats: seq<Seat>, row: string)
    ensures |RowGroup(seats, row)| == |RowIndices(seats, row)|
    ensures forall j | 0 <= j < |RowIndices(seats, row)| ::
              RowGroup(seats, row)[j] == seats[RowIndices(seats, row)[j]]
  {
    if seats != [] {
      var n := |seats| - 1;
      var init := seats[..n];
      RowGroupInInputOrder(init, row);
      var g, ix := RowGroup(init, row), RowIndices(init, row);
      forall j | 0 <= j < |ix| ensures g[j] == seats[ix[j]] {
        assert init[ix[j]] == seats[ix[j]];
      }
    }
  }

  /** The groups of `keys`, one after the other. */
  function Concat(seats: seq<Seat>, keys: seq<string>): seq<Seat>
  {
    if keys == [] then []
    else Concat(seats, keys[..|keys| - 1]) + RowGroup(seats, keys[|keys| - 1])
  }

  lemma {:induction false} ConcatCount(seats: seq<Seat>, keys: seq<string>, x: Seat)
    requires Distinct(keys)
    ensures multiset(Concat(seats, keys))[x] == if x.row in keys then multiset(seats)[x] else 0
  {
    if keys != [] {
      var init, last := keys[..|keys| - 1], keys[|keys| - 1];
      assert keys == init + [last];
      assert Distinct(init);
      assert last !in init;
      ConcatCount(seats, init, x);
      RowGroupCount(seats, last, x);
    }
  }

  /** Grouping is a partition: the groups of all rows together are exactly the
      input seats, so their sizes add up to the number of seats. */
  lemma GroupsPartitionSeats(seats: seq<Seat>, keys: seq<string>)
    requires Distinct(keys)
    requires forall r :: r in keys <==> r in RowsOf(seats)
    ensures multiset(Concat(seats, keys)) == multiset(seats)
    ensures |Concat(seats, keys)| == |seats|
  {
    forall x ensures multiset(Concat(seats, keys))[x] == multiset(seats)[x] {
      ConcatCount(seats, keys, x);
      if x in seats {
        var i :| 0 <= i < |seats| && seats[i] == x;
        assert x.row in RowsOf(seats);
      }
    }
    assert multiset(Concat(seats, keys)) == multiset(seats);
    assert |multiset(Concat(seats, keys))| == |multiset(seats)|;
  }

  // ---------------------------------------------------------------------
  // Sorting the row keys: `Object.keys(rows).sort()`

  /** The default string order of `sort()`: lexicographic on characters,
      a proper prefix first. */
  predicate LexLess(a: string, b: string)
    decreases |a|
  {
    if a == [] then b != []
    else if b == [] then false
    else if a[0] != b[0] then a[0] < b[0]
    else LexLess(a[1..], b[1..])
  }

  lemma {:induction false} LexIrreflexive(a: string)
    ensures !LexLess(a, a)
    decreases |a|
  {
    if a != [] { LexIrreflexive(a[1..]); }
  }

  lemma {:induction false} LexTransitive(a: string, b: string, c: string)
    requires LexLess(a, b) && LexLess(b, c)
    ensures LexLess(a, c)
    decreases |a|
  {
    if a != [] && b != [] && c != [] && a[0] == b[0] && b[0] == c[0] {
      LexTransitive(a[1..], b[1..], c[1..]);
    }
  }

  lemma {:induction false} LexTotal(a: string, b: string)
    requires a != b
    ensures LexLess(a, b) || LexLess(b, a)
    decreases |a|
  {
    if a != [] && b != [] && a[0] == b[0] {
      assert a == [a[0]] + a[1..] && b == [b[0]] + b[1..];
      LexTotal(a[1..], b[1..]);
    }
  }

  predicate StrictlySorted(s: seq<string>)
  {
    forall i, j | 0 <= i < j < |s| :: LexLess(s[i], s[j])
  }

  function Insert(x: string, s: seq<string>): seq<string>
  {
    if s == [] then [x]
    else if LexLess(x, s[0]) then [x] + s
    else [s[0]] + Insert(x, s[1..])
  }

  /** The sorted copy of the row keys. */
  function SortKeys(keys: seq<string>): seq<string>
  {
    if keys == [] then [] else Insert(keys[0], SortKeys(keys[1..]))
  }

  lemma {:induction false} InsertMembers(x: string, s: seq<string>)
    ensures multiset(Insert(x, s)) == multiset(s) + multiset{x}
  {
    if s != [] && !LexLess(x, s[0]) {
      InsertMembers(x, s[1..]);
      assert s == [s[0]] + s[1..];
    }
  }

  /** Inserting a key above a lower bound keeps every key above it. */
  lemma {:induction false} InsertBounded(x: string, s: seq<string>, lo: string)
    requires LexLess(lo, x) && forall j | 0 <= j < |s| :: LexLess(lo, s[j])
    ensures forall j | 0 <= j < |Insert(x, s)| :: LexLess(lo, Insert(x, s)[j])
  {
    if s != [] && !LexLess(x, s[0]) {
      var rest := s[1..];
      assert forall j | 0 <= j < |rest| :: rest[j] == s[j + 1];
      InsertBounded(x, rest, lo);
      assert Insert(x, s) == [s[0]] + Insert(x, rest);
    }
  }

  lemma {:induction false} InsertSorted(x: string, s: seq<string>)
    requires StrictlySorted(s) && x !in s
    ensures StrictlySorted(Insert(x, s))
  {
    if s != [] {
      if LexLess(x, s[0]) {
        forall j | 0 < j < |s| ensures LexLess(x, s[j]) { LexTransitive(x, s[0], s[j]); }
        assert Insert(x, s) == [x] + s;
      } else {
        LexTotal(x, s[0]);
        var rest := s[1..];
        assert forall j | 0 <= j < |rest| :: rest[j] == s[j + 1];
        InsertSorted(x, rest);
        InsertBounded(x, rest, s[0]);
        assert Insert(x, s) == [s[0]] + Insert(x, rest);
      }
    }
  }

  /** Sorting keeps the keys: the same ones, as often each. */
  lemma {:induction false} SortKeysMembers(keys: seq<string>)
    ensures multiset(SortKeys(keys)) == multiset(keys)
  {
    if keys != [] {
      SortKeysMembers(keys[1..]);
      InsertMembers(keys[0], SortKeys(keys[1..]));
      assert keys == [keys[0]] + keys[1..];
    }
  }

  /** Distinct keys sort into a strictly ascending sequence. */
  lemma {:induction false} SortKeysSorted(keys: seq<string>)
    requires Distinct(keys)
    ensures StrictlySorted(SortKeys(keys))
  {
    if keys != [] {
      var rest := keys[1..];
      assert forall j | 0 <= j < |rest| :: rest[j] == keys[j + 1];
      SortKeysSorted(rest);
      SortKeysMembers(rest);
      var sorted := SortKeys(rest);
      assert keys[0] !in multiset(rest);
      assert keys[0] !in sorted by {
        assert keys[0] !in multiset(sorted);
      }
      InsertSorted(keys[0], sorted);
    }
  }

  /** The rendered row keys are the distinct rows of `keys`, in strictly
      ascending order, so none is repeated. */
  lemma SortedRowKeys(keys: seq<string>)
    requires Distinct(keys)
    ensures StrictlySorted(SortKeys(keys))
    ensures Distinct(SortKeys(keys))
    ensures forall r :: r in SortKeys(keys) <==> r in keys
  {
    SortKeysSorted(keys);
    SortKeysMembers(keys);
    var s := SortKeys(keys);
    forall i, j | 0 <= i < j < |s| ensures s[i] != s[j] {
      if s[i] == s[j] { LexIrreflexive(s[i]); }
    }
    forall r ensures r in s <==> r in keys {
      assert r in s <==> r in multiset(s);
      assert r in keys <==> r in multiset(keys);
    }
  }

  // ---------------------------------------------------------------------
  // Sorting one row in place by seat number

  predicate NumberSorted(s: seq<Seat>)
  {
    forall i, j | 0 <= i < j < |s| :: s[i].number <= s[j].number
  }

  method Swap(a: array<Seat>, i: nat, j: nat)
    requires i < j < a.Length
    modifies a
    ensures a[i] == old(a[j]) && a[j] == old(a[i])
    ensures forall m | 0 <= m < a.Length && m != i && m != j :: a[m] == old(a[m])
    ensures multiset(a[..]) == multiset(old(a[..]))
  {
    a[i], a[j] := a[j], a[i];
  }

  /** `rows[rowKey].sort((a, b) => parseInt(a.number) - parseInt(b.number))`,
      done in place as an insertion sort. */
  method SortRowByNumber(a: array<Seat>)
    modifies a
    ensures NumberSorted(a[..])
    ensures multiset(a[..]) == multiset(old(a[..]))
  {
    for i := 0 to a.Length
      invariant NumberSorted(a[..i])
      invariant multiset(a[..]) == multiset(old(a[..]))
    {
      InsertNext(a, i);
    }
    assert a[..a.Length] == a[..];
  }

  /** One pass of the insertion sort: moves `a[i]` left into the sorted prefix. */
  method InsertNext(a: array<Seat>, i: nat)
    requires i < a.Length && NumberSorted(a[..i])
    modifies a
    ensures NumberSorted(a[..i + 1])
    ensures multiset(a[..]) == multiset(old(a[..]))
  {
    var j := i;
    while j > 0 && a[j - 1].number > a[j].number
      invariant 0 <= j <= i
      invariant forall p, q | 0 <= p < q <= i && p != j && q != j :: a[p].number <= a[q].number
      invariant forall q | j < q <= i :: a[j].number < a[q].number
      invariant multiset(a[..]) == multiset(old(a[..]))
    {
      Swap(a, j - 1, j);
      j := j - 1;
    }
  }

  // ---------------------------------------------------------------------
  // The whole layout

  /** One rendered row: its key and its seats, left to right. */
  datatype RowView = RowView(row: string, seats: seq<Seat>)

  function Flatten(view: seq<RowView>): seq<Seat>
  {
    if view == [] then [] else Flatten(view[..|view| - 1]) + view[|view| - 1].seats
  }

  /** `view` renders the rows `keys` in that order, each with exactly its
      row's seats, sorted by number. */
  ghost predicate RowsRendered(seats: seq<Seat>, keys: seq<string>, view: seq<RowView>)
  {
    && |view| == |keys|
    && forall k | 0 <= k < |keys| ::
         view[k].row == keys[k] && NumberSorted(view[k].seats)
         && multiset(view[k].seats) == multiset(RowGroup(seats, keys[k]))
  }

  lemma RenderStep(seats: seq<Seat>, keys: seq<string>, i: nat, view: seq<RowView>, ordered: seq<Seat>)
    requires i < |keys|
    requires RowsRendered(seats, keys[..i], view)
    requires NumberSorted(ordered) && multiset(ordered) == multiset(RowGroup(seats, keys[i]))
    ensures RowsRendered(seats, keys[..i + 1], view + [RowView(keys[i], ordered)])
  {
    var next := view + [RowView(keys[i], ordered)];
    var k := keys[..i + 1];
    forall j | 0 <= j < |k|
      ensures next[j].row == k[j] && NumberSorted(next[j].seats)
      ensures multiset(next[j].seats) == multiset(RowGroup(seats, k[j]))
    {
      if j < i {
        assert next[j] == view[j] && k[j] == keys[..i][j];
      } else {
        assert next[j] == RowView(keys[i], ordered) && k[j] == keys[i];
      }
    }
  }

  lemma LayoutStep(seats: seq<Seat>, keys: seq<string>, i: nat, view: seq<RowView>, ordered: seq<Seat>)
    requires i < |keys|
    requires multiset(Flatten(view)) == multiset(Concat(seats, keys[..i]))
    requires multiset(ordered) == multiset(RowGroup(seats, keys[i]))
    ensures multiset(Flatten(view + [RowView(keys[i], ordered)])) == multiset(Concat(seats, keys[..i + 1]))
  {
    var next := view + [RowView(keys[i], ordered)];
    assert next[..|next| - 1] == view;
    assert Flatten(next) == Flatten(view) + ordered;
    var k := keys[..i + 1];
    assert k[..i] == keys[..i] && k[i] == keys[i];
    assert Concat(seats, k) == Concat(seats, keys[..i]) + RowGroup(seats, keys[i]);
    calc {
      multiset(Flatten(next));
      multiset(Flatten(view)) + multiset(ordered);
      multiset(Concat(seats, keys[..i])) + multiset(RowGroup(seats, keys[i]));
      multiset(Concat(seats, k));
    }
  }

  /** The seats of one row, copied into a fresh array and sorted there. */
  method SortedRow(group: seq<Seat>) returns (ordered: seq<Seat>)
    ensures NumberSorted(ordered)
    ensures multiset(ordered) == multiset(group)
  {
    var a := new Seat[|group|](j requires 0 <= j < |group| => group[j]);
    assert a[..] == group;
    SortRowByNumber(a);
    ordered := a[..];
  }

  /** The seat map's layout: rows in ascending key order, one per row present,
      each row's seats ascending by number and exactly that row's seats; all
      rows together are exactly the input seats. */
  method Layout(seats: seq<Seat>) returns (view: seq<RowView>)
    ensures forall i, j | 0 <= i < j < |view| :: LexLess(view[i].row, view[j].row)
    ensures forall i | 0 <= i < |view| :: view[i].row in RowsOf(seats)
    ensures forall r | r in RowsOf(seats) :: exists i | 0 <= i < |view| :: view[i].row == r
    ensures forall i | 0 <= i < |view| ::
              NumberSorted(view[i].seats) && multiset(view[i].seats) == multiset(RowGroup(seats, view[i].row))
    ensures multiset(Flatten(view)) == multiset(seats)
  {
    var rows, keys := GroupByRow(seats);
    var sorted := SortKeys(keys);
    SortedRowKeys(keys);
    view := RenderRows(seats, rows, sorted);
    LayoutRows(seats, sorted, view);
    GroupsPartitionSeats(seats, sorted);
  }

  lemma LayoutRows(seats: seq<Seat>, sorted: seq<string>, view: seq<RowView>)
    requires StrictlySorted(sorted)
    requires forall r :: r in sorted <==> r in RowsOf(seats)
    requires |view| == |sorted| && forall k | 0 <= k < |sorted| :: view[k].row == sorted[k]
    ensures forall i, j | 0 <= i < j < |view| :: LexLess(view[i].row, view[j].row)
    ensures forall i | 0 <= i < |view| :: view[i].row in RowsOf(seats)
    ensures forall r | r in RowsOf(seats) :: exists i | 0 <= i < |view| :: view[i].row == r
  {
    forall r | r in RowsOf(seats) ensures exists i | 0 <= i < |view| :: view[i].row == r {
      var i :| 0 <= i < |sorted| && sorted[i] == r;
      assert view[i].row == r;
    }
  }

  /** The rows of `keys` in that order, each with its seats sorted by number. */
  method RenderRows(seats: seq<Seat>, rows: map<string, seq<Seat>>, keys: seq<string>) returns (view: seq<RowView>)
    requires forall i | 0 <= i < |keys| :: keys[i] in rows
    requires forall r | r in rows :: rows[r] == RowGroup(seats, r)
    ensures RowsRendered(seats, keys, view)
    ensures multiset(Flatten(view)) == multiset(Concat(seats, keys))
  {
    view := [];
    for i := 0 to |keys|
      invariant RowsRendered(seats, keys[..i], view)
      invariant multiset(Flatten(view)) == multiset(Concat(seats, keys[..i]))
    {
      var ordered := SortedRow(rows[keys[i]]);
      RenderStep(seats, keys, i, view, ordered);
      LayoutStep(seats, keys, i, view, ordered);
      view := view + [RowView(keys[i], ordered)];
    }
    assert keys[..|keys|] == keys;
  }

  // ---------------------------------------------------------------------
  // Display style and click guard

  datatype SeatStyle = AvailableStyle | SoldStyle | LockedStyle | SelectedStyle

  predicate IsSelected(seat: Seat, selectedSeats: seq<int>)
  {
    seat.id in selectedSeats
  }

  /** The guard on hover, tap and click: neither SOLD nor LOCKED. */
  function CanClick(seat: Seat): (r: bool)
    ensures r <==> seat.status == Available || seat.status == Selected
  {
    seat.status != Sold && seat.status != Locked
  }

  /** `onClick`: the seat handed to `onSeatSelect`, or nothing when the guard fails. */
  function Click(seat: Seat): (r: Option<Seat>)
    ensures r == Some(seat) <==> seat.status == Available || seat.status == Selected
    ensures r.None? <==> seat.status == Sold || seat.status == Locked
  {
    if CanClick(seat) then Some(seat) else None
  }

  /** One seat's rendering: `seatColor` as the `let` that each matching test
      overwrites in turn, and whether the seat reacts to hover, tap and click. */
  method RenderSeat(seat: Seat, selectedSeats: seq<int>) returns (style: SeatStyle, interactive: bool)
    ensures style == SelectedStyle <==> IsSelected(seat, selectedSeats)
    ensures style == LockedStyle <==> !IsSelected(seat, selectedSeats) && seat.status == Locked
    ensures style == SoldStyle <==> !IsSelected(seat, selectedSeats) && seat.status == Sold
    ensures style == AvailableStyle <==>
              !IsSelected(seat, selectedSeats) && (seat.status == Available || seat.status == Selected)
    ensures interactive <==> Click(seat).Some?
  {
    var isSelected := IsSelected(seat, selectedSeats);
    var isSold := seat.status == Sold;
    var isLocked := seat.status == Locked;
    style := AvailableStyle;
    if isSold { style := SoldStyle; }
    if isLocked { style := LockedStyle; }
    if isSelected { style := SelectedStyle; }
    interactive := !isSold && !isLocked;
  }
}
