/** The client side of the measurer: a leaderboard of at most five entries
    kept in non-increasing order of area, the routing of a dimension record
    to an area, and the bar chart that shows the first entry of each type. */
module Leaderboard {
  import opened Snacks
  import opened SnackDimensions

  /** The two types the client ranks. */
  type ChartKind = t: SnackType | t == Parippuvada || t == Vazhaikkapam witness Parippuvada

  /** One leaderboard entry. */
  datatype SnackData = SnackData(name: string, area: real, kind: ChartKind)

  const BoardSize: nat := 5

  /** The board shown before anything is measured. */
  const InitialLeaderboard: seq<SnackData> := [
    SnackData("Amma's Special Parippuvada", 153.9, Parippuvada),
    SnackData("The Colossal Vazhaikkapam", 125.6, Vazhaikkapam),
    SnackData("Chettan's Crispy Parippuvada", 95.0, Parippuvada),
    SnackData("Standard Tea-Stall Vada", 78.5, Parippuvada),
    SnackData("Afternoon Delight Vazhaikkapam", 65.3, Vazhaikkapam)
  ]

  /** Non-increasing order of area. */
  predicate SortedByArea(s: seq<SnackData>)
  {
    forall i, j :: 0 <= i < j < |s| ==> s[i].area >= s[j].area
  }

  /** Each entry at least as large as the next: the same order, checked pairwise. */
  lemma {:induction false} AdjacentSorted(s: seq<SnackData>)
    requires forall i :: 0 <= i < |s| - 1 ==> s[i].area >= s[i + 1].area
    ensures SortedByArea(s)
  {
    if |s| > 1 {
      var tail := s[1..];
      assert forall i :: 0 <= i < |tail| ==> tail[i] == s[i + 1];
      AdjacentSorted(tail);
      assert forall j :: 0 <= j < |tail| ==> s[0].area >= tail[j].area by {
        forall j | 0 <= j < |tail| ensures s[0].area >= tail[j].area {
          assert tail[0].area >= tail[j].area || j == 0;
        }
      }
      ConsSorted(s[0], tail);
      assert [s[0]] + tail == s;
    }
  }

  /** The initial board is full and sorted. */
  lemma InitialLeaderboardValid()
    ensures SortedByArea(InitialLeaderboard) && |InitialLeaderboard| == BoardSize
  {
    AdjacentSorted(InitialLeaderboard);
  }

  // ----- the sort -----

  /** An entry no smaller than every entry of a sorted board can head it. */
  lemma ConsSorted(h: SnackData, t: seq<SnackData>)
    requires SortedByArea(t)
    requires forall j :: 0 <= j < |t| ==> h.area >= t[j].area
    ensures SortedByArea([h] + t)
  {
    var s := [h] + t;
    forall i, j | 0 <= i < j < |s| ensures s[i].area >= s[j].area {
      assert s[j] == t[j - 1];
      if i > 0 { assert s[i] == t[i - 1]; }
    }
  }

  /** A prefix of a sorted board is sorted. */
  lemma PrefixSorted(s: seq<SnackData>, k: nat)
    requires SortedByArea(s) && k <= |s|
    ensures SortedByArea(s[..k])
  {
    assert forall i :: 0 <= i < k ==> s[..k][i] == s[i];
  }

  /** One step of a stable sort under the comparator `b.area - a.area`:
      `x` goes after every entry whose area is at least its own. */
  function Insert(s: seq<SnackData>, x: SnackData): (r: seq<SnackData>)
    ensures multiset(r) == multiset(s) + multiset{x}
    ensures |r| == |s| + 1
  {
    if s == [] then [x]
    else if s[0].area >= x.area then
      assert s == [s[0]] + s[1..];
      [s[0]] + Insert(s[1..], x)
    else
      [x] + s
  }

  /** Inserting into a sorted board keeps it sorted. */
  lemma {:induction false} InsertSorted(s: seq<SnackData>, x: SnackData)
    requires SortedByArea(s)
    ensures SortedByArea(Insert(s, x))
  {
    if s == [] {
    } else if s[0].area >= x.area {
      var tail := s[1..];
      var rest := Insert(tail, x);
      assert SortedByArea(tail) by {
        assert forall i :: 0 <= i < |tail| ==> tail[i] == s[i + 1];
      }
      InsertSorted(tail, x);
      forall j | 0 <= j < |rest| ensures s[0].area >= rest[j].area {
        assert rest[j] in multiset(rest);
        if rest[j] != x {
          assert rest[j] in multiset(tail);
          var k :| 0 <= k < |tail| && tail[k] == rest[j];
          assert s[k + 1] == rest[j];
        }
      }
      ConsSorted(s[0], rest);
    } else {
      ConsSorted(x, s);
    }
  }

  /** `sort((a, b) => b.area - a.area)`: a stable sort, so entries of equal
      area keep their order. */
  function SortDesc(s: seq<SnackData>): (r: seq<SnackData>)
    ensures multiset(r) == multiset(s)
    ensures |r| == |s|
  {
    if s == [] then []
    else
      var init := s[..|s| - 1];
      assert s == init + [s[|s| - 1]];
      Insert(SortDesc(init), s[|s| - 1])
  }

  /** The sort's output is in non-increasing order of area. */
  lemma {:induction false} SortDescSorted(s: seq<SnackData>)
    ensures SortedByArea(SortDesc(s))
  {
    if s != [] {
      SortDescSorted(s[..|s| - 1]);
      InsertSorted(SortDesc(s[..|s| - 1]), s[|s| - 1]);
    }
  }

  /** Inserting an entry no larger than every entry appends it. */
  lemma {:induction false} InsertAtEnd(s: seq<SnackData>, x: SnackData)
    requires forall i :: 0 <= i < |s| ==> s[i].area >= x.area
    ensures Insert(s, x) == s + [x]
  {
    if s != [] {
      assert forall i :: 0 <= i < |s[1..]| ==> s[1..][i] == s[i + 1];
      InsertAtEnd(s[1..], x);
      assert [s[0]] + (s[1..] + [x]) == s + [x];
    }
  }

  /** Stability: an already sorted board comes out of the sort unchanged. */
  lemma {:induction false} SortDescOfSorted(s: seq<SnackData>)
    requires SortedByArea(s)
    ensures SortDesc(s) == s
  {
    if s != [] {
      var init := s[..|s| - 1];
      PrefixSorted(s, |s| - 1);
      SortDescOfSorted(init);
      InsertAtEnd(init, s[|s| - 1]);
      assert init + [s[|s| - 1]] == s;
    }
  }

  /** An entry larger than the `n`-th one is inserted within the first `n`. */
  lemma {:induction false} InsertWithin(s: seq<SnackData>, x: SnackData, n: nat)
    requires 0 < n <= |s| && x.area > s[n - 1].area
    ensures x in Insert(s, x)[..n]
  {
    if s[0].area >= x.area {
      assert n > 1;
      InsertWithin(s[1..], x, n - 1);
      assert Insert(s, x)[..n] == [s[0]] + Insert(s[1..], x)[..n - 1];
    } else {
      assert Insert(s, x)[0] == x;
    }
  }

  // ----- updateLeaderboard -----

  /** The length the update keeps: `min(5, n + 1)`. */
  function KeptLength(board: seq<SnackData>): nat
  {
    if |board| + 1 < BoardSize then |board| + 1 else BoardSize
  }

  /** The entries of a sorted board cut at `k`: none left out is larger
      than any kept. */
  lemma CutKeepsLargest(sorted: seq<SnackData>, k: nat)
    requires SortedByArea(sorted) && k <= |sorted|
    ensures forall y, z :: y in multiset(sorted) - multiset(sorted[..k]) && z in sorted[..k] ==> y.area <= z.area
  {
    var r := sorted[..k];
    assert sorted == r + sorted[k..];
    assert multiset(sorted) - multiset(r) == multiset(sorted[k..]);
    forall y, z | y in multiset(sorted) - multiset(r) && z in r ensures y.area <= z.area {
      assert y in sorted[k..];
      var j :| 0 <= j < |sorted[k..]| && sorted[k..][j] == y;
      var i :| 0 <= i < |r| && r[i] == z;
      assert sorted[i] == z && sorted[k + j] == y;
    }
  }

  /** `[...leaderboard, newSnack].sort(...).slice(0, 5)`. */
  function UpdatedLeaderboard(board: seq<SnackData>, x: SnackData): (r: seq<SnackData>)
    ensures |r| <= BoardSize && |r| == KeptLength(board)
    ensures SortedByArea(r)
    ensures multiset(r) <= multiset(board + [x])
    ensures forall y :: y in r ==> y in board || y == x
    ensures forall y, z :: y in multiset(board + [x]) - multiset(r) && z in r ==> y.area <= z.area
    ensures |board| < BoardSize ==> x in r
  {
    var sorted := SortDesc(board + [x]);
    var k := KeptLength(board);
    SortDescSorted(board + [x]);
    PrefixSorted(sorted, k);
    CutKeepsLargest(sorted, k);
    var r := sorted[..k];
    assert sorted == r + sorted[k..];
    assert forall y :: y in r ==> y in board || y == x by {
      forall y | y in r ensures y in board || y == x {
        assert y in multiset(sorted);
        assert y in board + [x];
      }
    }
    assert |board| < BoardSize ==> x in r by {
      if |board| < BoardSize {
        assert r == sorted;
        assert x in multiset(sorted);
      }
    }
    r
  }

  /** On a sorted board the update is a bounded insertion: the new entry
      goes after every entry at least as large, and the tail is cut. */
  lemma UpdateIsBoundedInsert(board: seq<SnackData>, x: SnackData)
    requires SortedByArea(board)
    ensures UpdatedLeaderboard(board, x) == Insert(board, x)[..KeptLength(board)]
  {
    SortDescOfSorted(board);
    assert (board + [x])[..|board + [x]| - 1] == board;
  }

  /** A full board whose last entry is at least as large as the new one is
      left exactly as it was: a tie with fifth place does not enter. */
  lemma {:induction false} NoEntryBelowFifth(board: seq<SnackData>, x: SnackData)
    requires SortedByArea(board) && |board| == BoardSize
    requires board[BoardSize - 1].area >= x.area
    ensures UpdatedLeaderboard(board, x) == board
  {
    UpdateIsBoundedInsert(board, x);
    InsertAtEnd(board, x);
    assert (board + [x])[..BoardSize] == board;
  }

  /** An entry strictly larger than the smallest entry of a full board gets
      onto the board. */
  lemma LargerEntryEnters(board: seq<SnackData>, x: SnackData)
    requires SortedByArea(board) && |board| == BoardSize
    requires x.area > board[BoardSize - 1].area
    ensures x in UpdatedLeaderboard(board, x)
  {
    UpdateIsBoundedInsert(board, x);
    InsertWithin(board, x, BoardSize);
  }

  /** The board stays sorted and within bounds whatever is added. */
  lemma UpdatePreservesInvariant(board: seq<SnackData>, x: SnackData)
    requires SortedByArea(board) && |board| <= BoardSize
    ensures SortedByArea(UpdatedLeaderboard(board, x)) && |UpdatedLeaderboard(board, x)| <= BoardSize
  {
  }

  // ----- the chart -----

  /** `find(s => s.type === k)`: the first entry of type `k`. */
  function FirstOfKind(board: seq<SnackData>, k: ChartKind): (r: Option<SnackData>)
    ensures r.None? <==> forall i :: 0 <= i < |board| ==> board[i].kind != k
    ensures r.Some? ==> exists i :: 0 <= i < |board| && board[i] == r.value && r.value.kind == k &&
                                    forall j :: 0 <= j < i ==> board[j].kind != k
  {
    if board == [] then None
    else if board[0].kind == k then Some(board[0])
    else
      var r := FirstOfKind(board[1..], k);
      assert forall i :: 0 < i < |board| ==> board[i] == board[1..][i - 1];
      assert r.Some? ==> exists i :: 0 <= i < |board| && board[i] == r.value && r.value.kind == k &&
                                     forall j :: 0 <= j < i ==> board[j].kind != k by {
        if r.Some? {
          var i :| 0 <= i < |board[1..]| && board[1..][i] == r.value && r.value.kind == k &&
                   forall j :: 0 <= j < i ==> board[1..][j].kind != k;
          assert board[i + 1] == r.value;
          assert forall j :: 0 <= j < i + 1 ==> board[j].kind != k by {
            forall j | 0 <= j < i + 1 ensures board[j].kind != k {
              if j > 0 { assert board[j] == board[1..][j - 1]; }
            }
          }
        }
      }
      r
  }

  /** On a sorted board the first entry of a type is that type's largest. */
  lemma {:induction false} FirstOfSortedIsLargest(board: seq<SnackData>, k: ChartKind)
    requires SortedByArea(board)
    requires FirstOfKind(board, k).Some?
    ensures forall y :: y in board && y.kind == k ==> y.area <= FirstOfKind(board, k).value.area
  {
    var f := FirstOfKind(board, k).value;
    var i :| 0 <= i < |board| && board[i] == f && f.kind == k && forall j :: 0 <= j < i ==> board[j].kind != k;
    forall y | y in board && y.kind == k ensures y.area <= f.area {
      var j :| 0 <= j < |board| && board[j] == y;
      assert i <= j;
    }
  }

  /** One bar of the chart. */
  datatype ChartBar = ChartBar(snack: string, area: real, fill: string)

  function BarLabel(k: ChartKind): string
  {
    if k == Parippuvada then "Parippuvada" else "Vazhaikkapam"
  }

  function BarFill(k: ChartKind): string
  {
    if k == Parippuvada then "var(--color-parippuvada)" else "var(--color-vazhaikkapam)"
  }

  /** The bar of type `k` in `bars`, if any. */
  function BarOf(bars: seq<ChartBar>, k: ChartKind): Option<ChartBar>
  {
    if bars == [] then None
    else if bars[0].snack == BarLabel(k) then Some(bars[0])
    else BarOf(bars[1..], k)
  }

  /** The chart derived from the board: at most one bar per type,
      parippuvada first; a type has a bar exactly when the board holds an
      entry of it, and the bar shows that type's first entry. */
  function ChartFor(board: seq<SnackData>): (bars: seq<ChartBar>)
    ensures |bars| <= 2
    ensures forall i :: 0 <= i < |bars| ==> bars[i].snack == BarLabel(Parippuvada) || bars[i].snack == BarLabel(Vazhaikkapam)
    ensures |bars| == 2 ==> bars[0].snack == BarLabel(Parippuvada) && bars[1].snack == BarLabel(Vazhaikkapam)
    ensures forall k: ChartKind :: BarOf(bars, k).Some? <==> FirstOfKind(board, k).Some?
    ensures forall k: ChartKind :: BarOf(bars, k).Some? ==>
      BarOf(bars, k).value == ChartBar(BarLabel(k), FirstOfKind(board, k).value.area, BarFill(k))
  {
    var p := FirstOfKind(board, Parippuvada);
    var v := FirstOfKind(board, Vazhaikkapam);
    (if p.Some? then [ChartBar(BarLabel(Parippuvada), p.value.area, BarFill(Parippuvada))] else []) +
    (if v.Some? then [ChartBar(BarLabel(Vazhaikkapam), v.value.area, BarFill(Vazhaikkapam))] else [])
  }

  /** On a sorted board every bar shows the largest area of its type. */
  lemma ChartShowsLargest(board: seq<SnackData>, k: ChartKind)
    requires SortedByArea(board)
    requires BarOf(ChartFor(board), k).Some?
    ensures exists y :: y in board && y.kind == k && y.area == BarOf(ChartFor(board), k).value.area
    ensures forall y :: y in board && y.kind == k ==> y.area <= BarOf(ChartFor(board), k).value.area
  {
    FirstOfSortedIsLargest(board, k);
    var f := FirstOfKind(board, k).value;
    assert f in board;
  }

  // ----- the dimension record on the client -----

  /** What the result card shows. */
  datatype SnackResult = SnackResult(kind: ChartKind, area: real, diameter: Option<real>, length: Option<real>, width: Option<real>)

  /** The result `handleDimensionsUpdate` derives from a dimension record. */
  function DimensionsResult(d: SnackDimensionsOutput): (r: Option<SnackResult>)
    ensures r.Some? <==>
      (d.snackType == Parippuvada && Positive(d.diameter)) ||
      (d.snackType == Vazhaikkapam && Positive(d.length) && Positive(d.width))
    ensures r.Some? ==> r.value.kind == d.snackType && r.value.area > 0.0
    ensures r.Some? && r.value.kind == Parippuvada ==>
      r.value.area == CircleArea(d.diameter.value) && r.value.diameter == d.diameter
    ensures r.Some? && r.value.kind == Vazhaikkapam ==>
      r.value.area == EllipseArea(d.length.value, d.width.value) && r.value.length == d.length && r.value.width == d.width
  {
    if d.snackType == Parippuvada && Positive(d.diameter) then
      Some(SnackResult(Parippuvada, CircleArea(d.diameter.value), d.diameter, None, None))
    else if d.snackType == Vazhaikkapam && Positive(d.length) && Positive(d.width) then
      Some(SnackResult(Vazhaikkapam, EllipseArea(d.length.value, d.width.value), None, d.length, d.width))
    else None
  }

  /** The name a measured snack gets on the board. */
  function EntryName(k: ChartKind): string
  {
    "Your " + TypeName(k)
  }

  /** The state of the analyzer component. */
  class SnackAnalyzer {
    var leaderboard: seq<SnackData>
    var snackResult: Option<SnackResult>
    var chartData: seq<ChartBar>

    /** The board is sorted and bounded, the chart follows the board, and
        any shown result has a positive area. */
    ghost predicate Valid()
      reads this
    {
      && SortedByArea(leaderboard) && |leaderboard| <= BoardSize
      && chartData == ChartFor(leaderboard)
      && (snackResult.Some? ==> snackResult.value.area > 0.0)
    }

    /** The initial state, after the chart effect has run once on mount. */
    constructor ()
      ensures Valid()
      ensures leaderboard == InitialLeaderboard && snackResult.None?
    {
      InitialLeaderboardValid();
      leaderboard := InitialLeaderboard;
      snackResult := None;
      chartData := [];
      new;
      RefreshChart();
    }

    /** The effect on `leaderboard`: the chart bars are rebuilt by pushes. */
    method RefreshChart()
      modifies this
      ensures chartData == ChartFor(leaderboard)
      ensures leaderboard == old(leaderboard) && snackResult == old(snackResult)
    {
      var latestParippuvada := FirstOfKind(leaderboard, Parippuvada);
      var latestVazhaikkapam := FirstOfKind(leaderboard, Vazhaikkapam);
      var data: seq<ChartBar> := [];
      if latestParippuvada.Some? {
        data := data + [ChartBar("Parippuvada", latestParippuvada.value.area, "var(--color-parippuvada)")];
      }
      if latestVazhaikkapam.Some? {
        data := data + [ChartBar("Vazhaikkapam", latestVazhaikkapam.value.area, "var(--color-vazhaikkapam)")];
      }
      chartData := data;
    }

    /** `updateLeaderboard`, followed by the chart effect it triggers. */
    method UpdateLeaderboard(snackName: string, area: real, kind: ChartKind)
      requires Valid()
      modifies this
      ensures Valid()
      ensures leaderboard == UpdatedLeaderboard(old(leaderboard), SnackData(snackName, area, kind))
      ensures snackResult == old(snackResult)
    {
      var newSnack := SnackData(snackName, area, kind);
      leaderboard := UpdatedLeaderboard(leaderboard, newSnack);
      RefreshChart();
    }

    /** `handleAreaCheck`: a non-positive area changes nothing; otherwise
        the snack enters the board as "Your <type>". */
    method HandleAreaCheck(area: real, kind: ChartKind)
      requires Valid()
      modifies this
      ensures Valid()
      ensures area <= 0.0 ==> leaderboard == old(leaderboard) && chartData == old(chartData)
      ensures area > 0.0 ==> leaderboard == UpdatedLeaderboard(old(leaderboard), SnackData(EntryName(kind), area, kind))
      ensures snackResult == old(snackResult)
    {
      if area <= 0.0 {
        return;
      }
      UpdateLeaderboard("Your " + TypeName(kind), area, kind);
    }

    /** `handleDimensionsUpdate`: the result card is set from the record,
        and a parippuvada or vazhaikkapam with positive dimensions enters
        the board; everything else leaves the board alone. */
    method HandleDimensionsUpdate(dimensions: SnackDimensionsOutput)
      requires Valid()
      modifies this
      ensures Valid()
      ensures snackResult == DimensionsResult(dimensions)
      ensures snackResult.None? ==> leaderboard == old(leaderboard)
      ensures snackResult.Some? ==>
        leaderboard == UpdatedLeaderboard(old(leaderboard), SnackData(EntryName(snackResult.value.kind), snackResult.value.area, snackResult.value.kind))
    {
      var area: real := 0.0;
      var snackType: Option<ChartKind> := None;
      var result: Option<SnackResult> := None;
      if dimensions.snackType == Parippuvada && Positive(dimensions.diameter) {
        area := PI * (dimensions.diameter.value / 2.0) * (dimensions.diameter.value / 2.0);
        snackType := Some(Parippuvada);
        result := Some(SnackResult(Parippuvada, area, dimensions.diameter, None, None));
      } else if dimensions.snackType == Vazhaikkapam && Positive(dimensions.length) && Positive(dimensions.width) {
        area := PI * (dimensions.length.value / 2.0) * (dimensions.width.value / 2.0);
        snackType := Some(Vazhaikkapam);
        result := Some(SnackResult(Vazhaikkapam, area, None, dimensions.length, dimensions.width));
      }
      assert result == DimensionsResult(dimensions);
      snackResult := result;
      if snackType.Some? && area > 0.0 {
        HandleAreaCheck(area, snackType.value);
      }
    }
  }
}
