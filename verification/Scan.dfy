/** What the active list of `nsvg__rasterizeSortedEdges` should hold, stated without the list: the edges that
    cross the current sub-scanline, each at the abscissa that its own start and slope determine. */
module Scan {
  import opened Seqs
  import opened Edges
  import opened ActiveEdges

  const FIX := 1024

  /** The height of the `n`-th sub-scanline: its centre. */
  function ScanY(n: nat): real {
    n as real + 0.5
  }

  function Slope(e: Edge): real
    requires e.WellFormed()
  {
    (e.x1 - e.x0) / (e.y1 - e.y0)
  }

  /** Slope in fixed point, rounded towards zero. */
  function FixedSlope(e: Edge): int
    requires e.WellFormed()
  {
    var s := Slope(e);
    if s < 0.0 then -(FIX as real * -s).Floor else (FIX as real * s).Floor
  }

  /** Abscissa at height `y` in fixed point, rounded down. */
  function FixedX(e: Edge, y: real): int
    requires e.WellFormed()
  {
    (FIX as real * (e.x0 + Slope(e) * (y - e.y0))).Floor
  }

  /** The first sub-scanline at or below the upper end of the edge. */
  function FirstScan(e: Edge): nat {
    if e.y0 <= 0.5 then 0 else -(0.5 - e.y0).Floor
  }

  lemma FirstScanIsFirst(e: Edge, n: nat)
    ensures e.y0 <= ScanY(n) <==> FirstScan(e) <= n
  {
  }

  predicate Live(e: Edge, n: nat) {
    e.Crosses(ScanY(n))
  }

  /** The node data of an edge on sub-scanline `n`: where it started, plus one slope per step since. */
  function CellAt(e: Edge, n: nat): Cell
    requires e.WellFormed() && FirstScan(e) <= n
  {
    Cell(FixedX(e, ScanY(FirstScan(e))) + (n - FirstScan(e)) * FixedSlope(e), FixedSlope(e), e.y1, e.dir)
  }

  function OneCell(e: Edge, n: nat): seq<Cell>
    requires e.WellFormed()
  {
    FirstScanIsFirst(e, n);
    if Live(e, n) then [CellAt(e, n)] else []
  }

  /** The cells of those among the first `k` edges that cross sub-scanline `n`. */
  function LiveCells(edges: seq<Edge>, k: nat, n: nat): seq<Cell>
    requires AllWellFormed(edges) && k <= |edges|
  {
    if k == 0 then [] else LiveCells(edges, k - 1, n) + OneCell(edges[k - 1], n)
  }

  /** The first loop on a sub-scanline: edges that end are dropped, the others move by their slope. */
  function AdvanceOne(c: Cell, y: real): seq<Cell> {
    if c.ey <= y then [] else [c.(x := c.x + c.dx)]
  }

  function Advance(cells: seq<Cell>, y: real): seq<Cell> {
    if cells == [] then [] else Advance(cells[..|cells| - 1], y) + AdvanceOne(cells[|cells| - 1], y)
  }

  lemma {:induction false} AdvanceConcat(a: seq<Cell>, b: seq<Cell>, y: real)
    ensures Advance(a + b, y) == Advance(a, y) + Advance(b, y)
    decreases |b|
  {
    hide AdvanceOne;
    if b == [] {
      assert a + b == a;
    } else {
      assert (a + b)[..|a + b| - 1] == a + b[..|b| - 1];
      AdvanceConcat(a, b[..|b| - 1], y);
    }
  }

  lemma AdvanceNone(y: real)
    ensures Advance([], y) == []
  {
  }

  lemma AdvanceSingle(c: Cell, y: real)
    ensures Advance([c], y) == AdvanceOne(c, y)
  {
    assert [c][..0] == [];
  }

  /** Advancing treats every cell on its own, so it does not matter in which order the list is. */
  lemma {:induction false} AdvancePermutation(a: seq<Cell>, b: seq<Cell>, y: real)
    requires multiset(a) == multiset(b)
    ensures multiset(Advance(a, y)) == multiset(Advance(b, y))
    decreases |a|
  {
    hide AdvanceOne;
    PermutationLength(a, b);
    if a != [] {
      var k := MatchLast(a, b);
      AdvancePermutation(a[..|a| - 1], b[..k] + b[k + 1..], y);
      AdvanceRemove(b, k, y);
    }
  }

  lemma AdvanceRemove(b: seq<Cell>, k: nat, y: real)
    requires k < |b|
    ensures multiset(Advance(b, y)) == multiset(Advance(b[..k] + b[k + 1..], y)) + multiset(AdvanceOne(b[k], y))
  {
    hide AdvanceOne, Advance;
    assert b == b[..k] + [b[k]] + b[k + 1..];
    AdvanceConcat(b[..k] + [b[k]], b[k + 1..], y);
    AdvanceConcat(b[..k], [b[k]], y);
    AdvanceConcat(b[..k], b[k + 1..], y);
    AdvanceSingle(b[k], y);
  }

  /** One edge advances from one sub-scanline to the next exactly as its own start and slope say. */
  lemma AdvanceEdge(e: Edge, n: nat)
    requires e.WellFormed() && e.y0 <= ScanY(n)
    ensures Advance(OneCell(e, n), ScanY(n + 1)) == OneCell(e, n + 1)
  {
    FirstScanIsFirst(e, n);
    hide FixedX, FixedSlope, FirstScan;
    if Live(e, n) {
      AdvanceSingle(CellAt(e, n), ScanY(n + 1));
      StepCell(e, n);
    }
  }

  lemma StepCell(e: Edge, n: nat)
    requires e.WellFormed() && FirstScan(e) <= n
    ensures CellAt(e, n + 1) == var c := CellAt(e, n); c.(x := c.x + c.dx)
  {
    hide FixedX, FixedSlope, FirstScan;
    var d := FixedSlope(e);
    assert (n + 1 - FirstScan(e)) * d == (n - FirstScan(e)) * d + d;
  }

  /** Edges that have started by sub-scanline `n`, advanced, are the live ones of the next sub-scanline. */
  lemma {:induction false} AdvanceLive(edges: seq<Edge>, k: nat, n: nat)
    requires AllWellFormed(edges) && k <= |edges|
    requires forall i :: 0 <= i < k ==> edges[i].y0 <= ScanY(n)
    ensures Advance(LiveCells(edges, k, n), ScanY(n + 1)) == LiveCells(edges, k, n + 1)
  {
    hide OneCell, ScanY, Advance;
    if k == 0 {
      AdvanceNone(ScanY(n + 1));
    } else {
      AdvanceLive(edges, k - 1, n);
      AdvanceConcat(LiveCells(edges, k - 1, n), OneCell(edges[k - 1], n), ScanY(n + 1));
      AdvanceEdge(edges[k - 1], n);
    }
  }

  /** Edges that start below the sub-scanline are not live. */
  lemma {:induction false} LiveCellsPrefix(edges: seq<Edge>, k: nat, m: nat, n: nat)
    requires AllWellFormed(edges) && k <= m <= |edges|
    requires forall i :: k <= i < m ==> edges[i].y0 > ScanY(n)
    ensures LiveCells(edges, m, n) == LiveCells(edges, k, n)
    decreases m - k
  {
    hide CellAt;
    if k < m {
      LiveCellsPrefix(edges, k, m - 1, n);
    }
  }

  /** Where the edge really is at height `y`, in fixed-point units. */
  function TrueX(e: Edge, y: real): real
    requires e.WellFormed()
  {
    FIX as real * (e.x0 + Slope(e) * (y - e.y0))
  }

  lemma FixedSlopeTowardsZero(e: Edge)
    requires e.WellFormed()
    ensures var s, f := FIX as real * Slope(e), FixedSlope(e) as real;
            -1.0 < s - f < 1.0 && (s >= 0.0 ==> 0.0 <= f <= s) && (s < 0.0 ==> s <= f <= 0.0)
  {
    hide Slope;
  }

  function Times(k: nat, r: real): real {
    k as real * r
  }

  /** The steps taken after the start add up to the true slope up to less than one unit per step. */
  lemma CellDrift(e: Edge, n: nat)
    requires e.WellFormed() && FirstScan(e) <= n
    ensures var k := (n - FirstScan(e)) as real;
            -k <= TrueX(e, ScanY(n)) - CellAt(e, n).x as real < k + 1.0
  {
    hide FirstScan, Slope, FixedSlope, FixedX, TrueX, Times;
    var first, d := FirstScan(e), FixedSlope(e);
    var k: nat := n - first;
    FixedSlopeTowardsZero(e);
    StepsApart(k, FIX as real * Slope(e), d as real);
    TrueXSteps(e, first, k);
    FixedXFloor(e, ScanY(first));
    CastProduct(k, d);
    assert CellAt(e, n).x as real == FixedX(e, ScanY(first)) as real + (k * d) as real;
  }

  lemma CastProduct(k: nat, d: int)
    ensures (k * d) as real == Times(k, d as real)
  {
  }

  lemma FixedXFloor(e: Edge, y: real)
    requires e.WellFormed()
    ensures FixedX(e, y) as real <= TrueX(e, y) < FixedX(e, y) as real + 1.0
  {
    hide Slope;
  }

  lemma StepsApart(k: nat, s: real, d: real)
    requires -1.0 < s - d < 1.0
    ensures -(k as real) <= Times(k, s) - Times(k, d) <= k as real
  {
    var p := ProductBetween(k as real, s - d);
    assert Times(k, s) - Times(k, d) == p;
  }

  lemma ProductBetween(k: real, d: real) returns (p: real)
    requires k >= 0.0 && -1.0 < d < 1.0
    ensures p == k * d && -k <= p <= k
  {
    p := k * d;
    var q := NonNegative(k, 1.0 - d);
    var r := NonNegative(k, 1.0 + d);
    assert q == k - p && r == k + p;
  }

  lemma NonNegative(a: real, b: real) returns (p: real)
    requires a >= 0.0 && b >= 0.0
    ensures p == a * b && p >= 0.0
  {
    p := a * b;
  }

  lemma TrueXSteps(e: Edge, first: nat, k: nat)
    requires e.WellFormed()
    ensures TrueX(e, ScanY(first + k)) == TrueX(e, ScanY(first)) + Times(k, FIX as real * Slope(e))
  {
    hide Slope;
  }

  ghost predicate Sorted(cells: seq<Cell>) {
    forall i, j :: 0 <= i < j < |cells| ==> cells[i].x <= cells[j].x
  }

  /** How many cells of `s` lie right of `x`. */
  function RightOf(s: seq<Cell>, x: int): nat {
    if s == [] then 0 else RightOf(s[..|s| - 1], x) + (if s[|s| - 1].x > x then 1 else 0)
  }

  /** Number of pairs that are out of order. */
  function Inversions(s: seq<Cell>): nat {
    if s == [] then 0 else Inversions(s[..|s| - 1]) + RightOf(s[..|s| - 1], s[|s| - 1].x)
  }

  lemma {:induction false} RightOfSwapped(s: seq<Cell>, i: nat, x: int)
    requires i + 1 < |s|
    ensures RightOf(Swapped(s, i), x) == RightOf(s, x)
  {
    var t := Swapped(s, i);
    if i + 2 < |s| {
      assert t[..|s| - 1] == Swapped(s[..|s| - 1], i);
      RightOfSwapped(s[..|s| - 1], i, x);
    } else {
      assert t[..|s| - 1][..i] == s[..|s| - 1][..i];
    }
  }

  /** Exchanging two neighbours that are out of order removes exactly one inversion. */
  lemma {:induction false} InversionsSwapped(s: seq<Cell>, i: nat)
    requires i + 1 < |s| && s[i].x > s[i + 1].x
    ensures Inversions(s) == Inversions(Swapped(s, i)) + 1
  {
    var t := Swapped(s, i);
    if i + 2 < |s| {
      assert t[..|s| - 1] == Swapped(s[..|s| - 1], i);
      InversionsSwapped(s[..|s| - 1], i);
      RightOfSwapped(s[..|s| - 1], i, s[|s| - 1].x);
    } else {
      var p := s[..i];
      assert s == p + [s[i]] + [s[i + 1]] && t == p + [s[i + 1]] + [s[i]];
      InversionsPair(p, s[i], s[i + 1]);
    }
  }

  lemma InversionsPair(p: seq<Cell>, a: Cell, b: Cell)
    requires a.x > b.x
    ensures Inversions(p + [a] + [b]) == Inversions(p + [b] + [a]) + 1
  {
    hide Inversions, RightOf;
    InversionsAppend(p, a);
    InversionsAppend(p, b);
    InversionsAppend(p + [a], b);
    InversionsAppend(p + [b], a);
    RightOfAppend(p, a, b.x);
    RightOfAppend(p, b, a.x);
  }

  lemma RightOfAppend(p: seq<Cell>, c: Cell, x: int)
    ensures RightOf(p + [c], x) == RightOf(p, x) + (if c.x > x then 1 else 0)
  {
    assert (p + [c])[..|p|] == p;
  }

  lemma InversionsAppend(p: seq<Cell>, c: Cell)
    ensures Inversions(p + [c]) == Inversions(p) + RightOf(p, c.x)
  {
    assert (p + [c])[..|p|] == p;
  }
}
