/** `nsvg__rasterizeSortedEdges`: five sub-scanlines of coverage to a pixel row, then one blit per row. */
module Raster {
  import opened Seqs
  import opened Images
  import opened Edges
  import opened ActiveEdges
  import opened Scan
  import opened Coverage
  import opened Blend
  import opened Sweep

  /** Weight of one sub-scanline: `255 / NSVG__SUBSAMPLES`. */
  const WEIGHT := 51

  /** What a list of active edges at sub-scanline `n` has to be. */
  ghost predicate ListOk(edges: seq<Edge>, n: nat, cells: seq<Cell>)
    requires AllWellFormed(edges)
  {
    Sorted(cells) && multiset(cells) == multiset(LiveCells(edges, |edges|, n))
  }

  lemma {:induction false} LiveDirected(edges: seq<Edge>, k: nat, n: nat)
    requires AllWellFormed(edges) && k <= |edges|
    ensures Directed(LiveCells(edges, k, n))
    ensures DirectionSum(LiveCells(edges, k, n)) == Winding(edges[..k], ScanY(n))
    ensures |LiveCells(edges, k, n)| == Crossings(edges[..k], ScanY(n))
  {
    hide CellAt, FirstScan, ScanY, OneCell, Winding, Crossings, Directed, DirectionSum;
    if k == 0 {
      NoneDirected(ScanY(n));
      assert edges[..0] == [];
    } else {
      var e := edges[k - 1];
      LiveDirected(edges, k - 1, n);
      OneMoreWinding(edges, k, ScanY(n));
      OneCellCounts(e, n);
      DirectionSumConcat(LiveCells(edges, k - 1, n), OneCell(e, n));
      DirectedConcat(LiveCells(edges, k - 1, n), OneCell(e, n));
    }
  }

  lemma NoneDirected(s: real)
    ensures Directed([]) && DirectionSum([]) == 0 && Winding([], s) == 0 && Crossings([], s) == 0
  {
  }

  lemma OneMoreWinding(edges: seq<Edge>, k: nat, s: real)
    requires 0 < k <= |edges|
    ensures var e := edges[k - 1];
            && Winding(edges[..k], s) == Winding(edges[..k - 1], s) + (if e.Crosses(s) then e.dir else 0)
            && Crossings(edges[..k], s) == Crossings(edges[..k - 1], s) + (if e.Crosses(s) then 1 else 0)
  {
    assert edges[..k][..k - 1] == edges[..k - 1];
  }

  lemma DirectedConcat(a: seq<Cell>, b: seq<Cell>)
    requires Directed(a) && Directed(b)
    ensures Directed(a + b)
  {
  }

  lemma OneCellCounts(e: Edge, n: nat)
    requires e.WellFormed()
    ensures Directed(OneCell(e, n))
    ensures DirectionSum(OneCell(e, n)) == (if e.Crosses(ScanY(n)) then e.dir else 0)
    ensures |OneCell(e, n)| == (if e.Crosses(ScanY(n)) then 1 else 0)
  {
    hide FirstScan, FixedX, FixedSlope;
    if Live(e, n) {
      assert FirstScan(e) <= n by {
        FirstScanIsFirst(e, n);
      }
      var c := CellAt(e, n);
      assert [c][..0] == [];
    }
  }

  lemma {:induction false} DirectionSumConcat(a: seq<Cell>, b: seq<Cell>)
    ensures DirectionSum(a + b) == DirectionSum(a) + DirectionSum(b)
    decreases |b|
  {
    if b == [] {
      assert a + b == a;
    } else {
      assert (a + b)[..|a + b| - 1] == a + b[..|b| - 1];
      DirectionSumConcat(a, b[..|b| - 1]);
    }
  }

  lemma {:induction false} DirectionSumPermutation(a: seq<Cell>, b: seq<Cell>)
    requires multiset(a) == multiset(b)
    ensures DirectionSum(a) == DirectionSum(b) && |a| == |b|
    decreases |a|
  {
    PermutationLength(a, b);
    if a != [] {
      var k := MatchLast(a, b);
      var front, rest := b[..k], b[k + 1..];
      DirectionSumPermutation(a[..|a| - 1], front + rest);
      assert b == front + [b[k]] + rest;
      DirectionSumConcat(front + [b[k]], rest);
      DirectionSumConcat(front, [b[k]]);
      DirectionSumConcat(front, rest);
      assert [b[k]][..0] == [];
    }
  }

  lemma DirectedPermutation(a: seq<Cell>, b: seq<Cell>)
    requires multiset(a) == multiset(b) && Directed(a)
    ensures Directed(b)
  {
    forall i | 0 <= i < |b| ensures b[i].dir == 1 || b[i].dir == -1 {
      assert b[i] in multiset(b);
      assert b[i] in multiset(a);
    }
  }

  /** An active list that is right has proper directions; if the contours are closed it is balanced too. */
  lemma ListDirected(edges: seq<Edge>, n: nat, cells: seq<Cell>)
    requires AllWellFormed(edges) && ListOk(edges, n, cells)
    ensures Directed(cells)
    ensures Balanced(edges) ==> DirectionSum(cells) == 0 && |cells| % 2 == 0
  {
    hide Directed, Sorted;
    LiveDirected(edges, |edges|, n);
    assert edges[..|edges|] == edges;
    DirectionSumPermutation(LiveCells(edges, |edges|, n), cells);
    DirectedPermutation(LiveCells(edges, |edges|, n), cells);
  }

  /** Coverage of pixel `k` after the first `t` lists of a row. */
  function RowSum(row: seq<seq<Cell>>, t: nat, rule: FillRule, k: int): nat
    requires t <= |row|
  {
    if t == 0 then 0 else RowSum(row, t - 1, rule, k) + TotalGain(Spans(rule, row[t - 1]), WEIGHT, k)
  }

  ghost predicate RowOk(edges: seq<Edge>, base: nat, row: seq<seq<Cell>>)
    requires AllWellFormed(edges)
  {
    forall s :: 0 <= s < |row| ==> ListOk(edges, base + s, row[s])
  }

  /** Five sub-scanlines never bring a pixel above 255. */
  lemma {:induction false} RowSumAtMost(edges: seq<Edge>, base: nat, row: seq<seq<Cell>>, t: nat, rule: FillRule,
                                        k: int)
    requires AllWellFormed(edges) && RowOk(edges, base, row) && t <= |row|
    ensures RowSum(row, t, rule, k) <= WEIGHT * t
  {
    hide ListOk, TotalGain, Spans;
    if t > 0 {
      RowSumAtMost(edges, base, row, t - 1, rule, k);
      ListGainAtMost(edges, base + t - 1, row[t - 1], rule, k);
    }
  }

  lemma ListGainAtMost(edges: seq<Edge>, n: nat, cells: seq<Cell>, rule: FillRule, k: int)
    requires AllWellFormed(edges) && ListOk(edges, n, cells)
    ensures TotalGain(Spans(rule, cells), WEIGHT, k) <= WEIGHT
  {
    hide Spans, TotalGain, Directed;
    ListDirected(edges, n, cells);
    var limit := if cells == [] then 0 else cells[|cells| - 1].x;
    SpansOrdered(rule, cells, limit);
    TotalGainAtMost(Spans(rule, cells), limit, WEIGHT, k);
  }

  lemma {:induction false} RowSumPrefix(row: seq<seq<Cell>>, more: seq<seq<Cell>>, t: nat, rule: FillRule, k: int)
    requires t <= |row|
    ensures RowSum(row + more, t, rule, k) == RowSum(row, t, rule, k)
  {
    hide TotalGain, Spans;
    if t > 0 {
      RowSumPrefix(row, more, t - 1, rule, k);
    }
  }

  /** The scanline holds the coverage of the lists so far. */
  ghost predicate Covers(line: seq<byte>, w: nat, row: seq<seq<Cell>>, rule: FillRule)
    requires w <= |line|
  {
    forall k :: 0 <= k < w ==> line[k] == RowSum(row, |row|, rule, k)
  }

  ghost predicate RowWithin(row: seq<seq<Cell>>, rule: FillRule, lo: int, hi: int) {
    forall s :: 0 <= s < |row| ==> SpansWithin(Spans(rule, row[s]), lo, hi)
  }

  lemma {:induction false} RowSumOutside(row: seq<seq<Cell>>, t: nat, rule: FillRule, lo: int, hi: int, k: int)
    requires t <= |row| && RowWithin(row, rule, lo, hi) && (k < lo || hi < k)
    ensures RowSum(row, t, rule, k) == 0
  {
    hide TotalGain, Spans, SpansWithin;
    if t > 0 {
      RowSumOutside(row, t - 1, rule, lo, hi, k);
      TotalGainOutside(Spans(rule, row[t - 1]), WEIGHT, k, lo, hi);
    }
  }

  /** Adding one more list to the row neither wraps a byte nor loses coverage. */
  lemma CoversOneMore(was: seq<byte>, now: seq<byte>, w: nat, edges: seq<Edge>, base: nat, row: seq<seq<Cell>>,
                      cells: seq<Cell>, rule: FillRule)
    requires w <= |was| == |now| && |row| < SUBSAMPLES && AllWellFormed(edges)
    requires Covers(was, w, row, rule) && RowOk(edges, base, row) && ListOk(edges, base + |row|, cells)
    requires Accumulated(was, now, w, Spans(rule, cells), WEIGHT)
    ensures RowOk(edges, base, row + [cells]) && Covers(now, w, row + [cells], rule)
  {
    hide ListOk, TotalGain, Spans, RowSum;
    var row' := row + [cells];
    assert RowOk(edges, base, row');
    forall k | 0 <= k < w ensures now[k] == RowSum(row', |row'|, rule, k) {
      RowSumPrefix(row, [cells], |row|, rule, k);
      RowSumAtMost(edges, base, row', |row'|, rule, k);
      RowSumStep(row', |row|, rule, k);
    }
  }

  lemma RowSumStep(row: seq<seq<Cell>>, t: nat, rule: FillRule, k: int)
    requires t < |row|
    ensures RowSum(row, t + 1, rule, k) == RowSum(row, t, rule, k) + TotalGain(Spans(rule, row[t]), WEIGHT, k)
  {
    hide TotalGain, Spans;
  }

  /** Row `y` after its blit: every pixel has the colour of its place laid over it with the given coverage,
      and nothing outside the row's pixels has changed. */
  ghost predicate Blitted(was: seq<byte>, now: seq<byte>, w: nat, h: nat, stride: nat, y: nat,
                          row: seq<seq<Cell>>, rule: FillRule, view: View, paint: Paint)
    requires |was| == |now| && Fits(|was|, w, h, stride) && y < h && view.Valid()
  {
    && (forall x: nat :: x < w ==>
          Px(now, w, h, stride, y, x)
          == Over(DeviceColor(paint, view, x, y), TruncByte(RowSum(row, |row|, rule, x)), Px(was, w, h, stride, y, x)))
    && (forall k :: 0 <= k < |was| && !(y * stride <= k < y * stride + 4 * w) ==> now[k] == was[k])
  }

  /** `NSVGrasterizer`, as far as filling edges goes. */
  class Rasterizer {
    const sweep: SweepState
    var scanline: array<byte>
    var bitmap: array<byte>
    var width: nat
    var height: nat
    var stride: nat

    ghost predicate Valid()
      reads this, sweep, sweep.pool, sweep.pool.space, sweep.active, sweep.freelist, sweep.own`next
    {
      && sweep.Valid() && width <= scanline.Length && scanline != bitmap
      && Fits(bitmap.Length, width, height, stride)
    }

    constructor (scanline: array<byte>, bitmap: array<byte>, width: nat, height: nat, stride: nat)
      requires width <= scanline.Length && scanline != bitmap && Fits(bitmap.Length, width, height, stride)
      ensures Valid() && this.bitmap == bitmap && this.scanline == scanline
      ensures this.width == width && this.height == height && this.stride == stride
      ensures fresh(sweep) && fresh(sweep.pool) && fresh(sweep.active) && fresh(sweep.freelist)
      ensures sweep.own == {} && sweep.pool.space == {}
    {
      sweep := new SweepState();
      this.scanline, this.bitmap := scanline, bitmap;
      this.width, this.height, this.stride := width, height, stride;
    }

    /** `memset(r->scanline, 0, r->width)`. */
    method ClearScanline()
      requires width <= scanline.Length
      modifies scanline
      ensures forall k :: 0 <= k < width ==> scanline[k] == 0
    {
      for k := 0 to width
        invariant forall j :: 0 <= j < k ==> scanline[j] == 0
      {
        scanline[k] := 0;
      }
    }

    /** The loop over the five sub-scanlines of row `y`: the scanline ends up with the exact coverage. */
    method CoverRow(edges: seq<Edge>, e0: nat, y: nat, rule: FillRule)
      returns (e: nat, xmin: int, xmax: int, ghost row: seq<seq<Cell>>)
      requires Valid() && AllWellFormed(edges) && SortedByY0(edges) && sweep.Ready(edges, e0, SUBSAMPLES * y)
      modifies scanline, sweep`made, sweep`own, sweep.pool, sweep.pool.space, sweep.active, sweep.freelist, sweep.own
      ensures Valid() && sweep.OnlyNew(old(sweep.own), old(sweep.pool.space))
      ensures sweep.Ready(edges, e, SUBSAMPLES * (y + 1))
      ensures |row| == SUBSAMPLES && RowDone(edges, SUBSAMPLES * y, row, rule, xmin, xmax, scanline[..], width)
    {
      hide RowDone, AllWellFormed, SortedByY0, SweepState.Ready, SweepState.Memory, SweepState.Lists, Fits;
      ClearScanline();
      e, xmin, xmax, row := e0, width, 0, [];
      RowStarts(edges, SUBSAMPLES * y, scanline[..], width, rule, xmin, xmax);
      var s := 0;
      while s < SUBSAMPLES
        invariant 0 <= s == |row| <= SUBSAMPLES
        invariant Valid() && sweep.OnlyNew(old(sweep.own), old(sweep.pool.space))
        invariant sweep.Ready(edges, e, SUBSAMPLES * y + s)
        invariant RowDone(edges, SUBSAMPLES * y, row, rule, xmin, xmax, scanline[..], width)
      {
        e, xmin, xmax, row := CoverOnce(edges, e, SUBSAMPLES * y + s, SUBSAMPLES * y, xmin, xmax, rule, row);
        s := s + 1;
      }
    }

    /** The body of the loop: the active list is brought to sub-scanline `n` and its spans are filled. */
    method CoverOnce(edges: seq<Edge>, e0: nat, n: nat, ghost base: nat, xmin: int, xmax: int, rule: FillRule,
                     ghost row: seq<seq<Cell>>)
      returns (e: nat, xmin': int, xmax': int, ghost row': seq<seq<Cell>>)
      requires Valid() && AllWellFormed(edges) && SortedByY0(edges) && sweep.Ready(edges, e0, n)
      requires |row| < SUBSAMPLES && n == base + |row|
      requires RowDone(edges, base, row, rule, xmin, xmax, scanline[..], width)
      modifies scanline, sweep`made, sweep`own, sweep.pool, sweep.pool.space, sweep.active, sweep.freelist, sweep.own
      ensures Valid() && sweep.OnlyNew(old(sweep.own), old(sweep.pool.space))
      ensures sweep.Ready(edges, e, n + 1) && |row'| == |row| + 1
      ensures RowDone(edges, base, row', rule, xmin', xmax', scanline[..], width)
    {
      hide RowDone, AllWellFormed, SortedByY0, SweepState.Ready, SweepState.Memory, SweepState.Lists, Fits, Sorted,
        Cells,
        LiveCells, EdgeList.Valid;
      e := sweep.SubScanline(edges, e0, n);
      assert ListOk(edges, n, Cells(sweep.active.nodes));
      sweep.ListsValid([]);
      xmin', xmax', row' := FillRow(edges, base, xmin, xmax, rule, row);
    }

    /** Fills the spans of the active list, if there are any. */
    method FillRow(ghost edges: seq<Edge>, ghost base: nat, xmin: int, xmax: int, rule: FillRule,
                   ghost row: seq<seq<Cell>>)
      returns (xmin': int, xmax': int, ghost row': seq<seq<Cell>>)
      requires width <= scanline.Length && sweep.active.Valid() && AllWellFormed(edges) && |row| < SUBSAMPLES
      requires RowDone(edges, base, row, rule, xmin, xmax, scanline[..], width)
      requires ListOk(edges, base + |row|, Cells(sweep.active.nodes))
      modifies scanline
      ensures |row'| == |row| + 1 && row' == row + [Cells(sweep.active.nodes)]
      ensures RowDone(edges, base, row', rule, xmin', xmax', scanline[..], width)
    {
      hide RowDone, ListOk, Spans, Accumulated, SpansWithin, Distinct, Linked, Sorted, Directed;
      ghost var was, cells := scanline[..], Cells(sweep.active.nodes);
      xmin', xmax' := FillList(edges, base + |row|, xmin, xmax, rule);
      row' := row + [cells];
      RowGrows(was, scanline[..], width, edges, base, row, cells, rule, xmin, xmax, xmin', xmax');
    }

    method FillList(ghost edges: seq<Edge>, ghost n: nat, xmin: int, xmax: int, rule: FillRule)
      returns (xmin': int, xmax': int)
      requires width <= scanline.Length && sweep.active.Valid() && AllWellFormed(edges)
      requires ListOk(edges, n, Cells(sweep.active.nodes))
      modifies scanline
      ensures xmin' <= xmin && xmax <= xmax' && SpansWithin(Spans(rule, Cells(sweep.active.nodes)), xmin', xmax')
      ensures Accumulated(old(scanline[..]), scanline[..], width, Spans(rule, Cells(sweep.active.nodes)), WEIGHT)
    {
      hide ListOk, Sorted, Directed, Spans, Accumulated, SpansWithin, Distinct;
      ghost var cells := Cells(sweep.active.nodes);
      ListDirected(edges, n, cells);
      ListSorted(edges, n, cells);
      xmin', xmax' := xmin, xmax;
      if sweep.active.head != null {
        xmin', xmax' := FillActiveEdges(scanline, width, sweep.active, WEIGHT, xmin, xmax, rule);
      } else {
        sweep.active.LinkAt(0);
        NothingToFill(scanline[..], width, cells, rule, xmin, xmax);
      }
    }

    /** `nsvg__rasterizeSortedEdges`: every pixel has the colour of its place laid over it, covered by the spans
        of the five sub-scanlines of its row. */
    method RasterizeSortedEdges(edges: seq<Edge>, view: View, paint: Paint, rule: FillRule)
      returns (ghost rows: seq<seq<seq<Cell>>>)
      requires Valid() && AllWellFormed(edges) && SortedByY0(edges) && view.Valid() && sweep.active.nodes == []
      modifies scanline, bitmap
      modifies sweep`made, sweep`own, sweep.pool, sweep.pool.space, sweep.active, sweep.freelist, sweep.own
      ensures Valid() && sweep.OnlyNew(old(sweep.own), old(sweep.pool.space)) && |rows| == height
      ensures Drawn(old(bitmap[..]), bitmap[..], width, height, stride, edges, rows, rule, view, paint)
    {
      hide Drawn, AllWellFormed, SortedByY0, SweepState.Ready, SweepState.Memory, SweepState.Lists, Fits,
        EdgeList.Valid;
      ghost var was := bitmap[..];
      rows := [];
      sweep.StartReady(edges);
      NothingDrawn(was, width, height, stride, edges, rule, view, paint);
      var e, y := 0, 0;
      while y < height
        invariant 0 <= y == |rows| <= height
        invariant Valid() && sweep.OnlyNew(old(sweep.own), old(sweep.pool.space))
        invariant sweep.Ready(edges, e, SUBSAMPLES * y)
        invariant Drawn(was, bitmap[..], width, height, stride, edges, rows, rule, view, paint)
      {
        e, rows := DrawRow(edges, e, y, view, paint, rule, was, rows);
        y := y + 1;
      }
    }

    /** The body of the loop over the rows. */
    method DrawRow(edges: seq<Edge>, e0: nat, y: nat, view: View, paint: Paint, rule: FillRule,
                   ghost was: seq<byte>, ghost rows: seq<seq<seq<Cell>>>)
      returns (e: nat, ghost rows': seq<seq<seq<Cell>>>)
      requires Valid() && AllWellFormed(edges) && SortedByY0(edges) && view.Valid()
      requires sweep.Ready(edges, e0, SUBSAMPLES * y) && y == |rows| < height && |was| == bitmap.Length
      requires Drawn(was, bitmap[..], width, height, stride, edges, rows, rule, view, paint)
      modifies scanline, bitmap
      modifies sweep`made, sweep`own, sweep.pool, sweep.pool.space, sweep.active, sweep.freelist, sweep.own
      ensures Valid() && sweep.OnlyNew(old(sweep.own), old(sweep.pool.space))
      ensures sweep.Ready(edges, e, SUBSAMPLES * (y + 1)) && |rows'| == |rows| + 1
      ensures Drawn(was, bitmap[..], width, height, stride, edges, rows', rule, view, paint)
    {
      hide Drawn, Blitted, RowDone, AllWellFormed, SortedByY0, SweepState.Ready, SweepState.Memory, SweepState.Lists,
        Fits, EdgeList.Valid;
      ghost var before := bitmap[..];
      var xmin, xmax;
      ghost var row;
      e, xmin, xmax, row := CoverRow(edges, e0, y, rule);
      BlitRow(edges, y, xmin, xmax, view, paint, rule, row);
      rows' := rows + [row];
      DrawnNext(was, before, bitmap[..], width, height, stride, edges, rows, row, rule, view, paint, xmin, xmax,
                scanline[..]);
    }

    /** The blit, clipped to the columns that were covered. Because zero coverage changes nothing, the whole
        row comes out as if every pixel had been blended. */
    method BlitRow(ghost edges: seq<Edge>, y: nat, xmin0: int, xmax0: int, view: View, paint: Paint, rule: FillRule,
                   ghost row: seq<seq<Cell>>)
      requires width <= scanline.Length && scanline != bitmap && Fits(bitmap.Length, width, height, stride)
      requires y < height && view.Valid() && AllWellFormed(edges)
      requires RowDone(edges, SUBSAMPLES * y, row, rule, xmin0, xmax0, scanline[..], width)
      modifies bitmap
      ensures Blitted(old(bitmap[..]), bitmap[..], width, height, stride, y, row, rule, view, paint)
    {
      hide RowDone, Blitted, Fits, Laid;
      ghost var was := bitmap[..];
      RowInRange(bitmap.Length, width, height, stride, y);
      var xmin, xmax := xmin0, xmax0;
      if xmin < 0 {
        xmin := 0;
      }
      if xmax > width - 1 {
        xmax := width - 1;
      }
      if xmin <= xmax {
        LaySpan(y, xmin, xmax, view, paint);
      } else {
        NothingLaid(was, scanline[..], y, y * stride, xmin, xmax, view, paint);
      }
      BlitCovers(was, bitmap[..], scanline[..], width, height, stride, y, xmin, xmax, xmin0, xmax0, edges, row, rule,
                 view, paint);
    }

    method LaySpan(y: nat, xmin: nat, xmax: nat, view: View, paint: Paint)
      requires scanline != bitmap && y * stride + 4 * width <= bitmap.Length && xmin <= xmax < width <= scanline.Length
      requires view.Valid()
      modifies bitmap
      ensures Laid(old(bitmap[..]), bitmap[..], scanline[..], y, y * stride, xmin, xmax, view, paint)
    {
      hide Over, DeviceColor;
      ghost var was, base, line := bitmap[..], y * stride, scanline[..];
      ScanlineSolid(bitmap, y * stride + xmin * 4, xmax - xmin + 1, scanline, xmin, xmin, y, view, paint);
      assert scanline[..] == line;
      forall x: int | xmin <= x <= xmax
        ensures PixelAt(bitmap[..], base + 4 * x)
             == Over(DeviceColor(paint, view, x, y), line[x], PixelAt(was, base + 4 * x))
      {
        var i := x - xmin;
        assert (y * stride + xmin * 4) + 4 * i == base + 4 * x;
      }
    }
  }

  /** Pixels `xmin` to `xmax` of the row at byte `base` are blended by the coverage in `line`; no other byte
      has changed. */
  ghost predicate Laid(was: seq<byte>, now: seq<byte>, line: seq<byte>, y: nat, base: nat, xmin: int, xmax: int,
                       view: View, paint: Paint)
    requires view.Valid() && |was| == |now|
    requires xmin <= xmax ==> 0 <= xmin && xmax < |line| && base + 4 * xmax + 4 <= |was|
  {
    && (forall x: int :: xmin <= x <= xmax ==>
          PixelAt(now, base + 4 * x) == Over(DeviceColor(paint, view, x, y), line[x], PixelAt(was, base + 4 * x)))
    && (forall k :: 0 <= k < |was| && !(base + 4 * xmin <= k < base + 4 * (xmax + 1)) ==> now[k] == was[k])
  }

  lemma NothingLaid(was: seq<byte>, line: seq<byte>, y: nat, base: nat, xmin: int, xmax: int, view: View, paint: Paint)
    requires view.Valid() && xmin > xmax
    ensures Laid(was, was, line, y, base, xmin, xmax, view, paint)
  {
  }

  /** The scanline of a row under construction: its lists so far are right, their spans lie over columns `lo`
      to `hi`, and the scanline holds their coverage. */
  ghost predicate RowDone(edges: seq<Edge>, base: nat, row: seq<seq<Cell>>, rule: FillRule, lo: int, hi: int,
                          line: seq<byte>, w: nat)
    requires AllWellFormed(edges) && w <= |line|
  {
    RowOk(edges, base, row) && RowWithin(row, rule, lo, hi) && Covers(line, w, row, rule)
  }

  ghost predicate InSomeRow(k: nat, w: nat, h: nat, stride: nat) {
    exists y: nat :: y < h && Offset(stride, y, 0) <= k < Offset(stride, y, 0) + 4 * w
  }

  /** The image after the first `|rows|` rows: `rows` holds the active list of each of their sub-scanlines,
      every pixel of theirs has been blended with exactly the coverage those lists give it, and no other pixel
      and no byte between the rows has changed. */
  ghost predicate Drawn(was: seq<byte>, now: seq<byte>, w: nat, h: nat, stride: nat, edges: seq<Edge>,
                        rows: seq<seq<seq<Cell>>>, rule: FillRule, view: View, paint: Paint)
    requires |was| == |now| && Fits(|was|, w, h, stride) && |rows| <= h && AllWellFormed(edges) && view.Valid()
  {
    && (forall y: nat :: y < |rows| ==> |rows[y]| == SUBSAMPLES && RowOk(edges, SUBSAMPLES * y, rows[y]))
    && (forall y: nat, x: nat :: y < |rows| && x < w ==>
          Px(now, w, h, stride, y, x)
          == Over(DeviceColor(paint, view, x, y), TruncByte(RowSum(rows[y], |rows[y]|, rule, x)),
                  Px(was, w, h, stride, y, x)))
    && (forall y: nat, x: nat :: |rows| <= y < h && x < w ==>
          Px(now, w, h, stride, y, x) == Px(was, w, h, stride, y, x))
    && (forall k: nat :: k < |was| && now[k] != was[k] ==> InSomeRow(k, w, h, stride))
  }

  lemma NothingDrawn(was: seq<byte>, w: nat, h: nat, stride: nat, edges: seq<Edge>, rule: FillRule, view: View,
                     paint: Paint)
    requires Fits(|was|, w, h, stride) && AllWellFormed(edges) && view.Valid()
    ensures Drawn(was, was, w, h, stride, edges, [], rule, view, paint)
  {
  }

  lemma OtherRowKept(was: seq<byte>, now: seq<byte>, w: nat, h: nat, stride: nat, y: nat, y': nat, x': nat)
    requires |was| == |now| && Fits(|was|, w, h, stride) && y < h && y' < h && y != y' && x' < w
    requires forall k :: 0 <= k < |was| && !(y * stride <= k < y * stride + 4 * w) ==> now[k] == was[k]
    ensures Px(now, w, h, stride, y', x') == Px(was, w, h, stride, y', x')
  {
    OffsetInRange(|was|, w, h, stride, y', x');
    if y < y' {
      RowsApart(w, stride, y, y');
    } else {
      RowsApart(w, stride, y', y);
    }
  }

  lemma DrawnNext(was: seq<byte>, before: seq<byte>, now: seq<byte>, w: nat, h: nat, stride: nat, edges: seq<Edge>,
                  rows: seq<seq<seq<Cell>>>, row: seq<seq<Cell>>, rule: FillRule, view: View, paint: Paint,
                  lo: int, hi: int, line: seq<byte>)
    requires |was| == |before| == |now| && Fits(|was|, w, h, stride) && |rows| < h && view.Valid()
    requires AllWellFormed(edges) && w <= |line|
    requires Drawn(was, before, w, h, stride, edges, rows, rule, view, paint)
    requires |row| == SUBSAMPLES && RowDone(edges, SUBSAMPLES * |rows|, row, rule, lo, hi, line, w)
    requires Blitted(before, now, w, h, stride, |rows|, row, rule, view, paint)
    ensures Drawn(was, now, w, h, stride, edges, rows + [row], rule, view, paint)
  {
    hide Over, DeviceColor, RowSum, RowOk, RowWithin, Covers, TruncByte, Px;
    var y0, rows' := |rows|, rows + [row];
    forall y: nat, x: nat | y != y0 && y < h && x < w
      ensures Px(now, w, h, stride, y, x) == Px(before, w, h, stride, y, x)
    {
      OtherRowKept(before, now, w, h, stride, y0, y, x);
    }
    forall k: nat | k < |was| && now[k] != was[k] ensures InSomeRow(k, w, h, stride) {
      if now[k] != before[k] {
        assert Offset(stride, y0, 0) <= k < Offset(stride, y0, 0) + 4 * w;
      }
    }
  }

  lemma ListSorted(edges: seq<Edge>, n: nat, cells: seq<Cell>)
    requires AllWellFormed(edges) && ListOk(edges, n, cells)
    ensures Sorted(cells)
  {
  }

  lemma RowStarts(edges: seq<Edge>, base: nat, line: seq<byte>, w: nat, rule: FillRule, lo: int, hi: int)
    requires AllWellFormed(edges) && w <= |line| && forall k :: 0 <= k < w ==> line[k] == 0
    ensures RowDone(edges, base, [], rule, lo, hi, line, w)
  {
  }

  lemma NothingToFill(line: seq<byte>, w: nat, cells: seq<Cell>, rule: FillRule, lo: int, hi: int)
    requires w <= |line| && cells == []
    ensures Accumulated(line, line, w, Spans(rule, cells), WEIGHT) && SpansWithin(Spans(rule, cells), lo, hi)
  {
    AccumulatedNone(line, w, WEIGHT);
  }

  lemma RowWithinAppend(row: seq<seq<Cell>>, cells: seq<Cell>, rule: FillRule, lo: int, hi: int, lo': int, hi': int)
    requires RowWithin(row, rule, lo, hi) && SpansWithin(Spans(rule, cells), lo', hi') && lo' <= lo && hi <= hi'
    ensures RowWithin(row + [cells], rule, lo', hi')
  {
    hide Spans;
    var row' := row + [cells];
    forall s | 0 <= s < |row'| ensures SpansWithin(Spans(rule, row'[s]), lo', hi') {
      if s < |row| {
        assert SpansWithin(Spans(rule, row[s]), lo, hi);
      }
    }
  }

  lemma RowGrows(was: seq<byte>, now: seq<byte>, w: nat, edges: seq<Edge>, base: nat, row: seq<seq<Cell>>,
                 cells: seq<Cell>, rule: FillRule, lo: int, hi: int, lo': int, hi': int)
    requires w <= |was| == |now| && |row| < SUBSAMPLES && AllWellFormed(edges)
    requires RowDone(edges, base, row, rule, lo, hi, was, w) && ListOk(edges, base + |row|, cells)
    requires Accumulated(was, now, w, Spans(rule, cells), WEIGHT)
    requires SpansWithin(Spans(rule, cells), lo', hi') && lo' <= lo && hi <= hi'
    ensures RowDone(edges, base, row + [cells], rule, lo', hi', now, w)
  {
    hide RowOk, RowWithin, Covers, ListOk, Accumulated, SpansWithin, Spans;
    CoversOneMore(was, now, w, edges, base, row, cells, rule);
    RowWithinAppend(row, cells, rule, lo, hi, lo', hi');
  }

  /** What the clipped blit leaves is the blend of the whole row. */
  lemma BlitCovers(was: seq<byte>, now: seq<byte>, line: seq<byte>, w: nat, h: nat, stride: nat, y: nat,
                   xmin: int, xmax: int, lo: int, hi: int, edges: seq<Edge>, row: seq<seq<Cell>>, rule: FillRule,
                   view: View, paint: Paint)
    requires |was| == |now| && w <= |line| && Fits(|was|, w, h, stride) && y < h && view.Valid() && AllWellFormed(edges)
    requires RowDone(edges, SUBSAMPLES * y, row, rule, lo, hi, line, w)
    requires xmin == Max(lo, 0) && xmax == Min(hi, w - 1)
    requires y * stride + 4 * w <= |was| && Laid(was, now, line, y, y * stride, xmin, xmax, view, paint)
    ensures Blitted(was, now, w, h, stride, y, row, rule, view, paint)
  {
    hide RowOk, Covers, RowWithin, Over, DeviceColor, RowSum, TruncByte;
    forall x: nat | x < w
      ensures Px(now, w, h, stride, y, x)
           == Over(DeviceColor(paint, view, x, y), TruncByte(RowSum(row, |row|, rule, x)), Px(was, w, h, stride, y, x))
    {
      OffsetInRange(|was|, w, h, stride, y, x);
      CoverAt(line, w, row, rule, x);
      if !(xmin <= x <= xmax) {
        RowSumOutside(row, |row|, rule, lo, hi, x);
        OverNothing(DeviceColor(paint, view, x, y), Px(was, w, h, stride, y, x));
        assert Px(now, w, h, stride, y, x) == Px(was, w, h, stride, y, x);
      }
    }
  }

  lemma CoverAt(line: seq<byte>, w: nat, row: seq<seq<Cell>>, rule: FillRule, x: nat)
    requires w <= |line| && Covers(line, w, row, rule) && x < w
    ensures line[x] == TruncByte(RowSum(row, |row|, rule, x)) == RowSum(row, |row|, rule, x)
  {
    hide RowSum;
  }
}
