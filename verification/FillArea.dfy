/** What the drawn coverage means: the share of a pixel that lies inside the shape by the fill rule. Inside is
    judged on the live edges of each sub-scanline, so it does not depend on how the list was maintained. */
module FillArea {
  import opened Seqs
  import opened Images
  import opened Edges
  import opened ActiveEdges
  import opened Scan
  import opened Coverage
  import opened Blend
  import opened Raster

  lemma {:induction false} WindingAtConcat(a: seq<Cell>, b: seq<Cell>, x: int)
    ensures WindingAt(a + b, x) == WindingAt(a, x) + WindingAt(b, x)
    ensures CountAt(a + b, x) == CountAt(a, x) + CountAt(b, x)
    decreases |b|
  {
    if b == [] {
      assert a + b == a;
    } else {
      assert (a + b)[..|a + b| - 1] == a + b[..|b| - 1];
      WindingAtConcat(a, b[..|b| - 1], x);
    }
  }

  lemma WindingAtRemove(b: seq<Cell>, k: nat, x: int)
    requires k < |b|
    ensures WindingAt(b, x) == WindingAt(b[..k] + b[k + 1..], x) + (if b[k].x <= x then b[k].dir else 0)
    ensures CountAt(b, x) == CountAt(b[..k] + b[k + 1..], x) + (if b[k].x <= x then 1 else 0)
  {
    assert b == b[..k] + [b[k]] + b[k + 1..];
    WindingAtConcat(b[..k] + [b[k]], b[k + 1..], x);
    WindingAtConcat(b[..k], b[k + 1..], x);
    assert (b[..k] + [b[k]])[..k] == b[..k];
  }

  lemma {:induction false} WindingAtPermutation(a: seq<Cell>, b: seq<Cell>, x: int)
    requires multiset(a) == multiset(b)
    ensures WindingAt(a, x) == WindingAt(b, x) && CountAt(a, x) == CountAt(b, x)
    decreases |a|
  {
    PermutationLength(a, b);
    if a != [] {
      var k := MatchLast(a, b);
      WindingAtPermutation(a[..|a| - 1], b[..k] + b[k + 1..], x);
      WindingAtRemove(b, k, x);
    }
  }

  /** Inside does not depend on the order of the cells. */
  lemma InsidePermutation(rule: FillRule, a: seq<Cell>, b: seq<Cell>, x: int)
    requires multiset(a) == multiset(b)
    ensures Inside(rule, a, x) <==> Inside(rule, b, x)
  {
    WindingAtPermutation(a, b, x);
  }

  lemma {:induction false} InsideCountPermutation(rule: FillRule, a: seq<Cell>, b: seq<Cell>, from: int, n: nat)
    requires multiset(a) == multiset(b)
    ensures InsideCount(rule, a, from, n) == InsideCount(rule, b, from, n)
    decreases n
  {
    hide Inside;
    if n > 0 {
      InsideCountPermutation(rule, a, b, from, n - 1);
      InsidePermutation(rule, a, b, from + n - 1);
    }
  }

  /** How many of the 1024 abscissae of pixel column `k` are inside, over the first `t` sub-scanlines. */
  function RowInside(edges: seq<Edge>, base: nat, t: nat, rule: FillRule, k: int): nat
    requires forall e :: e in edges ==> e.WellFormed()
  {
    if t == 0 then 0
    else RowInside(edges, base, t - 1, rule, k)
         + InsideCount(rule, LiveCells(edges, |edges|, base + t - 1), FIX * k, FIX)
  }

  function SpanTotal(row: seq<seq<Cell>>, t: nat, rule: FillRule): nat
    requires t <= |row|
  {
    if t == 0 then 0 else SpanTotal(row, t - 1, rule) + |Spans(rule, row[t - 1])|
  }

  lemma ListArea(edges: seq<Edge>, n: nat, cells: seq<Cell>, rule: FillRule, k: int)
    requires AllWellFormed(edges) && Balanced(edges) && ListOk(edges, n, cells)
    ensures FIX * TotalGain(Spans(rule, cells), WEIGHT, k)
         <= InsideCount(rule, LiveCells(edges, |edges|, n), FIX * k, FIX) * WEIGHT
         <= FIX * TotalGain(Spans(rule, cells), WEIGHT, k) + (FIX - 1) * |Spans(rule, cells)|
  {
    hide Spans, TotalGain, InsideCount, Sorted, Directed, Balanced, LiveCells;
    ListDirected(edges, n, cells);
    InsideCountPermutation(rule, cells, LiveCells(edges, |edges|, n), FIX * k, FIX);
    GainIsInsideArea(rule, cells, WEIGHT, k);
  }

  /** For closed contours the coverage of a pixel is its inside area, rounded down by less than one unit for
      each span of its row. */
  lemma {:induction false} CoverageIsInsideArea(edges: seq<Edge>, base: nat, row: seq<seq<Cell>>, t: nat,
                                                rule: FillRule, k: int)
    requires AllWellFormed(edges) && Balanced(edges) && RowOk(edges, base, row) && t <= |row|
    ensures FIX * RowSum(row, t, rule, k) <= RowInside(edges, base, t, rule, k) * WEIGHT
         <= FIX * RowSum(row, t, rule, k) + (FIX - 1) * SpanTotal(row, t, rule)
  {
    hide ListOk, Spans, TotalGain, InsideCount, Balanced, LiveCells;
    if t > 0 {
      CoverageIsInsideArea(edges, base, row, t - 1, rule, k);
      ListArea(edges, base + t - 1, row[t - 1], rule, k);
    }
  }

  ghost predicate ExteriorAt(edges: seq<Edge>, rule: FillRule, n: nat, x: nat)
    requires AllWellFormed(edges)
  {
    forall p :: FIX * x <= p < FIX * x + FIX ==> !Inside(rule, LiveCells(edges, |edges|, n), p)
  }

  /** No sub-scanline of row `y` has inside in pixel column `x`. */
  ghost predicate Exterior(edges: seq<Edge>, rule: FillRule, y: nat, x: nat)
    requires AllWellFormed(edges)
  {
    forall n: nat :: SUBSAMPLES * y <= n < SUBSAMPLES * (y + 1) ==> ExteriorAt(edges, rule, n, x)
  }

  ghost predicate NoCellWithin(cells: seq<Cell>, k: int) {
    forall i :: 0 <= i < |cells| ==> cells[i].x <= FIX * k || FIX * (k + 1) <= cells[i].x
  }

  ghost predicate InteriorAt(edges: seq<Edge>, rule: FillRule, n: nat, x: nat)
    requires AllWellFormed(edges)
  {
    Inside(rule, LiveCells(edges, |edges|, n), FIX * x) && NoCellWithin(LiveCells(edges, |edges|, n), x)
  }

  /** On every sub-scanline of row `y`, pixel column `x` starts inside and no edge passes through it. */
  ghost predicate Interior(edges: seq<Edge>, rule: FillRule, y: nat, x: nat)
    requires AllWellFormed(edges)
  {
    forall n: nat :: SUBSAMPLES * y <= n < SUBSAMPLES * (y + 1) ==> InteriorAt(edges, rule, n, x)
  }

  lemma {:induction false} NoneInside(rule: FillRule, cells: seq<Cell>, from: int, n: nat)
    requires forall p :: from <= p < from + n ==> !Inside(rule, cells, p)
    ensures InsideCount(rule, cells, from, n) == 0
    decreases n
  {
    hide Inside;
    if n > 0 {
      NoneInside(rule, cells, from, n - 1);
    }
  }

  lemma {:induction false} ExteriorInside(edges: seq<Edge>, rule: FillRule, y: nat, x: nat, t: nat)
    requires AllWellFormed(edges) && Exterior(edges, rule, y, x) && t <= SUBSAMPLES
    ensures RowInside(edges, SUBSAMPLES * y, t, rule, x) == 0
  {
    hide Inside, LiveCells, InsideCount;
    if t > 0 {
      ExteriorInside(edges, rule, y, x, t - 1);
      assert ExteriorAt(edges, rule, SUBSAMPLES * y + t - 1, x);
      NoneInside(rule, LiveCells(edges, |edges|, SUBSAMPLES * y + t - 1), FIX * x, FIX);
    }
  }

  ghost predicate EndsAreCells(spans: seq<Span>, cells: seq<Cell>) {
    forall i :: 0 <= i < |spans| ==> exists j :: 0 <= j < |cells| && cells[j].x == spans[i].x1
  }

  /** Every span ends at an edge. */
  lemma {:induction false} SpanEnds(rule: FillRule, cells: seq<Cell>)
    ensures EndsAreCells(Spans(rule, cells), cells)
  {
    if cells != [] {
      var front, c := cells[..|cells| - 1], cells[|cells| - 1];
      SpanEnds(rule, front);
      var before, after := Spans(rule, front), Spans(rule, cells);
      forall i | 0 <= i < |after| ensures exists j :: 0 <= j < |cells| && cells[j].x == after[i].x1 {
        if i < |before| {
          var j :| 0 <= j < |front| && front[j].x == before[i].x1;
          assert cells[j] == front[j];
        } else {
          assert cells[|cells| - 1].x == after[i].x1;
        }
      }
    }
  }

  lemma {:induction false} OneSpanGain(spans: seq<Span>, i: nat, weight: nat, k: int)
    requires i < |spans|
    ensures TotalGain(spans, weight, k) >= Gain(spans[i], weight, k)
  {
    hide Gain;
    if i < |spans| - 1 {
      OneSpanGain(spans[..|spans| - 1], i, weight, k);
    }
  }

  lemma FullGain(s: Span, weight: nat, k: int)
    requires s.x0 <= FIX * k && FIX * (k + 1) <= s.x1
    ensures Gain(s, weight, k) == weight
  {
    assert Overlap(s, k) == FIX;
  }

  lemma ListInterior(edges: seq<Edge>, n: nat, cells: seq<Cell>, rule: FillRule, k: int)
    requires AllWellFormed(edges) && Balanced(edges) && ListOk(edges, n, cells)
    requires k >= 0 && InteriorAt(edges, rule, n, k)
    ensures TotalGain(Spans(rule, cells), WEIGHT, k) == WEIGHT
  {
    hide Spans, TotalGain, Inside, Sorted, Directed, Balanced, LiveCells, Gain;
    var live, spans := LiveCells(edges, |edges|, n), Spans(rule, cells);
    ListDirected(edges, n, cells);
    InsidePermutation(rule, cells, live, FIX * k);
    SpansAreInside(rule, cells, FIX * k);
    var i :| 0 <= i < |spans| && spans[i].x0 <= FIX * k < spans[i].x1;
    SpanEnds(rule, cells);
    var j :| 0 <= j < |cells| && cells[j].x == spans[i].x1;
    assert cells[j] in multiset(cells);
    assert cells[j] in multiset(live);
    FullGain(spans[i], WEIGHT, k);
    OneSpanGain(spans, i, WEIGHT, k);
    ListGainAtMost(edges, n, cells, rule, k);
  }

  lemma {:induction false} InteriorSum(edges: seq<Edge>, rule: FillRule, y: nat, x: nat, row: seq<seq<Cell>>, t: nat)
    requires AllWellFormed(edges) && Balanced(edges) && Interior(edges, rule, y, x)
    requires RowOk(edges, SUBSAMPLES * y, row) && t <= |row| <= SUBSAMPLES
    ensures RowSum(row, t, rule, x) == WEIGHT * t
  {
    hide ListOk, Spans, TotalGain, Balanced, LiveCells, InteriorAt;
    if t > 0 {
      InteriorSum(edges, rule, y, x, row, t - 1);
      assert InteriorAt(edges, rule, SUBSAMPLES * y + t - 1, x);
      ListInterior(edges, SUBSAMPLES * y + t - 1, row[t - 1], rule, x);
    }
  }

  /** Drawing closed contours in an opaque colour gives every pixel well inside exactly that colour ... */
  lemma InteriorIsPainted(was: seq<byte>, now: seq<byte>, w: nat, h: nat, stride: nat, edges: seq<Edge>,
                          rows: seq<seq<seq<Cell>>>, rule: FillRule, view: View, paint: Paint, y: nat, x: nat)
    requires |was| == |now| && Fits(|was|, w, h, stride) && AllWellFormed(edges) && view.Valid()
    requires |rows| == h && Drawn(was, now, w, h, stride, edges, rows, rule, view, paint)
    requires Balanced(edges) && y < h && x < w && Interior(edges, rule, y, x)
    requires DeviceColor(paint, view, x, y).a == 255
    ensures var c := DeviceColor(paint, view, x, y); Px(now, w, h, stride, y, x) == Pixel(c.r, c.g, c.b, 255)
  {
    hide Over, DeviceColor, RowSum, Balanced, Interior, RowOk, Px;
    InteriorSum(edges, rule, y, x, rows[y], SUBSAMPLES);
    OverOpaque(DeviceColor(paint, view, x, y), Px(was, w, h, stride, y, x));
  }

  /** ... and leaves every pixel outside as it was. */
  lemma ExteriorIsKept(was: seq<byte>, now: seq<byte>, w: nat, h: nat, stride: nat, edges: seq<Edge>,
                       rows: seq<seq<seq<Cell>>>, rule: FillRule, view: View, paint: Paint, y: nat, x: nat)
    requires |was| == |now| && Fits(|was|, w, h, stride) && AllWellFormed(edges) && view.Valid()
    requires |rows| == h && Drawn(was, now, w, h, stride, edges, rows, rule, view, paint)
    requires Balanced(edges) && y < h && x < w && Exterior(edges, rule, y, x)
    ensures Px(now, w, h, stride, y, x) == Px(was, w, h, stride, y, x)
  {
    hide Over, DeviceColor, RowSum, Balanced, Exterior, RowOk, Px, SpanTotal, RowInside;
    CoverageIsInsideArea(edges, SUBSAMPLES * y, rows[y], SUBSAMPLES, rule, x);
    ExteriorInside(edges, rule, y, x, SUBSAMPLES);
    OverNothing(DeviceColor(paint, view, x, y), Px(was, w, h, stride, y, x));
  }
}
