/** Coverage of a sub-scanline: `nsvg__fillActiveEdges` turns the sorted active edges into spans and
    `nsvg__fillScanline` adds each span, pixel by pixel, to the 8-bit coverage of the row. */
module Coverage {
  import opened Images
  import opened ActiveEdges
  import opened Scan

  /** A filled stretch, in 22.10 fixed point, right end excluded. */
  datatype Span = Span(x0: int, x1: int)

  function Min(a: int, b: int): int { if a < b then a else b }

  function Max(a: int, b: int): int { if a > b then a else b }

  /** How much of pixel `k` the span covers, in 1/1024 of a pixel. */
  function Overlap(s: Span, k: int): nat {
    Max(0, Min(s.x1, FIX * (k + 1)) - Max(s.x0, FIX * k))
  }

  /** What the span adds to pixel `k` when a full pixel weighs `weight`. */
  function Gain(s: Span, weight: nat, k: int): nat {
    Overlap(s, k) * weight / FIX
  }

  function TotalGain(spans: seq<Span>, weight: nat, k: int): nat {
    if spans == [] then 0 else TotalGain(spans[..|spans| - 1], weight, k) + Gain(spans[|spans| - 1], weight, k)
  }

  lemma GainOutside(s: Span, weight: nat, k: int)
    requires k < s.x0 / FIX || s.x1 / FIX < k
    ensures Gain(s, weight, k) == 0
  {
    assert Overlap(s, k) == 0;
  }

  lemma GainInside(s: Span, weight: nat, k: int)
    requires s.x0 / FIX < k < s.x1 / FIX
    ensures Gain(s, weight, k) == weight
  {
    assert Overlap(s, k) == FIX;
  }

  lemma GainLeft(s: Span, weight: nat)
    requires s.x0 / FIX < s.x1 / FIX
    ensures Gain(s, weight, s.x0 / FIX) == (FIX - s.x0 % FIX) * weight / FIX
  {
    assert Overlap(s, s.x0 / FIX) == FIX - s.x0 % FIX;
  }

  lemma GainRight(s: Span, weight: nat)
    requires s.x0 / FIX < s.x1 / FIX
    ensures Gain(s, weight, s.x1 / FIX) == s.x1 % FIX * weight / FIX
  {
    assert Overlap(s, s.x1 / FIX) == s.x1 % FIX;
  }

  lemma GainSame(s: Span, weight: nat)
    requires s.x0 <= s.x1 && s.x0 / FIX == s.x1 / FIX
    ensures Gain(s, weight, s.x0 / FIX) == (s.x1 - s.x0) * weight / FIX
  {
    assert Overlap(s, s.x0 / FIX) == s.x1 - s.x0;
  }

  /** `nsvg__fillScanline`: every pixel of the row gains its share of the span, also when the span sticks
      out of the row on either side. */
  method FillScanline(scanline: array<byte>, len: nat, x0: int, x1: int, weight: nat, xmin: int, xmax: int)
    returns (xmin': int, xmax': int)
    requires len <= scanline.Length && x0 <= x1
    modifies scanline
    ensures xmin' == Min(xmin, x0 / FIX) && xmax' == Max(xmax, x1 / FIX)
    ensures forall k :: 0 <= k < len ==> scanline[k] == TruncByte(old(scanline[k]) + Gain(Span(x0, x1), weight, k))
    ensures forall k :: len <= k < scanline.Length ==> scanline[k] == old(scanline[k])
  {
    hide Gain, TruncByte;
    ghost var s := Span(x0, x1);
    var i, j := x0 / FIX, x1 / FIX;
    xmin', xmax' := Min(xmin, i), Max(xmax, j);
    forall k | 0 <= k < len && (k < i || j < k) ensures Gain(s, weight, k) == 0 {
      GainOutside(s, weight, k);
    }
    TruncKeeps();
    if i < len && j >= 0 {
      if i == j {
        GainSame(s, weight);
        scanline[i] := TruncByte(scanline[i] + (x1 - x0) * weight / FIX);
      } else {
        GainLeft(s, weight);
        GainRight(s, weight);
        forall k | i < k < j ensures Gain(s, weight, k) == weight {
          GainInside(s, weight, k);
        }
        var first, last := i, j;
        if i >= 0 {
          scanline[i] := TruncByte(scanline[i] + (FIX - x0 % FIX) * weight / FIX);
        } else {
          first := -1;
        }
        if j < len {
          scanline[j] := TruncByte(scanline[j] + x1 % FIX * weight / FIX);
        } else {
          last := len;
        }
        FillBetween(scanline, first + 1, last, weight);
      }
    }
  }

  lemma TruncKeeps()
    ensures forall b: byte :: TruncByte(b) == b
  {
  }

  /** The loop over the fully covered pixels. */
  method FillBetween(scanline: array<byte>, first: nat, last: nat, weight: nat)
    requires last <= scanline.Length
    modifies scanline
    ensures forall k :: 0 <= k < scanline.Length ==>
              scanline[k] == if first <= k < last then TruncByte(old(scanline[k]) + weight) else old(scanline[k])
  {
    var i := first;
    while i < last
      invariant first <= i && (i <= last || i == first)
      invariant forall k :: 0 <= k < scanline.Length ==>
                  scanline[k] == if first <= k < i then TruncByte(old(scanline[k]) + weight) else old(scanline[k])
    {
      scanline[i] := TruncByte(scanline[i] + weight);
      i := i + 1;
    }
  }

  datatype FillRule = NonZero | EvenOdd

  /** The state of the walk along the active list: running count, start of the open span, spans so far. */
  datatype Walk = Walk(w: int, x0: int, spans: seq<Span>)

  function Step(rule: FillRule, st: Walk, c: Cell): Walk {
    match rule
    case NonZero =>
      if st.w == 0 then Walk(c.dir, c.x, st.spans)
      else if st.w + c.dir == 0 then Walk(0, st.x0, st.spans + [Span(st.x0, c.x)])
      else Walk(st.w + c.dir, st.x0, st.spans)
    case EvenOdd =>
      if st.w == 0 then Walk(1, c.x, st.spans) else Walk(0, st.x0, st.spans + [Span(st.x0, c.x)])
  }

  function WalkOver(rule: FillRule, cells: seq<Cell>): Walk {
    if cells == [] then Walk(0, 0, [])
    else Step(rule, WalkOver(rule, cells[..|cells| - 1]), cells[|cells| - 1])
  }

  /** The spans that are filled on a sub-scanline. */
  function Spans(rule: FillRule, cells: seq<Cell>): seq<Span> {
    WalkOver(rule, cells).spans
  }

  ghost predicate Directed(cells: seq<Cell>) {
    forall i :: 0 <= i < |cells| ==> cells[i].dir == 1 || cells[i].dir == -1
  }

  /** The winding number of the contours around abscissa `x`: the directions of all edges at or left of it. */
  function WindingAt(cells: seq<Cell>, x: int): int {
    if cells == [] then 0
    else WindingAt(cells[..|cells| - 1], x) + (if cells[|cells| - 1].x <= x then cells[|cells| - 1].dir else 0)
  }

  function CountAt(cells: seq<Cell>, x: int): nat {
    if cells == [] then 0
    else CountAt(cells[..|cells| - 1], x) + (if cells[|cells| - 1].x <= x then 1 else 0)
  }

  /** Whether abscissa `x` is inside by the fill rules of section 11.3 of SVG 1.1. */
  predicate Inside(rule: FillRule, cells: seq<Cell>, x: int) {
    match rule
    case NonZero => WindingAt(cells, x) != 0
    case EvenOdd => CountAt(cells, x) % 2 == 1
  }

  ghost predicate InSpans(spans: seq<Span>, x: int) {
    exists i :: 0 <= i < |spans| && spans[i].x0 <= x < spans[i].x1
  }

  /** Inside a finished span, or right of the start of the open one. */
  ghost predicate Filled(st: Walk, x: int) {
    InSpans(st.spans, x) || (st.w != 0 && st.x0 <= x)
  }

  /** Spans run from left to right without overlap and end by `limit`. */
  ghost predicate Ordered(spans: seq<Span>, limit: int) {
    && (forall i :: 0 <= i < |spans| ==> spans[i].x0 <= spans[i].x1 <= limit)
    && (forall i, j :: 0 <= i < j < |spans| ==> spans[i].x1 <= spans[j].x0)
  }

  ghost predicate AllUpTo(cells: seq<Cell>, x: int) {
    forall i :: 0 <= i < |cells| ==> cells[i].x <= x
  }

  lemma SortedPrefix(cells: seq<Cell>)
    requires Sorted(cells) && Directed(cells) && cells != []
    ensures Sorted(cells[..|cells| - 1]) && Directed(cells[..|cells| - 1])
    ensures AllUpTo(cells[..|cells| - 1], cells[|cells| - 1].x)
  {
  }

  /** Beyond all cells the winding number is the sum of all directions. */
  function DirectionSum(cells: seq<Cell>): int {
    if cells == [] then 0 else DirectionSum(cells[..|cells| - 1]) + cells[|cells| - 1].dir
  }

  lemma {:induction false} WindingBeyond(cells: seq<Cell>, x: int)
    requires AllUpTo(cells, x)
    ensures WindingAt(cells, x) == DirectionSum(cells) && CountAt(cells, x) == |cells|
  {
    if cells != [] {
      WindingBeyond(cells[..|cells| - 1], x);
    }
  }

  /** The running count of the walk: the direction sum, or the parity of the number of cells. */
  lemma {:induction false} WalkCount(rule: FillRule, cells: seq<Cell>)
    requires Directed(cells)
    ensures rule == NonZero ==> WalkOver(rule, cells).w == DirectionSum(cells)
    ensures rule == EvenOdd ==> WalkOver(rule, cells).w == |cells| % 2
  {
    if cells != [] {
      WalkCount(rule, cells[..|cells| - 1]);
    }
  }

  /** The walk keeps its spans ordered and its open start left of every cell to come. */
  lemma {:induction false} WalkOrdered(rule: FillRule, cells: seq<Cell>, limit: int)
    requires Sorted(cells) && Directed(cells) && AllUpTo(cells, limit)
    ensures var st := WalkOver(rule, cells);
            && Ordered(st.spans, limit)
            && (st.w != 0 ==> st.x0 <= limit && Ordered(st.spans, st.x0))
  {
    if cells != [] {
      var c := cells[|cells| - 1];
      SortedPrefix(cells);
      WalkOrdered(rule, cells[..|cells| - 1], c.x);
      var st := WalkOver(rule, cells[..|cells| - 1]);
      OrderedWiden(st.spans, c.x, limit);
      if st.w != 0 {
        OrderedAppend(st.spans, st.x0, c.x, limit);
      }
    }
  }

  lemma OrderedWiden(spans: seq<Span>, a: int, b: int)
    requires Ordered(spans, a) && a <= b
    ensures Ordered(spans, b)
  {
  }

  lemma OrderedAppend(spans: seq<Span>, x0: int, x1: int, limit: int)
    requires Ordered(spans, x0) && x0 <= x1 <= limit
    ensures Ordered(spans + [Span(x0, x1)], limit)
  {
  }

  lemma InSpansAppend(spans: seq<Span>, s: Span, x: int)
    ensures InSpans(spans + [s], x) <==> InSpans(spans, x) || s.x0 <= x < s.x1
  {
    var t := spans + [s];
    if InSpans(spans, x) {
      var i :| 0 <= i < |spans| && spans[i].x0 <= x < spans[i].x1;
      assert t[i] == spans[i];
    }
    if s.x0 <= x < s.x1 {
      assert t[|spans|] == s;
    }
  }

  /** What one more cell, at or right of all the others, does to the filled part: nothing to its left, and
      from there on everything is filled exactly when the running count is not zero. */
  lemma StepFills(rule: FillRule, st: Walk, c: Cell, x: int)
    requires c.dir != 0 && Ordered(st.spans, c.x) && (st.w != 0 ==> st.x0 <= c.x)
    ensures x < c.x ==> (Filled(Step(rule, st, c), x) <==> Filled(st, x))
    ensures x >= c.x ==> (Filled(Step(rule, st, c), x) <==> Step(rule, st, c).w != 0)
  {
    InSpansAppend(st.spans, Span(st.x0, c.x), x);
  }

  /** At every moment of the walk, filled means inside. */
  lemma {:induction false} WalkFillsInside(rule: FillRule, cells: seq<Cell>, x: int)
    requires Sorted(cells) && Directed(cells)
    ensures Filled(WalkOver(rule, cells), x) <==> Inside(rule, cells, x)
  {
    if cells != [] {
      var front, c := cells[..|cells| - 1], cells[|cells| - 1];
      SortedPrefix(cells);
      WalkFillsInside(rule, front, x);
      WalkOrdered(rule, front, c.x);
      StepFills(rule, WalkOver(rule, front), c, x);
      if x >= c.x {
        WindingBeyond(cells, x);
        WalkCount(rule, cells);
      }
    }
  }

  /** When the count comes back to zero at the end of the list, the spans are exactly the inside. */
  lemma SpansAreInside(rule: FillRule, cells: seq<Cell>, x: int)
    requires Sorted(cells) && Directed(cells)
    requires DirectionSum(cells) == 0 && |cells| % 2 == 0
    ensures WalkOver(rule, cells).w == 0
    ensures InSpans(Spans(rule, cells), x) <==> Inside(rule, cells, x)
  {
    WalkCount(rule, cells);
    WalkFillsInside(rule, cells, x);
  }

  /** How much of pixel `k` lies left of `limit`. */
  function Cover(limit: int, k: int): nat {
    Max(0, Min(FIX, limit - FIX * k))
  }

  lemma OverlapIsCover(s: Span, k: int)
    requires s.x0 <= s.x1
    ensures Overlap(s, k) == Cover(s.x1, k) - Cover(s.x0, k)
  {
  }

  lemma GainRounds(s: Span, weight: nat, k: int)
    ensures FIX * Gain(s, weight, k) <= Overlap(s, k) * weight < FIX * Gain(s, weight, k) + FIX
  {
    hide Overlap;
  }

  lemma CoverTimes(s: Span, weight: nat, k: int)
    requires s.x0 <= s.x1
    ensures Overlap(s, k) * weight == Cover(s.x1, k) * weight - Cover(s.x0, k) * weight
  {
    hide Overlap, Cover;
    OverlapIsCover(s, k);
    Distribute(Cover(s.x1, k), Cover(s.x0, k), weight);
  }

  lemma Distribute(a: int, b: int, w: int)
    ensures (a - b) * w == a * w - b * w
  {
  }

  lemma DistributeSum(a: int, b: int, w: int)
    ensures (a + b) * w == a * w + b * w
  {
  }

  lemma CoverMonotone(a: int, b: int, weight: nat, k: int)
    requires a <= b
    ensures Cover(a, k) * weight <= Cover(b, k) * weight <= FIX * weight
  {
    MultiplyBoth(Cover(a, k), Cover(b, k), weight);
    MultiplyBoth(Cover(b, k), FIX, weight);
  }

  lemma MultiplyBoth(p: int, q: int, weight: nat)
    requires p <= q
    ensures p * weight <= q * weight
  {
  }

  /** Spans that do not overlap cannot add more to a pixel than its covered part weighs ... */
  lemma {:induction false} TotalGainWithin(spans: seq<Span>, limit: int, weight: nat, k: int)
    requires Ordered(spans, limit)
    ensures FIX * TotalGain(spans, weight, k) <= Cover(limit, k) * weight
  {
    hide Gain, Cover, Overlap;
    if spans != [] {
      var front, s := spans[..|spans| - 1], spans[|spans| - 1];
      assert Ordered(front, s.x0);
      TotalGainWithin(front, s.x0, weight, k);
      GainRounds(s, weight, k);
      CoverTimes(s, weight, k);
      CoverMonotone(s.x1, limit, weight, k);
    } else {
      CoverMonotone(limit, limit, weight, k);
      assert Cover(limit, k) >= 0;
    }
  }

  /** ... so a sub-scanline adds at most one weight to it. */
  lemma TotalGainAtMost(spans: seq<Span>, limit: int, weight: nat, k: int)
    requires Ordered(spans, limit)
    ensures TotalGain(spans, weight, k) <= weight
  {
    hide TotalGain, Cover;
    TotalGainWithin(spans, limit, weight, k);
    CoverMonotone(limit, limit, weight, k);
  }

  /** A pixel without a span over it gains nothing. */
  lemma {:induction false} TotalGainOutside(spans: seq<Span>, weight: nat, k: int, lo: int, hi: int)
    requires SpansWithin(spans, lo, hi)
    requires k < lo || hi < k
    ensures TotalGain(spans, weight, k) == 0
  {
    hide Gain;
    if spans != [] {
      TotalGainOutside(spans[..|spans| - 1], weight, k, lo, hi);
      GainOutside(spans[|spans| - 1], weight, k);
    }
  }

  /** The covered part of pixel `k`, in 1/1024. */
  function TotalOverlap(spans: seq<Span>, k: int): nat {
    if spans == [] then 0 else TotalOverlap(spans[..|spans| - 1], k) + Overlap(spans[|spans| - 1], k)
  }

  /** What a pixel gains is its covered part times the weight, short by less than one unit per span. */
  lemma {:induction false} TotalGainIsArea(spans: seq<Span>, weight: nat, k: int)
    ensures FIX * TotalGain(spans, weight, k) <= TotalOverlap(spans, k) * weight
         <= FIX * TotalGain(spans, weight, k) + (FIX - 1) * |spans|
  {
    hide Gain, Overlap;
    if spans != [] {
      var front, s := spans[..|spans| - 1], spans[|spans| - 1];
      TotalGainIsArea(front, weight, k);
      GainRounds(s, weight, k);
      DistributeSum(TotalOverlap(front, k), Overlap(s, k), weight);
    }
  }

  /** How many of the `n` abscissae from `from` on are inside by the fill rule. */
  function InsideCount(rule: FillRule, cells: seq<Cell>, from: int, n: nat): nat {
    if n == 0 then 0 else InsideCount(rule, cells, from, n - 1) + (if Inside(rule, cells, from + n - 1) then 1 else 0)
  }

  ghost function SpanCount(spans: seq<Span>, from: int, n: nat): nat {
    if n == 0 then 0 else SpanCount(spans, from, n - 1) + (if InSpans(spans, from + n - 1) then 1 else 0)
  }

  function OverlapRange(s: Span, from: int, n: nat): nat {
    Max(0, Min(s.x1, from + n) - Max(s.x0, from))
  }

  lemma {:induction false} SpanCountAppend(spans: seq<Span>, s: Span, from: int, n: nat)
    requires Ordered(spans, s.x0)
    ensures SpanCount(spans + [s], from, n) == SpanCount(spans, from, n) + OverlapRange(s, from, n)
    decreases n
  {
    if n > 0 {
      SpanCountAppend(spans, s, from, n - 1);
      InSpansAppend(spans, s, from + n - 1);
    }
  }

  lemma {:induction false} SpanCountNone(from: int, n: nat)
    ensures SpanCount([], from, n) == 0
  {
    if n > 0 {
      SpanCountNone(from, n - 1);
    }
  }

  lemma {:induction false} SpanCountIsOverlap(spans: seq<Span>, limit: int, k: int)
    requires Ordered(spans, limit)
    ensures SpanCount(spans, FIX * k, FIX) == TotalOverlap(spans, k)
  {
    hide SpanCount;
    if spans == [] {
      SpanCountNone(FIX * k, FIX);
    } else {
      var front, s := spans[..|spans| - 1], spans[|spans| - 1];
      assert spans == front + [s];
      SpanCountIsOverlap(front, s.x0, k);
      SpanCountAppend(front, s, FIX * k, FIX);
    }
  }

  lemma {:induction false} InsideCountIsSpanCount(rule: FillRule, cells: seq<Cell>, from: int, n: nat)
    requires Sorted(cells) && Directed(cells) && DirectionSum(cells) == 0 && |cells| % 2 == 0
    ensures InsideCount(rule, cells, from, n) == SpanCount(Spans(rule, cells), from, n)
    decreases n
  {
    hide Inside, Spans, InSpans;
    if n > 0 {
      InsideCountIsSpanCount(rule, cells, from, n - 1);
      SpansAreInside(rule, cells, from + n - 1);
    }
  }

  /** For a balanced list: a pixel gains the weight times the part of its width that is inside by the fill
      rule, short by less than one unit per span. */
  lemma GainIsInsideArea(rule: FillRule, cells: seq<Cell>, weight: nat, k: int)
    requires Sorted(cells) && Directed(cells) && DirectionSum(cells) == 0 && |cells| % 2 == 0
    ensures var spans := Spans(rule, cells);
            FIX * TotalGain(spans, weight, k) <= InsideCount(rule, cells, FIX * k, FIX) * weight
            <= FIX * TotalGain(spans, weight, k) + (FIX - 1) * |spans|
  {
    hide Inside, Spans, InsideCount, TotalGain, TotalOverlap, WalkOver;
    var spans := Spans(rule, cells);
    var limit := if cells == [] then 0 else cells[|cells| - 1].x;
    SpansOrdered(rule, cells, limit);
    InsideCountIsSpanCount(rule, cells, FIX * k, FIX);
    SpanCountIsOverlap(spans, limit, k);
    TotalGainIsArea(spans, weight, k);
  }

  lemma SpansOrdered(rule: FillRule, cells: seq<Cell>, limit: int)
    requires Sorted(cells) && Directed(cells) && AllUpTo(cells, limit)
    ensures Ordered(Spans(rule, cells), limit)
  {
    WalkOrdered(rule, cells, limit);
  }

  lemma TruncSum(a: int, b: int)
    ensures TruncByte(TruncByte(a) + b) == TruncByte(a + b)
  {
  }

  /** `now` is `was` with the gains of the spans added to the first `len` pixels. */
  ghost predicate Accumulated(was: seq<byte>, now: seq<byte>, len: nat, spans: seq<Span>, weight: nat)
    requires len <= |was| == |now|
  {
    && (forall k :: 0 <= k < len ==> now[k] == TruncByte(was[k] + TotalGain(spans, weight, k)))
    && (forall k :: len <= k < |was| ==> now[k] == was[k])
  }

  lemma AccumulatedNone(was: seq<byte>, len: nat, weight: nat)
    requires len <= |was|
    ensures Accumulated(was, was, len, [], weight)
  {
    TruncKeeps();
    hide TruncByte;
  }

  lemma AccumulatedOne(was: seq<byte>, mid: seq<byte>, now: seq<byte>, len: nat, spans: seq<Span>, s: Span, weight: nat)
    requires len <= |was| == |mid| == |now|
    requires Accumulated(was, mid, len, spans, weight)
    requires forall k :: 0 <= k < len ==> now[k] == TruncByte(mid[k] + Gain(s, weight, k))
    requires forall k :: len <= k < |was| ==> now[k] == mid[k]
    ensures Accumulated(was, now, len, spans + [s], weight)
  {
    hide TruncByte, Gain, TotalGain;
    forall k | 0 <= k < len ensures now[k] == TruncByte(was[k] + TotalGain(spans + [s], weight, k)) {
      TotalGainAppend(spans, s, weight, k);
      TruncSum(was[k] + TotalGain(spans, weight, k), Gain(s, weight, k));
    }
  }

  ghost predicate SpansWithin(spans: seq<Span>, lo: int, hi: int) {
    forall i :: 0 <= i < |spans| ==> lo <= spans[i].x0 / FIX && spans[i].x1 / FIX <= hi
  }

  method FillSpan(scanline: array<byte>, len: nat, x0: int, x1: int, weight: nat, xmin: int, xmax: int,
                  ghost was: seq<byte>, ghost spans: seq<Span>) returns (xmin': int, xmax': int)
    requires len <= scanline.Length == |was| && x0 <= x1
    requires Accumulated(was, scanline[..], len, spans, weight) && SpansWithin(spans, xmin, xmax)
    modifies scanline
    ensures xmin' <= xmin && xmax <= xmax' && SpansWithin(spans + [Span(x0, x1)], xmin', xmax')
    ensures Accumulated(was, scanline[..], len, spans + [Span(x0, x1)], weight)
  {
    hide Accumulated, Gain, TruncByte;
    ghost var mid := scanline[..];
    xmin', xmax' := FillScanline(scanline, len, x0, x1, weight, xmin, xmax);
    AccumulatedOne(was, mid, scanline[..], len, spans, Span(x0, x1), weight);
  }

  /** The body of the loop of `nsvg__fillActiveEdges`, for an edge with data `c`. */
  method VisitEdge(scanline: array<byte>, len: nat, c: Cell, weight: nat, xmin: int, xmax: int, rule: FillRule,
                   w: int, x0: int, ghost was: seq<byte>, ghost spans: seq<Span>)
    returns (w': int, x0': int, xmin': int, xmax': int, ghost spans': seq<Span>)
    requires len <= scanline.Length == |was| && (w != 0 ==> x0 <= c.x)
    requires Accumulated(was, scanline[..], len, spans, weight) && SpansWithin(spans, xmin, xmax)
    modifies scanline
    ensures Walk(w', x0', spans') == Step(rule, Walk(w, x0, spans), c)
    ensures xmin' <= xmin && xmax <= xmax' && SpansWithin(spans', xmin', xmax')
    ensures Accumulated(was, scanline[..], len, spans', weight)
  {
    hide Accumulated, SpansWithin;
    w', x0', xmin', xmax', spans' := w, x0, xmin, xmax, spans;
    if w == 0 {
      x0' := c.x;
      w' := if rule == NonZero then w + c.dir else 1;
    } else {
      w' := if rule == NonZero then w + c.dir else 0;
      if w' == 0 {
        xmin', xmax' := FillSpan(scanline, len, x0, c.x, weight, xmin, xmax, was, spans);
        spans' := spans + [Span(x0, c.x)];
      }
    }
  }

  /** `nsvg__fillActiveEdges`: the spans of the list, under either fill rule, are added to the row; every
      pixel over which a span lies is within the returned bounds. */
  method FillActiveEdges(scanline: array<byte>, len: nat, list: EdgeList, weight: nat, xmin: int, xmax: int,
                         rule: FillRule) returns (xmin': int, xmax': int)
    requires len <= scanline.Length && list.Valid()
    requires Sorted(Cells(list.nodes)) && Directed(Cells(list.nodes))
    modifies scanline
    ensures xmin' <= xmin && xmax <= xmax' && SpansWithin(Spans(rule, Cells(list.nodes)), xmin', xmax')
    ensures Accumulated(old(scanline[..]), scanline[..], len, Spans(rule, Cells(list.nodes)), weight)
  {
    hide Accumulated, Sorted, Directed, Distinct, WalkOver, SpansWithin, Step;
    ghost var was, nodes, cells := scanline[..], list.nodes, Cells(list.nodes);
    var x0, w := 0, 0;
    var e := list.head;
    xmin', xmax' := xmin, xmax;
    ghost var i := 0;
    ghost var spans: seq<Span> := [];
    AccumulatedNone(was, len, weight);
    NoSpans(rule, cells, xmin, xmax);
    while e != null
      invariant 0 <= i <= |cells| && e == NodeAt(nodes, i)
      invariant WalkOver(rule, cells[..i]) == Walk(w, x0, spans)
      invariant xmin' <= xmin && xmax <= xmax' && SpansWithin(spans, xmin', xmax')
      invariant Accumulated(was, scanline[..], len, spans, weight)
      decreases |cells| - i
    {
      WalkStep(rule, cells, i);
      w, x0, xmin', xmax', spans := VisitEdge(scanline, len, Cell(e.x, e.dx, e.ey, e.dir), weight, xmin', xmax', rule,
                                              w, x0, was, spans);
      i := i + 1;
      e := e.next;
    }
    assert cells[..i] == cells;
  }

  lemma NoSpans(rule: FillRule, cells: seq<Cell>, lo: int, hi: int)
    ensures WalkOver(rule, cells[..0]) == Walk(0, 0, []) && SpansWithin([], lo, hi)
  {
  }

  lemma TotalGainAppend(spans: seq<Span>, s: Span, weight: nat, k: int)
    ensures TotalGain(spans + [s], weight, k) == TotalGain(spans, weight, k) + Gain(s, weight, k)
  {
    hide Gain;
    assert (spans + [s])[..|spans|] == spans;
  }

  /** One step of the walk, with the open span starting left of the next cell. */
  lemma WalkStep(rule: FillRule, cells: seq<Cell>, i: nat)
    requires i < |cells| && Sorted(cells) && Directed(cells)
    ensures WalkOver(rule, cells[..i + 1]) == Step(rule, WalkOver(rule, cells[..i]), cells[i])
    ensures WalkOver(rule, cells[..i]).w != 0 ==> WalkOver(rule, cells[..i]).x0 <= cells[i].x
  {
    assert cells[..i + 1][..i] == cells[..i];
    WalkOrdered(rule, cells[..i], cells[i].x);
  }
}
