/** Inside and outside by where the edges really are, and not by the fixed-point abscissae of the active list: pixels
    that no edge comes near, in proportion to the steps it has taken, are filled exactly as the real edges say. */
module TrueFill {
  import opened Images
  import opened Edges
  import opened ActiveEdges
  import opened Scan
  import opened Coverage
  import opened Flatten
  import opened Paints
  import opened Blend
  import opened Raster
  import opened FillArea
  import opened Rasterize
  import opened Painting

  /** Where the edge crosses height `y`, in pixels. */
  function RealX(e: Edge, y: real): real
    requires e.WellFormed()
  {
    e.x0 + Slope(e) * (y - e.y0)
  }

  /** Winding number of the point at abscissa `a` on sub-scanline `n`, and number of crossings left of it. */
  function RealWinding(edges: seq<Edge>, k: nat, n: nat, a: real): int
    requires AllWellFormed(edges) && k <= |edges|
  {
    if k == 0 then 0
    else RealWinding(edges, k - 1, n, a) + (if LeftOf(edges[k - 1], n, a) then edges[k - 1].dir else 0)
  }

  function RealCount(edges: seq<Edge>, k: nat, n: nat, a: real): nat
    requires AllWellFormed(edges) && k <= |edges|
  {
    if k == 0 then 0 else RealCount(edges, k - 1, n, a) + (if LeftOf(edges[k - 1], n, a) then 1 else 0)
  }

  predicate LeftOf(e: Edge, n: nat, a: real)
    requires e.WellFormed()
  {
    Live(e, n) && RealX(e, ScanY(n)) <= a
  }

  /** The fill rules of section 11.3 of SVG 1.1 on the real edges. */
  predicate RealInside(rule: FillRule, edges: seq<Edge>, n: nat, a: real)
    requires AllWellFormed(edges)
  {
    match rule
    case NonZero => RealWinding(edges, |edges|, n, a) != 0
    case EvenOdd => RealCount(edges, |edges|, n, a) % 2 == 1
  }

  /** On sub-scanline `n` the edge keeps away from pixel column `x` by 1/1024 for every step it has taken. */
  predicate KeepsAway(e: Edge, n: nat, x: nat)
    requires e.WellFormed()
  {
    Live(e, n) ==>
      var slack := (if FirstScan(e) <= n then n - FirstScan(e) else 0) as real / FIX as real;
      RealX(e, ScanY(n)) <= x as real - slack || RealX(e, ScanY(n)) >= x as real + 1.0 + slack
  }

  ghost predicate AllKeepAway(edges: seq<Edge>, n: nat, x: nat)
    requires AllWellFormed(edges)
  {
    forall e :: e in edges ==> KeepsAway(e, n, x)
  }

  lemma TrueXIs(e: Edge, y: real)
    requires e.WellFormed()
    ensures TrueX(e, y) == FIX as real * RealX(e, y)
  {
    hide Slope;
  }

  /** Its cell lies on the same side of every fixed-point abscissa of the column as the edge does of every real one. */
  lemma SameSide(e: Edge, n: nat, x: nat, p: int, a: real)
    requires e.WellFormed() && Live(e, n) && KeepsAway(e, n, x)
    requires FIX * x <= p < FIX * x + FIX && x as real <= a < x as real + 1.0
    ensures FirstScan(e) <= n && (CellAt(e, n).x <= p <==> RealX(e, ScanY(n)) <= a)
    ensures CellAt(e, n).x <= FIX * x || FIX * (x + 1) <= CellAt(e, n).x
  {
    FirstScanIsFirst(e, n);
    CellDrift(e, n);
    TrueXIs(e, ScanY(n));
    var c, r := CellAt(e, n).x, RealX(e, ScanY(n));
    hide FirstScan, CellAt, TrueX, RealX, Slope;
    var k := (n - FirstScan(e)) as real;
    assert r <= x as real - k / 1024.0 || r >= x as real + 1.0 + k / 1024.0;
    if r <= x as real - k / 1024.0 {
      assert c as real <= (FIX * x) as real;
    } else {
      assert c as real > (FIX * (x + 1)) as real - 1.0;
    }
  }

  lemma {:induction false} SameWinding(edges: seq<Edge>, k: nat, n: nat, x: nat, p: int, a: real)
    requires AllWellFormed(edges) && k <= |edges| && AllKeepAway(edges, n, x)
    requires FIX * x <= p < FIX * x + FIX && x as real <= a < x as real + 1.0
    ensures WindingAt(LiveCells(edges, k, n), p) == RealWinding(edges, k, n, a)
    ensures CountAt(LiveCells(edges, k, n), p) == RealCount(edges, k, n, a)
    ensures NoCellWithin(LiveCells(edges, k, n), x)
  {
    hide OneCell, LeftOf, KeepsAway, WindingAt, CountAt, NoCellWithin;
    if k == 0 {
      NoCells(x, p);
    } else {
      var e := edges[k - 1];
      assert e in edges;
      SameWinding(edges, k - 1, n, x, p, a);
      SameCell(e, n, x, p, a);
      WindingAtConcat(LiveCells(edges, k - 1, n), OneCell(e, n), p);
      NoneWithinBoth(LiveCells(edges, k - 1, n), OneCell(e, n), x);
    }
  }

  lemma NoCells(x: int, p: int)
    ensures WindingAt([], p) == 0 && CountAt([], p) == 0 && NoCellWithin([], x)
  {
  }

  lemma NoneWithinBoth(a: seq<Cell>, b: seq<Cell>, x: int)
    requires NoCellWithin(a, x) && NoCellWithin(b, x)
    ensures NoCellWithin(a + b, x)
  {
  }

  lemma SameCell(e: Edge, n: nat, x: nat, p: int, a: real)
    requires e.WellFormed() && KeepsAway(e, n, x)
    requires FIX * x <= p < FIX * x + FIX && x as real <= a < x as real + 1.0
    ensures WindingAt(OneCell(e, n), p) == if LeftOf(e, n, a) then e.dir else 0
    ensures CountAt(OneCell(e, n), p) == if LeftOf(e, n, a) then 1 else 0
    ensures NoCellWithin(OneCell(e, n), x)
  {
    hide RealX, FirstScan, KeepsAway, Live;
    FirstScanIsFirst(e, n);
    if Live(e, n) {
      SameSide(e, n, x, p, a);
      var c := CellAt(e, n);
      assert c.dir == e.dir;
      hide CellAt;
      OneWinding(c, p);
      assert OneCell(e, n) == [c];
    }
  }

  lemma OneWinding(c: Cell, p: int)
    ensures WindingAt([c], p) == if c.x <= p then c.dir else 0
    ensures CountAt([c], p) == if c.x <= p then 1 else 0
  {
    assert [c][..0] == [];
  }

  /** Where all edges keep away, the whole pixel column is inside or outside as the real edges say, at whatever real
      abscissa of it they are asked. */
  lemma SameInside(edges: seq<Edge>, rule: FillRule, n: nat, x: nat, a: real)
    requires AllWellFormed(edges) && AllKeepAway(edges, n, x) && x as real <= a < x as real + 1.0
    ensures if RealInside(rule, edges, n, a) then InteriorAt(edges, rule, n, x) else ExteriorAt(edges, rule, n, x)
  {
    hide WindingAt, CountAt, RealWinding, RealCount, AllKeepAway, LiveCells, NoCellWithin;
    forall p: int | FIX * x <= p < FIX * x + FIX
      ensures Inside(rule, LiveCells(edges, |edges|, n), p) <==> RealInside(rule, edges, n, a)
      ensures NoCellWithin(LiveCells(edges, |edges|, n), x)
    {
      SameWinding(edges, |edges|, n, x, p, a);
    }
    assert FIX * x <= FIX * x < FIX * x + FIX;
  }

  /** On sub-scanline `n` the edges keep away from pixel column `x`, and it is really inside, or outside. */
  ghost predicate ReallyOn(edges: seq<Edge>, rule: FillRule, n: nat, x: nat, inside: bool)
    requires AllWellFormed(edges)
  {
    AllKeepAway(edges, n, x) && (RealInside(rule, edges, n, x as real) <==> inside)
  }

  /** So it is on all sub-scanlines of row `y`. */
  ghost predicate Really(edges: seq<Edge>, rule: FillRule, y: nat, x: nat, inside: bool)
    requires AllWellFormed(edges)
  {
    forall n: nat :: SUBSAMPLES * y <= n < SUBSAMPLES * (y + 1) ==> ReallyOn(edges, rule, n, x, inside)
  }

  lemma ReallyIs(edges: seq<Edge>, rule: FillRule, y: nat, x: nat, inside: bool)
    requires AllWellFormed(edges) && Really(edges, rule, y, x, inside)
    ensures if inside then Interior(edges, rule, y, x) else Exterior(edges, rule, y, x)
  {
    hide RealInside, AllKeepAway, InteriorAt, ExteriorAt;
    forall n: nat | SUBSAMPLES * y <= n < SUBSAMPLES * (y + 1)
      ensures if inside then InteriorAt(edges, rule, n, x) else ExteriorAt(edges, rule, n, x)
    {
      assert ReallyOn(edges, rule, n, x, inside);
      SameInside(edges, rule, n, x, x as real);
    }
  }

  /** A fill covers by 255 of 255 every pixel that is really inside its shape, and not at all every pixel that is really
      outside, if no edge comes too near to the pixel. */
  lemma RealFillCover(l: Layer, h: nat, s: Shape, view: View, sort: seq<Edge> -> seq<Edge>, y: nat, x: nat,
                      inside: bool)
    requires LayerOk(l, h) && y < h && Sorts(sort) && s.fill.Drawable() && l.job == FillJob(s, view, sort)
    requires Really(l.job.edges, l.job.rule, y, x, inside)
    ensures CoverOf(l, y, x) == if inside then 255 else 0
  {
    hide FillJob, Sorts, Really, Interior, Exterior, CoverOf, RowOk;
    ReallyIs(l.job.edges, l.job.rule, y, x, inside);
    FillCover(l, h, s, view, sort, y, x);
  }
}
