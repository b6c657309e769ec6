/** Where a shape is, from its contours alone: which points of the image they enclose by a fill rule. The edges that the
    rasterizer makes of them say the same. */
module ShapeSides {
  import opened Seqs
  import opened Edges
  import opened Flatten
  import opened Scan
  import opened Coverage
  import opened TrueFill
  import opened Rasterize

  /** The sides of a closed polygon. */
  function ContourSides(pts: seq<Pt>): seq<(Pt, Pt)> {
    if pts == [] then [] else [(pts[|pts| - 1], pts[0])] + ChainSides(pts)
  }

  function ChainSides(pts: seq<Pt>): seq<(Pt, Pt)> {
    if |pts| < 2 then [] else ChainSides(pts[..|pts| - 1]) + [(pts[|pts| - 2], pts[|pts| - 1])]
  }

  /** The sides of all contours of a shape, at the scale of the image. */
  function SidesOf(paths: seq<PathPts>, sx: real, sy: real): seq<(Pt, Pt)> {
    if paths == [] then []
    else SidesOf(paths[..|paths| - 1], sx, sy) + ContourSides(Points(Contour(paths[|paths| - 1], sx, sy)))
  }

  /** Height of the `n`-th sub-scanline in the image: five to a row, each at its centre. */
  function Height(n: nat): real {
    (n as real + 0.5) / 5.0
  }

  /** The side, shifted down by `ty`, crosses height `y`. */
  predicate Meets(side: (Pt, Pt), ty: real, y: real) {
    var p, q := side.0.y + ty, side.1.y + ty;
    p <= y < q || q <= y < p
  }

  function Downwards(side: (Pt, Pt)): int {
    if side.0.y < side.1.y then 1 else -1
  }

  /** Where it does, shifted right by `tx`. */
  function MeetsAt(side: (Pt, Pt), tx: real, ty: real, y: real): real
    requires side.0.y != side.1.y
  {
    side.0.x + tx + (side.1.x - side.0.x) * ((y - ty - side.0.y) / (side.1.y - side.0.y))
  }

  predicate MeetsLeft(side: (Pt, Pt), tx: real, ty: real, y: real, a: real) {
    Meets(side, ty, y) && MeetsAt(side, tx, ty, y) <= a
  }

  /** Winding number of the point (a, y), and how often the sides cross the ray to its left. */
  function Around(sides: seq<(Pt, Pt)>, tx: real, ty: real, y: real, a: real): int {
    if sides == [] then 0
    else
      var last := sides[|sides| - 1];
      Around(sides[..|sides| - 1], tx, ty, y, a) + (if MeetsLeft(last, tx, ty, y, a) then Downwards(last) else 0)
  }

  function CrossedBy(sides: seq<(Pt, Pt)>, tx: real, ty: real, y: real, a: real): nat {
    if sides == [] then 0
    else
      CrossedBy(sides[..|sides| - 1], tx, ty, y, a) + (if MeetsLeft(sides[|sides| - 1], tx, ty, y, a) then 1 else 0)
  }

  /** The fill rules of section 11.3 of SVG 1.1. */
  predicate Encloses(sides: seq<(Pt, Pt)>, rule: FillRule, tx: real, ty: real, y: real, a: real) {
    match rule
    case NonZero => Around(sides, tx, ty, y, a) != 0
    case EvenOdd => CrossedBy(sides, tx, ty, y, a) % 2 == 1
  }

  /** At height `y` the side keeps away from pixel column `x`, by 5/1024 of how far it has come down. */
  predicate Clears(side: (Pt, Pt), tx: real, ty: real, y: real, x: nat) {
    Meets(side, ty, y) ==>
      var top := ty + if side.0.y < side.1.y then side.0.y else side.1.y;
      var slack := 5.0 * (y - top) / 1024.0;
      MeetsAt(side, tx, ty, y) <= x as real - slack || MeetsAt(side, tx, ty, y) >= x as real + 1.0 + slack
  }

  ghost predicate AllClear(sides: seq<(Pt, Pt)>, tx: real, ty: real, y: real, x: nat) {
    forall i :: 0 <= i < |sides| ==> Clears(sides[i], tx, ty, y, x)
  }

  // The edges that stand for the sides.

  lemma {:induction false} SegmentEdgesConcat(a: seq<(Pt, Pt)>, b: seq<(Pt, Pt)>)
    ensures SegmentEdges(a + b) == SegmentEdges(a) + SegmentEdges(b)
    decreases |b|
  {
    hide EdgeOf;
    if b == [] {
      assert a + b == a;
    } else {
      assert (a + b)[..|a + b| - 1] == a + b[..|b| - 1];
      SegmentEdgesConcat(a, b[..|b| - 1]);
    }
  }

  lemma SegmentEdgesOne(side: (Pt, Pt))
    ensures SegmentEdges([side]) == EdgeOf(side.0, side.1)
  {
    hide EdgeOf;
    assert [side][..0] == [];
  }

  lemma {:induction false} ChainSidesEdges(pts: seq<Pt>)
    ensures SegmentEdges(ChainSides(pts)) == ChainEdges(pts)
  {
    hide EdgeOf;
    if |pts| >= 2 {
      ChainSidesEdges(pts[..|pts| - 1]);
      var side := (pts[|pts| - 2], pts[|pts| - 1]);
      SegmentEdgesConcat(ChainSides(pts[..|pts| - 1]), [side]);
      SegmentEdgesOne(side);
    }
  }

  lemma ContourSidesEdges(pts: seq<Pt>)
    ensures SegmentEdges(ContourSides(pts)) == ContourEdges(pts)
  {
    hide EdgeOf, ChainSides, ChainEdges;
    if pts != [] {
      var side := (pts[|pts| - 1], pts[0]);
      ChainSidesEdges(pts);
      SegmentEdgesConcat([side], ChainSides(pts));
      SegmentEdgesOne(side);
    }
  }

  lemma {:induction false} SidesOfEdges(paths: seq<PathPts>, sx: real, sy: real)
    ensures SegmentEdges(SidesOf(paths, sx, sy)) == ShapeEdges(paths, sx, sy)
  {
    hide Contour, ContourSides, ContourEdges;
    if paths != [] {
      var pts := Points(Contour(paths[|paths| - 1], sx, sy));
      SidesOfEdges(paths[..|paths| - 1], sx, sy);
      ContourSidesEdges(pts);
      SegmentEdgesConcat(SidesOf(paths[..|paths| - 1], sx, sy), ContourSides(pts));
    }
  }

  lemma InterpolateScaled(y: real, y0: real, y1: real, ty: real, dx: real)
    requires y0 < y1
    ensures dx / ((ty + y1) * 5.0 - (ty + y0) * 5.0) * (y * 5.0 - (ty + y0) * 5.0) == dx * ((y - ty - y0) / (y1 - y0))
  {
    var d, u := y1 - y0, y - ty - y0;
    assert (ty + y1) * 5.0 - (ty + y0) * 5.0 == 5.0 * d;
    assert y * 5.0 - (ty + y0) * 5.0 == 5.0 * u;
    Cancel(dx, d, u);
  }

  lemma QuotientIs(a: real, b: real, q: real)
    requires b != 0.0 && q * b == a
    ensures a / b == q
  {
  }

  lemma QuotientTimes(a: real, b: real)
    requires b != 0.0
    ensures a / b * b == a
  {
  }

  lemma Cancel(dx: real, d: real, u: real)
    requires d > 0.0
    ensures dx / (5.0 * d) * (5.0 * u) == dx * (u / d)
  {
    var g, k := dx / d, u / d;
    QuotientTimes(dx, d);
    QuotientTimes(u, d);
    Fifth(g, d);
    QuotientIs(dx, 5.0 * d, g / 5.0);
    Regrouped(g, k, d);
    FiveFifths(g, u);
  }

  lemma Fifth(g: real, d: real)
    ensures g / 5.0 * (5.0 * d) == g * d
  {
  }

  lemma FiveFifths(g: real, u: real)
    ensures g / 5.0 * (5.0 * u) == g * u
  {
  }

  lemma Regrouped(m: real, k: real, d: real)
    ensures m * (k * d) == m * d * k
  {
  }

  /** Counted from either end, the crossing is the same. */
  lemma FromOtherEnd(x0: real, x1: real, y0: real, y1: real, u: real)
    requires y0 < y1
    ensures x0 + (x1 - x0) * ((u - y0) / (y1 - y0)) == x1 + (x0 - x1) * ((u - y1) / (y0 - y1))
  {
    var d, v := y1 - y0, u - y0;
    var k := v / d;
    QuotientTimes(v, d);
    Complement(k, d);
    QuotientIs(u - y1, y0 - y1, 1.0 - k);
    Mirrored(x0, x1, k);
  }

  lemma Complement(k: real, d: real)
    ensures (1.0 - k) * -d == k * d - d
  {
  }

  lemma Mirrored(x0: real, x1: real, k: real)
    ensures x0 + (x1 - x0) * k == x1 + (x0 - x1) * (1.0 - k)
  {
  }

  /** The edge of a side in the image. */
  function PlacedEdge(side: (Pt, Pt), tx: real, ty: real): Edge
    requires side.0.y != side.1.y
  {
    PlaceEdge(EdgeOf(side.0, side.1)[0], tx, ty)
  }

  /** It is live where the side meets the sub-scanline, at the same place and in the same direction. */
  lemma SideEdge(side: (Pt, Pt), tx: real, ty: real, n: nat)
    requires side.0.y != side.1.y
    ensures var e := PlacedEdge(side, tx, ty);
            && e.WellFormed() && e.dir == Downwards(side)
            && (Live(e, n) <==> Meets(side, ty, Height(n)))
            && RealX(e, ScanY(n)) == MeetsAt(side, tx, ty, Height(n))
  {
    EdgePlace(side, tx, ty, n);
    hide RealX, MeetsAt;
  }

  lemma EdgePlace(side: (Pt, Pt), tx: real, ty: real, n: nat)
    requires side.0.y != side.1.y
    ensures var e := PlacedEdge(side, tx, ty);
            e.WellFormed() && RealX(e, ScanY(n)) == MeetsAt(side, tx, ty, Height(n))
  {
    var p, q, y := side.0, side.1, Height(n);
    assert ScanY(n) == y * 5.0;
    if p.y < q.y {
      InterpolateScaled(y, p.y, q.y, ty, q.x - p.x);
    } else {
      InterpolateScaled(y, q.y, p.y, ty, p.x - q.x);
      FromOtherEnd(q.x, p.x, q.y, p.y, y - ty);
    }
  }

  lemma EdgeSlack(side: (Pt, Pt), tx: real, ty: real, n: nat, x: nat)
    requires side.0.y != side.1.y && Clears(side, tx, ty, Height(n), x)
    ensures PlacedEdge(side, tx, ty).WellFormed() && KeepsAway(PlacedEdge(side, tx, ty), n, x)
  {
    SideEdge(side, tx, ty, n);
    var e := PlacedEdge(side, tx, ty);
    var top := ty + if side.0.y < side.1.y then side.0.y else side.1.y;
    assert e.y0 == top * 5.0;
    FirstScanIsFirst(e, n);
    if Live(e, n) {
      StepsTaken(e, n);
    }
    hide FirstScan, RealX, MeetsAt, PlacedEdge, Slope;
  }

  lemma StepsTaken(e: Edge, n: nat)
    requires e.y0 <= ScanY(n)
    ensures FirstScan(e) <= n && (n - FirstScan(e)) as real <= ScanY(n) - e.y0
  {
  }

  /** What the edges of an array say together. */
  function WindingOf(es: seq<Edge>, n: nat, a: real): int
    requires AllWellFormed(es)
  {
    RealWinding(es, |es|, n, a)
  }

  function CountOf(es: seq<Edge>, n: nat, a: real): nat
    requires AllWellFormed(es)
  {
    RealCount(es, |es|, n, a)
  }

  lemma {:induction false} WindingOfPrefix(a: seq<Edge>, b: seq<Edge>, k: nat, n: nat, x: real)
    requires AllWellFormed(a) && AllWellFormed(a + b) && k <= |a|
    ensures RealWinding(a + b, k, n, x) == RealWinding(a, k, n, x)
    ensures RealCount(a + b, k, n, x) == RealCount(a, k, n, x)
  {
    hide LeftOf;
    if k > 0 {
      WindingOfPrefix(a, b, k - 1, n, x);
    }
  }

  lemma {:induction false} WindingOfConcat(a: seq<Edge>, b: seq<Edge>, n: nat, x: real)
    requires AllWellFormed(a) && AllWellFormed(b)
    ensures AllWellFormed(a + b)
    ensures WindingOf(a + b, n, x) == WindingOf(a, n, x) + WindingOf(b, n, x)
    ensures CountOf(a + b, n, x) == CountOf(a, n, x) + CountOf(b, n, x)
    decreases |b|
  {
    hide LeftOf;
    if b == [] {
      assert a + b == a;
    } else {
      var front := b[..|b| - 1];
      WindingOfConcat(a, front, n, x);
      assert a + b == a + front + [b[|b| - 1]] && b == front + [b[|b| - 1]];
      WindingOfPrefix(a + front, [b[|b| - 1]], |a + front|, n, x);
      WindingOfPrefix(front, [b[|b| - 1]], |front|, n, x);
    }
  }

  lemma WindingOfOne(e: Edge, n: nat, x: real)
    requires e.WellFormed()
    ensures AllWellFormed([e])
    ensures WindingOf([e], n, x) == if LeftOf(e, n, x) then e.dir else 0
    ensures CountOf([e], n, x) == if LeftOf(e, n, x) then 1 else 0
  {
    hide LeftOf;
    assert RealWinding([e], 0, n, x) == 0 && RealCount([e], 0, n, x) == 0;
  }

  lemma WindingOfRemove(b: seq<Edge>, k: nat, n: nat, x: real)
    requires AllWellFormed(b) && k < |b|
    ensures AllWellFormed(b[..k] + b[k + 1..]) && b[k].WellFormed()
    ensures WindingOf(b, n, x) == WindingOf(b[..k] + b[k + 1..], n, x) + (if LeftOf(b[k], n, x) then b[k].dir else 0)
    ensures CountOf(b, n, x) == CountOf(b[..k] + b[k + 1..], n, x) + (if LeftOf(b[k], n, x) then 1 else 0)
  {
    hide LeftOf, WindingOf, CountOf;
    var front, back, e := b[..k], b[k + 1..], b[k];
    assert b == front + [e] + back;
    assert e in b && AllWellFormed(front) && AllWellFormed(back);
    WindingOfOne(e, n, x);
    WindingOfConcat(front, [e], n, x);
    WindingOfConcat(front + [e], back, n, x);
    WindingOfConcat(front, back, n, x);
  }

  lemma {:induction false} WindingOfPermutation(a: seq<Edge>, b: seq<Edge>, n: nat, x: real)
    requires multiset(a) == multiset(b) && AllWellFormed(a) && AllWellFormed(b)
    ensures WindingOf(a, n, x) == WindingOf(b, n, x) && CountOf(a, n, x) == CountOf(b, n, x)
    decreases |a|
  {
    hide LeftOf;
    PermutationLength(a, b);
    if a != [] {
      var k := MatchLast(a, b);
      WindingOfRemove(b, k, n, x);
      WindingOfRemove(a, |a| - 1, n, x);
      assert a[..|a| - 1] + a[|a|..] == a[..|a| - 1];
      hide WindingOf, CountOf;
      WindingOfPermutation(a[..|a| - 1], b[..k] + b[k + 1..], n, x);
    }
  }

  lemma PlaceConcat(a: seq<Edge>, b: seq<Edge>, tx: real, ty: real)
    ensures PlaceEdges(a + b, tx, ty) == PlaceEdges(a, tx, ty) + PlaceEdges(b, tx, ty)
  {
    hide PlaceEdge;
  }

  /** The placed edges of one side. */
  lemma PlacedSide(side: (Pt, Pt), tx: real, ty: real, n: nat, x: real)
    ensures var es := PlaceEdges(EdgeOf(side.0, side.1), tx, ty);
            && AllWellFormed(es)
            && WindingOf(es, n, x) == (if MeetsLeft(side, tx, ty, Height(n), x) then Downwards(side) else 0)
            && CountOf(es, n, x) == (if MeetsLeft(side, tx, ty, Height(n), x) then 1 else 0)
  {
    var es := PlaceEdges(EdgeOf(side.0, side.1), tx, ty);
    if side.0.y == side.1.y {
      assert es == [];
    } else {
      SideEdge(side, tx, ty, n);
      var e := PlacedEdge(side, tx, ty);
      assert es == [e];
      hide PlacedEdge, RealX, MeetsAt, Meets, Live;
      WindingOfOne(e, n, x);
    }
  }

  /** The edges of the sides wind round a point as the sides do. */
  lemma {:induction false} PlacedSides(sides: seq<(Pt, Pt)>, tx: real, ty: real, n: nat, x: real)
    ensures var es := PlaceEdges(SegmentEdges(sides), tx, ty);
            && AllWellFormed(es)
            && WindingOf(es, n, x) == Around(sides, tx, ty, Height(n), x)
            && CountOf(es, n, x) == CrossedBy(sides, tx, ty, Height(n), x)
  {
    hide EdgeOf, MeetsLeft, Downwards, WindingOf, CountOf, Height;
    if sides == [] {
      assert PlaceEdges([], tx, ty) == [];
      NoWinding(n, x);
    } else {
      var last := sides[|sides| - 1];
      PlacedSides(sides[..|sides| - 1], tx, ty, n, x);
      PlacedSide(last, tx, ty, n, x);
      PlaceConcat(SegmentEdges(sides[..|sides| - 1]), EdgeOf(last.0, last.1), tx, ty);
      WindingOfConcat(PlaceEdges(SegmentEdges(sides[..|sides| - 1]), tx, ty),
                      PlaceEdges(EdgeOf(last.0, last.1), tx, ty), n, x);
    }
  }

  lemma NoWinding(n: nat, x: real)
    ensures AllWellFormed([]) && WindingOf([], n, x) == 0 && CountOf([], n, x) == 0
  {
  }

  lemma {:induction false} PlacedAway(sides: seq<(Pt, Pt)>, tx: real, ty: real, n: nat, x: nat)
    requires AllClear(sides, tx, ty, Height(n), x)
    ensures var es := PlaceEdges(SegmentEdges(sides), tx, ty); AllWellFormed(es) && AllKeepAway(es, n, x)
  {
    hide EdgeOf, Clears, KeepsAway, Height;
    if sides == [] {
      assert PlaceEdges([], tx, ty) == [];
    } else {
      var front, last := sides[..|sides| - 1], sides[|sides| - 1];
      PlacedAway(front, tx, ty, n, x);
      OneAway(last, tx, ty, n, x);
      PlaceConcat(SegmentEdges(front), EdgeOf(last.0, last.1), tx, ty);
    }
  }

  lemma OneAway(side: (Pt, Pt), tx: real, ty: real, n: nat, x: nat)
    requires Clears(side, tx, ty, Height(n), x)
    ensures var es := PlaceEdges(EdgeOf(side.0, side.1), tx, ty); AllWellFormed(es) && AllKeepAway(es, n, x)
  {
    if side.0.y == side.1.y {
      assert PlaceEdges(EdgeOf(side.0, side.1), tx, ty) == [];
    } else {
      EdgeSlack(side, tx, ty, n, x);
      var e := PlacedEdge(side, tx, ty);
      assert PlaceEdges(EdgeOf(side.0, side.1), tx, ty) == [e];
      hide KeepsAway, PlacedEdge, Clears;
    }
  }

  /** At the height of sub-scanline `n` the sides keep away from column `x`, and enclose it, or do not. */
  ghost predicate DecidedAt(sides: seq<(Pt, Pt)>, rule: FillRule, tx: real, ty: real, n: nat, x: nat, inside: bool) {
    AllClear(sides, tx, ty, Height(n), x) && (Encloses(sides, rule, tx, ty, Height(n), x as real) <==> inside)
  }

  /** So it is on every sub-scanline of row `y`. */
  ghost predicate Decided(sides: seq<(Pt, Pt)>, rule: FillRule, tx: real, ty: real, y: nat, x: nat, inside: bool) {
    forall n: nat :: 5 * y <= n < 5 * y + 5 ==> DecidedAt(sides, rule, tx, ty, n, x, inside)
  }

  /** However the edges are sorted, they decide the pixel as the sides do. */
  lemma DecidedReally(sides: seq<(Pt, Pt)>, rule: FillRule, tx: real, ty: real, es: seq<Edge>, y: nat, x: nat,
                      inside: bool)
    requires AllWellFormed(es) && multiset(es) == multiset(PlaceEdges(SegmentEdges(sides), tx, ty))
    requires Decided(sides, rule, tx, ty, y, x, inside)
    ensures Really(es, rule, y, x, inside)
  {
    hide ReallyOn, DecidedAt;
    forall n: nat | SUBSAMPLES * y <= n < SUBSAMPLES * (y + 1) ensures ReallyOn(es, rule, n, x, inside) {
      assert DecidedAt(sides, rule, tx, ty, n, x, inside);
      DecidedLine(sides, rule, tx, ty, es, n, x, inside);
    }
  }

  lemma DecidedLine(sides: seq<(Pt, Pt)>, rule: FillRule, tx: real, ty: real, es: seq<Edge>, n: nat, x: nat,
                    inside: bool)
    requires AllWellFormed(es) && multiset(es) == multiset(PlaceEdges(SegmentEdges(sides), tx, ty))
    requires DecidedAt(sides, rule, tx, ty, n, x, inside)
    ensures ReallyOn(es, rule, n, x, inside)
  {
    hide AllClear, Encloses, AllKeepAway, RealInside;
    DecidedOn(sides, rule, tx, ty, es, n, x);
  }

  lemma DecidedOn(sides: seq<(Pt, Pt)>, rule: FillRule, tx: real, ty: real, es: seq<Edge>, n: nat, x: nat)
    requires AllWellFormed(es) && multiset(es) == multiset(PlaceEdges(SegmentEdges(sides), tx, ty))
    requires AllClear(sides, tx, ty, Height(n), x)
    ensures AllKeepAway(es, n, x)
    ensures RealInside(rule, es, n, x as real) <==> Encloses(sides, rule, tx, ty, Height(n), x as real)
  {
    hide AllClear, Around, CrossedBy, Height, KeepsAway, RealWinding, RealCount;
    var placed := PlaceEdges(SegmentEdges(sides), tx, ty);
    PlacedAway(sides, tx, ty, n, x);
    PlacedSides(sides, tx, ty, n, x as real);
    WindingOfPermutation(es, placed, n, x as real);
    forall e | e in es ensures KeepsAway(e, n, x) {
      assert e in multiset(es);
      assert e in multiset(placed);
    }
  }
}
