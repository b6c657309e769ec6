/** Polygon edges as `nsvg__addEdge` stores them, and the balance of closed contours: at every height the
    directions of the edges that cross it cancel. */
module Edges {
  import opened Seqs

  datatype Pt = Pt(x: real, y: real)

  /** A non-horizontal edge from its upper to its lower end; `dir` tells which way the contour ran. */
  datatype Edge = Edge(x0: real, y0: real, x1: real, y1: real, dir: int) {
    predicate WellFormed() {
      y0 < y1 && (dir == 1 || dir == -1)
    }

    /** The edge meets the horizontal line at height `s` (upper end included, lower end not). */
    predicate Crosses(s: real) {
      y0 <= s < y1
    }
  }

  ghost predicate AllWellFormed(es: seq<Edge>) {
    forall e :: e in es ==> e.WellFormed()
  }

  /** The edge `nsvg__addEdge` appends for the step from `a` to `b`, if any. */
  function EdgeOf(a: Pt, b: Pt): seq<Edge> {
    if a.y == b.y then []
    else if a.y < b.y then [Edge(a.x, a.y, b.x, b.y, 1)]
    else [Edge(b.x, b.y, a.x, a.y, -1)]
  }

  /** Sum of the directions of the edges that cross height `s`. */
  function Winding(es: seq<Edge>, s: real): int {
    if es == [] then 0 else Winding(es[..|es| - 1], s) + (if es[|es| - 1].Crosses(s) then es[|es| - 1].dir else 0)
  }

  /** Number of edges that cross height `s`. */
  function Crossings(es: seq<Edge>, s: real): nat {
    if es == [] then 0 else Crossings(es[..|es| - 1], s) + (if es[|es| - 1].Crosses(s) then 1 else 0)
  }

  function Upper(p: Pt, s: real): int {
    if p.y <= s then 1 else 0
  }

  lemma {:induction false} WindingConcat(a: seq<Edge>, b: seq<Edge>, s: real)
    ensures Winding(a + b, s) == Winding(a, s) + Winding(b, s)
    decreases |b|
  {
    if b == [] {
      assert a + b == a;
    } else {
      assert (a + b)[..|a + b| - 1] == a + b[..|b| - 1];
      WindingConcat(a, b[..|b| - 1], s);
    }
  }

  lemma EdgeOfWinding(a: Pt, b: Pt, s: real)
    ensures Winding(EdgeOf(a, b), s) == Upper(a, s) - Upper(b, s)
    ensures AllWellFormed(EdgeOf(a, b))
  {
    assert Winding([], s) == 0;
    if a.y != b.y {
      var e := EdgeOf(a, b)[0];
      assert [e][..0] == [];
    }
  }

  /** Parity follows from the sum: every direction is odd. */
  lemma {:induction false} CrossingsParity(es: seq<Edge>, s: real)
    requires AllWellFormed(es)
    ensures (Crossings(es, s) - Winding(es, s)) % 2 == 0
  {
    if es != [] {
      var e := es[|es| - 1];
      assert e in es;
      CrossingsParity(es[..|es| - 1], s);
    }
  }

  /** Both counts depend on the multiset of edges only, so sorting keeps them. */
  lemma {:induction false} WindingRemove(es: seq<Edge>, k: nat, s: real)
    requires k < |es|
    ensures Winding(es, s) == Winding(es[..k] + es[k + 1..], s) + (if es[k].Crosses(s) then es[k].dir else 0)
  {
    assert es == es[..k] + [es[k]] + es[k + 1..];
    WindingConcat(es[..k] + [es[k]], es[k + 1..], s);
    WindingConcat(es[..k], [es[k]], s);
    WindingConcat(es[..k], es[k + 1..], s);
    assert [es[k]][..0] == [] && Winding([], s) == 0;
  }

  lemma {:induction false} WindingPermutation(a: seq<Edge>, b: seq<Edge>, s: real)
    requires multiset(a) == multiset(b)
    ensures Winding(a, s) == Winding(b, s)
    decreases |a|
  {
    PermutationLength(a, b);
    if a != [] {
      var k := MatchLast(a, b);
      WindingPermutation(a[..|a| - 1], b[..k] + b[k + 1..], s);
      WindingRemove(b, k, s);
    }
  }

  /** Every height is crossed as often downwards as upwards, and so by an even number of edges. */
  ghost predicate Balanced(es: seq<Edge>) {
    forall s: real :: Winding(es, s) == 0 && Crossings(es, s) % 2 == 0
  }

  lemma BalancedFromWinding(es: seq<Edge>)
    requires AllWellFormed(es) && forall s: real :: Winding(es, s) == 0
    ensures Balanced(es)
  {
    forall s: real ensures Winding(es, s) == 0 && Crossings(es, s) % 2 == 0 {
      CrossingsParity(es, s);
    }
  }

  lemma BalancedPermutation(a: seq<Edge>, b: seq<Edge>)
    requires multiset(a) == multiset(b) && AllWellFormed(a) && Balanced(a)
    ensures AllWellFormed(b) && Balanced(b)
  {
    forall e | e in b ensures e in a {
      assert e in multiset(a);
    }
    forall s: real ensures Winding(b, s) == 0 {
      WindingPermutation(a, b, s);
    }
    BalancedFromWinding(b);
  }

  /** The edges of an open chain of points. */
  function ChainEdges(pts: seq<Pt>): seq<Edge> {
    if |pts| < 2 then [] else ChainEdges(pts[..|pts| - 1]) + EdgeOf(pts[|pts| - 2], pts[|pts| - 1])
  }

  /** The edges of a closed contour in the order of the code: first the closing edge, then the chain. */
  function ContourEdges(pts: seq<Pt>): seq<Edge> {
    if pts == [] then [] else EdgeOf(pts[|pts| - 1], pts[0]) + ChainEdges(pts)
  }

  /** The crossings of a chain telescope to its two ends. */
  lemma {:induction false} ChainWinding(pts: seq<Pt>, s: real)
    requires pts != []
    ensures Winding(ChainEdges(pts), s) == Upper(pts[0], s) - Upper(pts[|pts| - 1], s)
    ensures AllWellFormed(ChainEdges(pts))
  {
    if |pts| > 1 {
      ChainWinding(pts[..|pts| - 1], s);
      EdgeOfWinding(pts[|pts| - 2], pts[|pts| - 1], s);
      WindingConcat(ChainEdges(pts[..|pts| - 1]), EdgeOf(pts[|pts| - 2], pts[|pts| - 1]), s);
    }
  }

  /** A closed contour is balanced, whatever its points. */
  lemma ContourBalanced(pts: seq<Pt>)
    ensures AllWellFormed(ContourEdges(pts)) && Balanced(ContourEdges(pts))
  {
    if pts != [] {
      forall s: real
        ensures Winding(ContourEdges(pts), s) == 0 && AllWellFormed(ContourEdges(pts))
      {
        ChainWinding(pts, s);
        EdgeOfWinding(pts[|pts| - 1], pts[0], s);
        WindingConcat(EdgeOf(pts[|pts| - 1], pts[0]), ChainEdges(pts), s);
      }
      assert Winding(ContourEdges(pts), 0.0) == 0;
    }
    BalancedFromWinding(ContourEdges(pts));
  }

  lemma BalancedConcat(a: seq<Edge>, b: seq<Edge>)
    requires AllWellFormed(a) && Balanced(a) && AllWellFormed(b) && Balanced(b)
    ensures AllWellFormed(a + b) && Balanced(a + b)
  {
    forall s: real ensures Winding(a + b, s) == 0 {
      WindingConcat(a, b, s);
    }
    BalancedFromWinding(a + b);
  }

  const SUBSAMPLES := 5

  /** Image offset, then five sub-scanlines to a pixel row. */
  function PlaceEdge(e: Edge, tx: real, ty: real): Edge {
    Edge(tx + e.x0, (ty + e.y0) * SUBSAMPLES as real, tx + e.x1, (ty + e.y1) * SUBSAMPLES as real, e.dir)
  }

  function PlaceEdges(es: seq<Edge>, tx: real, ty: real): (r: seq<Edge>)
    ensures |r| == |es| && forall i :: 0 <= i < |es| ==> r[i] == PlaceEdge(es[i], tx, ty)
  {
    seq(|es|, i requires 0 <= i < |es| => PlaceEdge(es[i], tx, ty))
  }

  lemma {:induction false} PlaceWinding(es: seq<Edge>, tx: real, ty: real, s: real)
    ensures Winding(PlaceEdges(es, tx, ty), s) == Winding(es, s / SUBSAMPLES as real - ty)
  {
    if es != [] {
      assert PlaceEdges(es, tx, ty)[..|es| - 1] == PlaceEdges(es[..|es| - 1], tx, ty);
      PlaceWinding(es[..|es| - 1], tx, ty, s);
    }
  }

  /** Placing the edges in the image keeps them well formed and balanced. */
  lemma PlaceBalanced(es: seq<Edge>, tx: real, ty: real)
    requires AllWellFormed(es) && Balanced(es)
    ensures AllWellFormed(PlaceEdges(es, tx, ty)) && Balanced(PlaceEdges(es, tx, ty))
  {
    var r := PlaceEdges(es, tx, ty);
    forall e | e in r ensures e.WellFormed() {
      var i :| 0 <= i < |r| && r[i] == e;
      assert es[i].WellFormed();
    }
    forall s: real ensures Winding(r, s) == 0 {
      PlaceWinding(es, tx, ty, s);
    }
    BalancedFromWinding(r);
  }

  ghost predicate SortedByY0(es: seq<Edge>) {
    forall i, j :: 0 <= i < j < |es| ==> es[i].y0 <= es[j].y0
  }
}
