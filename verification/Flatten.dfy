/** Flattening of shapes into polygon edges: `nsvg__addPathPoint`, `nsvg__addEdge`, `nsvg__flattenCubicBez`
    and `nsvg__flattenShape`, on the growing point and edge lists of the rasterizer. */
module Flatten {
  import opened Edges
  import opened Bezier

  datatype PathPoint = PathPoint(pt: Pt, corner: bool)

  predicate Near(a: Pt, b: Pt) {
    var dx, dy := b.x - a.x, b.y - a.y;
    dx * dx + dy * dy < DIST_TOL * DIST_TOL
  }

  /** What `nsvg__addPathPoint` makes of the point list: a point too near to the last one only adds its flag. */
  function AddPoint(pts: seq<PathPoint>, pt: Pt, corner: bool): seq<PathPoint> {
    if pts != [] && Near(pts[|pts| - 1].pt, pt)
    then pts[..|pts| - 1] + [pts[|pts| - 1].(corner := pts[|pts| - 1].corner || corner)]
    else pts + [PathPoint(pt, corner)]
  }

  function AddLeaves(pts: seq<PathPoint>, ls: seq<Leaf>): seq<PathPoint> {
    if ls == [] then pts
    else AddPoint(AddLeaves(pts, ls[..|ls| - 1]), ls[|ls| - 1].piece.p4, ls[|ls| - 1].corner)
  }

  lemma AddNoLeaf(pts: seq<PathPoint>)
    ensures AddLeaves(pts, []) == pts
  {
  }

  lemma AddOneLeaf(pts: seq<PathPoint>, l: Leaf)
    ensures AddLeaves(pts, [l]) == AddPoint(pts, l.piece.p4, l.corner)
  {
    hide AddPoint;
    assert [l][..0] == [];
  }

  lemma {:induction false} AddLeavesConcat(pts: seq<PathPoint>, a: seq<Leaf>, b: seq<Leaf>)
    ensures AddLeaves(pts, a + b) == AddLeaves(AddLeaves(pts, a), b)
    decreases |b|
  {
    hide AddPoint;
    if b == [] {
      assert a + b == a;
    } else {
      assert (a + b)[..|a + b| - 1] == a + b[..|b| - 1];
      AddLeavesConcat(pts, a, b[..|b| - 1]);
    }
  }

  /** A path as the parser stores it: 1 + 3n points. */
  type PathPts = s: seq<Pt> | |s| % 3 == 1 witness [Pt(0.0, 0.0)]

  function Scaled(p: Pt, sx: real, sy: real): Pt {
    Pt(p.x * sx, p.y * sy)
  }

  function Segment(path: PathPts, i: nat, sx: real, sy: real): Cubic
    requires 3 * i + 3 < |path|
  {
    Cubic(Scaled(path[3 * i], sx, sy), Scaled(path[3 * i + 1], sx, sy),
          Scaled(path[3 * i + 2], sx, sy), Scaled(path[3 * i + 3], sx, sy))
  }

  /** The points after the first `n` segments of a path. */
  function PathPoints(path: PathPts, n: nat, sx: real, sy: real): seq<PathPoint>
    requires 3 * n < |path|
  {
    if n == 0 then AddPoint([], Scaled(path[0], sx, sy), false)
    else AddLeaves(PathPoints(path, n - 1, sx, sy), Leaves(Segment(path, n - 1, sx, sy), 0, false, 0, 1024))
  }

  /** The flattened contour of a path, its first point added again to close it. */
  function Contour(path: PathPts, sx: real, sy: real): seq<PathPoint> {
    AddPoint(PathPoints(path, (|path| - 1) / 3, sx, sy), Scaled(path[0], sx, sy), false)
  }

  function Points(pts: seq<PathPoint>): (r: seq<Pt>)
    ensures |r| == |pts| && forall i :: 0 <= i < |pts| ==> r[i] == pts[i].pt
  {
    seq(|pts|, i requires 0 <= i < |pts| => pts[i].pt)
  }

  /** The edges of a shape: the closed contours of its paths, one after the other. */
  function ShapeEdges(paths: seq<PathPts>, sx: real, sy: real): seq<Edge> {
    if paths == [] then []
    else ShapeEdges(paths[..|paths| - 1], sx, sy) + ContourEdges(Points(Contour(paths[|paths| - 1], sx, sy)))
  }

  /** The edges of every shape balance, whatever its paths: each contour is closed before its edges are built. */
  lemma {:induction false} ShapeBalanced(paths: seq<PathPts>, sx: real, sy: real)
    ensures AllWellFormed(ShapeEdges(paths, sx, sy)) && Balanced(ShapeEdges(paths, sx, sy))
  {
    hide Contour, Balanced;
    if paths == [] {
      ContourBalanced([]);
    } else {
      var last := Points(Contour(paths[|paths| - 1], sx, sy));
      ShapeBalanced(paths[..|paths| - 1], sx, sy);
      ContourBalanced(last);
      BalancedConcat(ShapeEdges(paths[..|paths| - 1], sx, sy), ContourEdges(last));
    }
  }

  /** The point and edge lists of the rasterizer. */
  class Flattener {
    var points: seq<PathPoint>
    var edges: seq<Edge>

    constructor ()
      ensures points == [] && edges == []
    {
      points, edges := [], [];
    }

    /** `nsvg__addPathPoint`. */
    method AddPathPoint(x: real, y: real, corner: bool)
      modifies this`points
      ensures points == AddPoint(old(points), Pt(x, y), corner)
    {
      if |points| > 0 {
        var pt := points[|points| - 1];
        if Near(pt.pt, Pt(x, y)) {
          points := points[..|points| - 1] + [pt.(corner := pt.corner || corner)];
          return;
        }
      }
      points := points + [PathPoint(Pt(x, y), corner)];
    }

    /** `nsvg__addEdge`. */
    method AddEdge(x0: real, y0: real, x1: real, y1: real)
      modifies this`edges
      ensures edges == old(edges) + EdgeOf(Pt(x0, y0), Pt(x1, y1))
    {
      if y0 == y1 {
        return;
      }
      if y0 < y1 {
        edges := edges + [Edge(x0, y0, x1, y1, 1)];
      } else {
        edges := edges + [Edge(x1, y1, x0, y0, -1)];
      }
    }

    /** `nsvg__flattenCubicBez`. */
    method FlattenCubicBez(c: Cubic, level: nat, corner: bool, ghost at: nat, ghost width: nat)
      requires level <= MAX_LEVEL + 1
      modifies this`points
      ensures points == AddLeaves(old(points), Leaves(c, level, corner, at, width))
      decreases MAX_LEVEL + 1 - level
    {
      hide AddPoint, AddLeaves, LeftHalf, RightHalf, Flat, Leaves;
      if level > MAX_LEVEL {
        LeavesEnd(c, level, corner, at, width);
        AddNoLeaf(points);
        return;
      }
      if Flat(c) {
        LeavesFlat(c, level, corner, at, width);
        AddOneLeaf(points, Leaf(c, corner, at, width));
        AddPathPoint(c.p4.x, c.p4.y, corner);
        return;
      }
      LeavesUnfold(c, level, corner, at, width);
      AddLeavesConcat(points, Leaves(LeftHalf(c), level + 1, false, at, width / 2),
                      Leaves(RightHalf(c), level + 1, corner, at + width / 2, width / 2));
      FlattenCubicBez(LeftHalf(c), level + 1, false, at, width / 2);
      FlattenCubicBez(RightHalf(c), level + 1, corner, at + width / 2, width / 2);
    }

    /** `nsvg__flattenShape`. */
    method FlattenShape(paths: seq<PathPts>, sx: real, sy: real)
      modifies this
      ensures edges == old(edges) + ShapeEdges(paths, sx, sy)
    {
      hide Contour, ContourEdges;
      var k := 0;
      while k < |paths|
        invariant 0 <= k <= |paths|
        invariant edges == old(edges) + ShapeEdges(paths[..k], sx, sy)
      {
        FlattenPath(paths[k], sx, sy);
        BuildEdges();
        assert paths[..k + 1][..k] == paths[..k];
        k := k + 1;
      }
      assert paths[..k] == paths;
    }

    method FlattenPath(path: PathPts, sx: real, sy: real)
      modifies this`points
      ensures points == Contour(path, sx, sy)
    {
      hide AddPoint, Leaves, Scaled;
      points := [];
      AddScaledPoint(path[0], sx, sy);
      var i := 0;
      while 3 * i < |path| - 1
        invariant 3 * i <= |path| - 1
        invariant points == PathPoints(path, i, sx, sy)
      {
        FlattenCubicBez(Segment(path, i, sx, sy), 0, false, 0, 1024);
        i := i + 1;
      }
      AddScaledPoint(path[0], sx, sy);
    }

    method AddScaledPoint(p: Pt, sx: real, sy: real)
      modifies this`points
      ensures points == AddPoint(old(points), Scaled(p, sx, sy), false)
    {
      hide AddPoint;
      assert Scaled(p, sx, sy) == Pt(p.x * sx, p.y * sy);
      AddPathPoint(p.x * sx, p.y * sy, false);
    }

    /** The edge loop, whose first edge closes the contour. */
    method BuildEdges()
      modifies this`edges
      ensures edges == old(edges) + ContourEdges(Points(points))
    {
      hide EdgeOf;
      ghost var pts := Points(points);
      var i, j := 0, |points| - 1;
      while i < |points|
        invariant 0 <= i <= |points|
        invariant j == if i == 0 then |points| - 1 else i - 1
        invariant edges == old(edges) + if i == 0 then [] else EdgeOf(pts[|pts| - 1], pts[0]) + ChainEdges(pts[..i])
      {
        AddEdge(points[j].pt.x, points[j].pt.y, points[i].pt.x, points[i].pt.y);
        if i == 0 {
          assert ChainEdges(pts[..1]) == [];
        } else {
          assert pts[..i + 1][..i] == pts[..i];
        }
        j := i;
        i := i + 1;
      }
      assert pts[..i] == pts;
    }
  }
}
