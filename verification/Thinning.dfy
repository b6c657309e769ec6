/** What `nsvg__addPathPoint` guarantees: of the points that are emitted for a path, it keeps a subsequence whose
    neighbours are apart, and each point it drops is near to one it keeps. So the polygon that becomes edges still
    follows the path. */
module Thinning {
  import opened Edges
  import opened Bezier
  import opened Chords
  import opened Flatten

  /** Vertex `g[e]` of the polygon stands for the emitted point `e`: it moves on, to that very point, exactly when the
      point is not near to the vertex before. */
  ghost predicate Thins(emitted: seq<Pt>, kept: seq<Pt>, g: seq<nat>) {
    && |g| == |emitted| && (emitted == [] <==> kept == [])
    && (forall e :: 0 <= e < |g| ==> g[e] < |kept|)
    && (emitted != [] ==> g[0] == 0 && kept[0] == emitted[0] && g[|g| - 1] == |kept| - 1)
    && (forall e :: 0 < e < |g| ==>
          if Near(kept[g[e - 1]], emitted[e]) then g[e] == g[e - 1]
          else g[e] == g[e - 1] + 1 && kept[g[e]] == emitted[e])
    && (forall v :: 0 < v < |kept| ==> !Near(kept[v - 1], kept[v]))
  }

  lemma PointsOfAdded(pts: seq<PathPoint>, p: Pt, corner: bool)
    ensures Points(AddPoint(pts, p, corner))
         == if pts != [] && Near(Points(pts)[|pts| - 1], p) then Points(pts) else Points(pts) + [p]
  {
    hide Near;
  }

  lemma ThinsOne(p: Pt)
    ensures Thins([p], [p], [0])
  {
    hide Near;
  }

  /** One emitted point. */
  lemma AddThins(emitted: seq<Pt>, kept: seq<Pt>, g: seq<nat>, p: Pt) returns (g': seq<nat>)
    requires Thins(emitted, kept, g) && emitted != []
    ensures Thins(emitted + [p], if Near(kept[|kept| - 1], p) then kept else kept + [p], g')
  {
    hide Near;
    if Near(kept[|kept| - 1], p) {
      g' := g + [|kept| - 1];
    } else {
      g' := g + [|kept|];
      KeptMore(kept, p);
    }
  }

  lemma KeptMore(kept: seq<Pt>, p: Pt)
    ensures forall v :: 0 <= v < |kept| ==> (kept + [p])[v] == kept[v]
    ensures (kept + [p])[|kept|] == p
  {
  }

  function Ends(ls: seq<Leaf>): (r: seq<Pt>)
    ensures |r| == |ls| && forall i :: 0 <= i < |r| ==> r[i] == ls[i].piece.p4
  {
    seq(|ls|, i requires 0 <= i < |ls| => ls[i].piece.p4)
  }

  lemma {:induction false} LeavesThin(emitted: seq<Pt>, pts: seq<PathPoint>, g: seq<nat>, ls: seq<Leaf>)
    returns (g': seq<nat>)
    requires Thins(emitted, Points(pts), g) && emitted != []
    ensures Thins(emitted + Ends(ls), Points(AddLeaves(pts, ls)), g')
    decreases |ls|
  {
    hide Thins, AddPoint;
    if ls == [] {
      g' := g;
      assert emitted + Ends(ls) == emitted;
    } else {
      var last := ls[|ls| - 1];
      var before := AddLeaves(pts, ls[..|ls| - 1]);
      g' := LeavesThin(emitted, pts, g, ls[..|ls| - 1]);
      g' := PointThins(emitted + Ends(ls[..|ls| - 1]), before, g', last.piece.p4, last.corner);
      assert emitted + Ends(ls) == emitted + Ends(ls[..|ls| - 1]) + [last.piece.p4];
    }
  }

  lemma PointThins(emitted: seq<Pt>, pts: seq<PathPoint>, g: seq<nat>, p: Pt, corner: bool) returns (g': seq<nat>)
    requires Thins(emitted, Points(pts), g) && emitted != []
    ensures Thins(emitted + [p], Points(AddPoint(pts, p, corner)), g')
  {
    assert pts != [];
    PointsOfAdded(pts, p, corner);
    hide Thins, AddPoint, Near;
    g' := AddThins(emitted, Points(pts), g, p);
  }

  /** The points emitted for one segment. */
  function SegmentEnds(path: PathPts, s: nat, sx: real, sy: real): seq<Pt>
    requires 3 * s + 3 < |path|
  {
    Ends(Leaves(Segment(path, s, sx, sy), 0, false, 0, 1024))
  }

  /** The points emitted for the first `n` segments: the start of the path and the ends of all accepted pieces. */
  function Emitted(path: PathPts, n: nat, sx: real, sy: real): (r: seq<Pt>)
    requires 3 * n < |path|
    ensures r != []
  {
    if n == 0 then [Scaled(path[0], sx, sy)]
    else Emitted(path, n - 1, sx, sy) + SegmentEnds(path, n - 1, sx, sy)
  }

  /** All points emitted for a path, which is closed by its start. */
  function AllEmitted(path: PathPts, sx: real, sy: real): (r: seq<Pt>)
    ensures r != []
  {
    Emitted(path, (|path| - 1) / 3, sx, sy) + [Scaled(path[0], sx, sy)]
  }

  lemma {:induction false} PathThins(path: PathPts, n: nat, sx: real, sy: real) returns (g: seq<nat>)
    requires 3 * n < |path|
    ensures Thins(Emitted(path, n, sx, sy), Points(PathPoints(path, n, sx, sy)), g)
  {
    hide Thins, AddLeaves, Leaves, SegmentEnds;
    if n == 0 {
      g := [0];
      StartThins(path, sx, sy);
    } else {
      g := PathThins(path, n - 1, sx, sy);
      g := SegmentThins(Emitted(path, n - 1, sx, sy), PathPoints(path, n - 1, sx, sy), g, path, n - 1, sx, sy);
    }
  }

  lemma StartThins(path: PathPts, sx: real, sy: real)
    ensures Thins([Scaled(path[0], sx, sy)], Points(AddPoint([], Scaled(path[0], sx, sy), false)), [0])
  {
    var p := Scaled(path[0], sx, sy);
    hide Scaled;
    ThinsOne(p);
    assert Points([PathPoint(p, false)]) == [p];
  }

  lemma SegmentThins(emitted: seq<Pt>, pts: seq<PathPoint>, g: seq<nat>, path: PathPts, s: nat, sx: real, sy: real)
    returns (g': seq<nat>)
    requires 3 * s + 3 < |path| && Thins(emitted, Points(pts), g) && emitted != []
    ensures Thins(emitted + SegmentEnds(path, s, sx, sy),
                  Points(AddLeaves(pts, Leaves(Segment(path, s, sx, sy), 0, false, 0, 1024))), g')
  {
    hide Thins, AddLeaves, Leaves, Segment;
    g' := LeavesThin(emitted, pts, g, Leaves(Segment(path, s, sx, sy), 0, false, 0, 1024));
  }

  /** The polygon that becomes edges is a thinning of what is emitted. */
  lemma ContourThins(path: PathPts, sx: real, sy: real) returns (g: seq<nat>)
    ensures Thins(AllEmitted(path, sx, sy), Points(Contour(path, sx, sy)), g)
  {
    hide Thins, AddPoint, Emitted, PathPoints, Scaled;
    var n := (|path| - 1) / 3;
    g := PathThins(path, n, sx, sy);
    g := PointThins(Emitted(path, n, sx, sy), PathPoints(path, n, sx, sy), g, Scaled(path[0], sx, sy), false);
  }

  lemma NearSelf(p: Pt)
    ensures Near(p, p)
  {
  }

  /** The vertex that stands for an emitted point is near to it, and the next one stands for what follows. */
  lemma ThinnedNear(emitted: seq<Pt>, kept: seq<Pt>, g: seq<nat>, e: nat)
    requires Thins(emitted, kept, g) && e < |emitted|
    ensures Near(kept[g[e]], emitted[e])
    ensures e + 1 < |g| ==> g[e] <= g[e + 1] <= g[e] + 1
  {
    NearSelf(emitted[e]);
    hide Near;
    if e > 0 {
      ThinStep(emitted, kept, g, e);
    }
    if e + 1 < |g| {
      ThinStep(emitted, kept, g, e + 1);
    }
  }

  lemma ThinStep(emitted: seq<Pt>, kept: seq<Pt>, g: seq<nat>, e: nat)
    requires Thins(emitted, kept, g) && 0 < e < |emitted|
    ensures if Near(kept[g[e - 1]], emitted[e]) then g[e] == g[e - 1]
            else g[e] == g[e - 1] + 1 && kept[g[e]] == emitted[e]
  {
    hide Near;
  }

  /** Every vertex is the first emitted point that it stands for. */
  lemma {:induction false} KeptIsEmitted(emitted: seq<Pt>, kept: seq<Pt>, g: seq<nat>, v: nat, n: nat) returns (e: nat)
    requires Thins(emitted, kept, g) && 0 < n <= |g| && v <= g[n - 1]
    ensures e < n && g[e] == v && kept[v] == emitted[e] && (e > 0 ==> g[e - 1] < v)
  {
    hide Near;
    e := n - 1;
    if e > 0 && g[e - 1] >= v {
      e := KeptIsEmitted(emitted, kept, g, v, n - 1);
    } else if e > 0 {
      ThinStep(emitted, kept, g, e);
    }
  }

  lemma EmittedStep(path: PathPts, n: nat, sx: real, sy: real)
    requires 3 * n + 3 < |path|
    ensures Emitted(path, n + 1, sx, sy) == Emitted(path, n, sx, sy) + SegmentEnds(path, n, sx, sy)
  {
    hide SegmentEnds, Scaled;
  }

  lemma PrefixMore<T>(a: seq<T>, b: seq<T>, c: seq<T>)
    requires a <= b
    ensures a <= b + c
  {
  }

  lemma {:induction false} EmittedPrefix(path: PathPts, m: nat, n: nat, sx: real, sy: real)
    requires m <= n && 3 * n < |path|
    ensures Emitted(path, m, sx, sy) <= Emitted(path, n, sx, sy)
    decreases n
  {
    hide SegmentEnds, Emitted;
    if m < n {
      EmittedPrefix(path, m, n - 1, sx, sy);
      EmittedStep(path, n - 1, sx, sy);
      PrefixMore(Emitted(path, m, sx, sy), Emitted(path, n - 1, sx, sy), SegmentEnds(path, n - 1, sx, sy));
    }
  }

  /** The start of a segment is emitted: it is that of the path or the segment before settles at its end. */
  predicate ReachedStart(path: PathPts, s: nat, sx: real, sy: real)
    requires 3 * s < |path|
  {
    s > 0 ==> EndSettles(Segment(path, s - 1, sx, sy), 0)
  }

  predicate SettledSegment(path: PathPts, s: nat, sx: real, sy: real)
    requires 3 * s + 3 < |path|
  {
    Settles(Segment(path, s, sx, sy), 0)
  }

  /** The start of a segment is emitted last before it, if the segment before settles at its end. */
  lemma StartEmitted(path: PathPts, s: nat, sx: real, sy: real)
    requires 3 * s + 3 < |path|
    requires ReachedStart(path, s, sx, sy)
    ensures var before := Emitted(path, s, sx, sy); before[|before| - 1] == Scaled(path[3 * s], sx, sy)
  {
    hide Segment, Scaled, EndSettles, SegmentEnds;
    if s > 0 {
      LastEnd(path, s - 1, sx, sy);
      EmittedStep(path, s - 1, sx, sy);
      LastOfBoth(Emitted(path, s - 1, sx, sy), SegmentEnds(path, s - 1, sx, sy));
      hide Emitted;
    }
  }

  lemma LastOfBoth<T>(a: seq<T>, b: seq<T>)
    requires b != []
    ensures a + b != [] && (a + b)[|a + b| - 1] == b[|b| - 1]
  {
  }

  lemma LastEnd(path: PathPts, s: nat, sx: real, sy: real)
    requires 3 * s + 3 < |path| && EndSettles(Segment(path, s, sx, sy), 0)
    ensures var ends := SegmentEnds(path, s, sx, sy);
            ends != [] && ends[|ends| - 1] == Scaled(path[3 * s + 3], sx, sy)
  {
    var c := Segment(path, s, sx, sy);
    assert c.p4 == Scaled(path[3 * s + 3], sx, sy);
    hide Segment, Leaves, EndSettles, Scaled;
    EndEmitted(c);
  }

  lemma EndEmitted(c: Cubic)
    requires EndSettles(c, 0)
    ensures var ls := Leaves(c, 0, false, 0, 1024); ls != [] && ls[|ls| - 1].piece.p4 == c.p4
  {
    EvalEnds(c);
    hide Eval, Flat, PieceOf, Leaves, EndSettles;
    WholePiece(c);
    EndEmittedIff(c, 0, false, 0, c);
    var ls := Leaves(c, 0, false, 0, 1024);
    EmittedOnCurve(c, false, |ls| - 1);
  }

  lemma EvalEnds(c: Cubic)
    ensures Eval(c, Param(0)) == c.p1 && Eval(c, Param(1024)) == c.p4
  {
    assert Param(0) == 0.0 && Param(1024) == 1.0;
  }

  /** The point lies on the accepted piece. */
  ghost predicate LiesOn(leaf: Leaf, p: Pt) {
    Flat(leaf.piece) && exists r: real :: 0.0 <= r <= 1.0 && Eval(leaf.piece, r) == p
  }

  function SegmentLeaves(path: PathPts, s: nat, sx: real, sy: real): seq<Leaf>
    requires 3 * s + 3 < |path|
  {
    Leaves(Segment(path, s, sx, sy), 0, false, 0, 1024)
  }

  /** The leaf over parameter `t`, whose ends are emitted one after the other. */
  lemma LeafEmitted(path: PathPts, s: nat, sx: real, sy: real, t: real) returns (leaf: Leaf, e: nat)
    requires 3 * s + 3 < |path| && 0.0 <= t <= 1.0 && SettledSegment(path, s, sx, sy)
    requires ReachedStart(path, s, sx, sy)
    ensures var all := AllEmitted(path, sx, sy);
            e + 1 < |all| && leaf.piece.p1 == all[e] && leaf.piece.p4 == all[e + 1]
    ensures leaf in SegmentLeaves(path, s, sx, sy) && LiesOn(leaf, Eval(Segment(path, s, sx, sy), t))
  {
    StartEmitted(path, s, sx, sy);
    var c := Segment(path, s, sx, sy);
    assert c.p1 == Scaled(path[3 * s], sx, sy);
    hide Segment, Leaves, LiesOn, Eval, Scaled, SegmentEnds, SegmentLeaves, Emitted, AllEmitted, ReachedStart,
      SettledSegment;
    var i: nat;
    leaf, i := LeafOver(path, s, sx, sy, t);
    var before := Emitted(path, s, sx, sy);
    e := |before| + i - 1;
    AllEmittedHas(path, s, sx, sy);
    EmittedAt(before, SegmentEnds(path, s, sx, sy), AllEmitted(path, sx, sy), i);
  }

  lemma AllEmittedHas(path: PathPts, s: nat, sx: real, sy: real)
    requires 3 * s + 3 < |path|
    ensures Emitted(path, s, sx, sy) + SegmentEnds(path, s, sx, sy) <= AllEmitted(path, sx, sy)
  {
    hide SegmentEnds, Scaled, Emitted;
    var n := (|path| - 1) / 3;
    EmittedPrefix(path, s + 1, n, sx, sy);
    EmittedStep(path, s, sx, sy);
    PrefixMore(Emitted(path, s + 1, sx, sy), Emitted(path, n, sx, sy), [Scaled(path[0], sx, sy)]);
  }

  /** It starts at the start of the segment or where the leaf before ends. */
  lemma LeafOver(path: PathPts, s: nat, sx: real, sy: real, t: real) returns (leaf: Leaf, i: nat)
    requires 3 * s + 3 < |path| && 0.0 <= t <= 1.0 && SettledSegment(path, s, sx, sy)
    ensures var c, ends := Segment(path, s, sx, sy), SegmentEnds(path, s, sx, sy);
            && i < |ends| && leaf.piece.p4 == ends[i]
            && leaf.piece.p1 == (if i == 0 then c.p1 else ends[i - 1])
            && leaf in SegmentLeaves(path, s, sx, sy) && LiesOn(leaf, Eval(c, t))
  {
    var c := Segment(path, s, sx, sy);
    hide Segment, Leaves, Settles, CloseToChordLine, Eval, Flat;
    var r: real;
    i, r := FlatteningFollowsCurve(c, false, t);
    leaf := Leaves(c, 0, false, 0, 1024)[i];
    if i == 0 {
      FirstStarts(c);
    } else {
      LeafAfter(c, i);
    }
  }

  lemma EmittedAt(before: seq<Pt>, ends: seq<Pt>, all: seq<Pt>, i: nat)
    requires before != [] && before + ends <= all && i < |ends|
    ensures |before| + i < |all| && all[|before| + i] == ends[i]
    ensures all[|before| + i - 1] == if i == 0 then before[|before| - 1] else ends[i - 1]
  {
    assert all[|before| + i] == (before + ends)[|before| + i];
    assert all[|before| + i - 1] == (before + ends)[|before| + i - 1];
  }

  lemma FirstStarts(c: Cubic)
    requires Settles(c, 0)
    ensures var ls := Leaves(c, 0, false, 0, 1024); ls != [] && ls[0].piece.p1 == c.p1
  {
    EvalEnds(c);
    hide Eval, Flat, PieceOf, Leaves;
    WholePiece(c);
    SettledTiles(c, 0, false, 0);
    LeavesAreOk(c, 0, false, 0, c);
    LeafEnds(Leaves(c, 0, false, 0, 1024), c, false, 0, 1024, 0);
  }

  lemma LeafAfter(c: Cubic, i: nat)
    requires Settles(c, 0) && 0 < i < |Leaves(c, 0, false, 0, 1024)|
    ensures var ls := Leaves(c, 0, false, 0, 1024); ls[i].piece.p1 == ls[i - 1].piece.p4
  {
    hide Eval, Flat, PieceOf, Leaves;
    WholePiece(c);
    SettledTiles(c, 0, false, 0);
    LeavesAreOk(c, 0, false, 0, c);
    LeafEnds(Leaves(c, 0, false, 0, 1024), c, false, 0, 1024, i - 1);
    LeafEnds(Leaves(c, 0, false, 0, 1024), c, false, 0, 1024, i);
  }

  /** The polygon that becomes edges: every point of a settled segment lies on an accepted piece whose two ends are near
      to one vertex or to two consecutive ones, and is close to the line through them. If the piece stays over its
      chord, the point is within the two tolerances, 2/9 and 1/100, of the edge between those vertices. */
  lemma PolygonFollowsPath(path: PathPts, s: nat, sx: real, sy: real, t: real)
    returns (leaf: Leaf, v: nat, w: nat)
    requires 3 * s + 3 < |path| && 0.0 <= t <= 1.0 && SettledSegment(path, s, sx, sy)
    requires ReachedStart(path, s, sx, sy)
    ensures leaf in SegmentLeaves(path, s, sx, sy)
    ensures var polygon, p := Points(Contour(path, sx, sy)), Eval(Segment(path, s, sx, sy), t);
            && LiesOn(leaf, p) && CloseToChordLine(leaf.piece, p)
            && v <= w <= v + 1 && w < |polygon|
            && Near(polygon[v], leaf.piece.p1) && Near(polygon[w], leaf.piece.p4)
            && (StaysBeside(leaf.piece) ==> WithinOf(polygon[v], polygon[w], p, CURVE_TOL + DIST_TOL))
  {
    hide CloseToChordLine, Eval, Near, Contour, AllEmitted, Thins, ReachedStart, SettledSegment, SegmentLeaves, LiesOn,
      StaysBeside, WithinOf;
    var g := ContourThins(path, sx, sy);
    var e: nat;
    leaf, e := LeafEmitted(path, s, sx, sy, t);
    v, w := FollowedBy(AllEmitted(path, sx, sy), Points(Contour(path, sx, sy)), g, e);
    var polygon := Points(Contour(path, sx, sy));
    LeafIsClose(leaf, Eval(Segment(path, s, sx, sy), t), polygon[v], polygon[w]);
  }

  lemma LeafIsClose(leaf: Leaf, p: Pt, a: Pt, b: Pt)
    requires LiesOn(leaf, p) && Near(a, leaf.piece.p1) && Near(b, leaf.piece.p4)
    ensures CloseToChordLine(leaf.piece, p)
    ensures StaysBeside(leaf.piece) ==> WithinOf(a, b, p, CURVE_TOL + DIST_TOL)
  {
    NearIsShort(a, leaf.piece.p1);
    NearIsShort(b, leaf.piece.p4);
    hide Eval, Flat, Near, CloseToChordLine, StaysBeside, WithinOf, SquaredDistance;
    var r: real :| 0.0 <= r <= 1.0 && Eval(leaf.piece, r) == p;
    FlatIsClose(leaf.piece, r);
    if StaysBeside(leaf.piece) {
      FlatIsCloseToChord(leaf.piece, r);
      WithinMoved(leaf.piece.p1, leaf.piece.p4, a, b, p);
    }
  }

  lemma NearIsShort(a: Pt, b: Pt)
    requires Near(a, b)
    ensures SquaredDistance(b, a) < DIST_TOL * DIST_TOL
  {
  }

  lemma FollowedBy(emitted: seq<Pt>, kept: seq<Pt>, g: seq<nat>, e: nat) returns (v: nat, w: nat)
    requires Thins(emitted, kept, g) && e + 1 < |emitted|
    ensures v <= w <= v + 1 && w < |kept| && Near(kept[v], emitted[e]) && Near(kept[w], emitted[e + 1])
  {
    ThinnedNear(emitted, kept, g, e);
    ThinnedNear(emitted, kept, g, e + 1);
    v, w := g[e], g[e + 1];
  }

  /** A vertex is a corner exactly if one of the points is that it stands for. */
  ghost predicate FlagsStand(flags: seq<bool>, pts: seq<PathPoint>, g: seq<nat>) {
    |flags| == |g| && forall v: nat :: v < |pts| ==> (pts[v].corner <==> FlaggedFor(flags, g, v))
  }

  ghost predicate FlaggedFor(flags: seq<bool>, g: seq<nat>, v: nat) {
    exists e :: 0 <= e < |g| && e < |flags| && g[e] == v && flags[e]
  }

  /** Adding a point keeps that, whether it is merged or not. */
  lemma AddFlag(flags: seq<bool>, pts: seq<PathPoint>, g: seq<nat>, p: Pt, corner: bool)
    requires FlagsStand(flags, pts, g) && forall e :: 0 <= e < |g| ==> g[e] < |pts|
    ensures var merged := pts != [] && Near(pts[|pts| - 1].pt, p);
            FlagsStand(flags + [corner], AddPoint(pts, p, corner), g + [if merged then |pts| - 1 else |pts|])
  {
    var merged := pts != [] && Near(pts[|pts| - 1].pt, p);
    hide Near;
    var last := if merged then |pts| - 1 else |pts|;
    forall v: nat | v < |AddPoint(pts, p, corner)|
      ensures AddPoint(pts, p, corner)[v].corner <==> FlaggedFor(flags + [corner], g + [last], v)
    {
      OneMoreFlag(flags, g, corner, last, v);
      if v >= |pts| {
        assert !FlaggedFor(flags, g, v);
      }
    }
  }

  lemma OneMoreFlag(flags: seq<bool>, g: seq<nat>, corner: bool, last: nat, v: nat)
    requires |flags| == |g|
    ensures FlaggedFor(flags + [corner], g + [last], v) <==> FlaggedFor(flags, g, v) || (last == v && corner)
  {
    if FlaggedFor(flags, g, v) {
      var e :| 0 <= e < |g| && g[e] == v && flags[e];
      assert (g + [last])[e] == v && (flags + [corner])[e];
    }
    if last == v && corner {
      assert (g + [last])[|g|] == v && (flags + [corner])[|g|];
    }
  }
}
