/** What a stored path holds: four points for every curve, neighbours sharing one, so that its cubics trace the curves
    that were drawn, at every parameter and without a gap. */
module PathStored {
  import opened Edges
  import opened Bezier
  import opened PathData
  import opened PathGrammar
  import opened PathMeaning
  import opened Flatten

  /** The points of a subpath before the transform. */
  function PointsBefore(sub: Subpath): seq<Pt> {
    [sub.start] + PointsOf(sub.curves)
  }

  /** Four consecutive points from the `i`-th third on. */
  function CubicAt(pts: seq<Pt>, i: nat): Cubic
    requires 3 * i + 3 < |pts|
  {
    Cubic(pts[3 * i], pts[3 * i + 1], pts[3 * i + 2], pts[3 * i + 3])
  }

  lemma {:induction false} PointsOfAt(curves: seq<Curve>, i: nat)
    requires i < |curves|
    ensures var pts, c := PointsOf(curves), Elevated(curves[i]);
            pts[3 * i] == c.p2 && pts[3 * i + 1] == c.p3 && pts[3 * i + 2] == c.p4
    decreases |curves|
  {
    hide Elevated;
    if i < |curves| - 1 {
      PointsOfAt(curves[..|curves| - 1], i);
    }
  }

  /** The cubics of a subpath whose curves join are these curves. */
  lemma CubicsAreCurves(sub: Subpath, q: Pt, i: nat)
    requires Connected(sub.start, sub.curves, q) && i < |sub.curves|
    ensures |PointsBefore(sub)| == 3 * |sub.curves| + 1 && CubicAt(PointsBefore(sub), i) == Elevated(sub.curves[i])
  {
    hide Elevated;
    PointsOfAt(sub.curves, i);
    assert Elevated(sub.curves[i]).p1 == EndBefore(sub.start, sub.curves, i);
    var pts := PointsOf(sub.curves);
    assert |pts| == 3 * |sub.curves|;
    hide PointsOf;
    assert PointsBefore(sub)[3 * i] == if i == 0 then sub.start else pts[3 * i - 1];
    if i > 0 {
      PointsOfAt(sub.curves, i - 1);
    }
  }

  /** What is stored traces the curves: point by point the transform of cubics that pass where the curves do. */
  lemma StoredTraces(env: Env, sub: Subpath, q: Pt, i: nat, t: real)
    requires Connected(sub.start, sub.curves, q) && i < |sub.curves|
    ensures var pts := PointsBefore(sub);
            && |Stored(env, sub).pts| == |pts| == 3 * |sub.curves| + 1
            && (forall j :: 0 <= j < |pts| ==> Stored(env, sub).pts[j] == env.xform(pts[j]))
            && Eval(CubicAt(pts, i), t) == PointAt(sub.curves[i], t)
  {
    CubicsAreCurves(sub, q, i);
    ElevatedIsSame(sub.curves[i], t);
    hide Eval, PointAt, Elevated, PointsOf, CubicAt;
  }

  ghost predicate SubpathOk(sub: Subpath) {
    exists q :: Connected(sub.start, sub.curves, q)
  }

  /** The current subpath leads to the pen without a gap, and the finished ones have none. */
  ghost predicate TurtleOk(t: Turtle) {
    && Connected(t.sub.start, t.sub.curves, t.pen.at)
    && forall i :: 0 <= i < |t.done| ==> SubpathOk(t.done[i])
  }

  lemma ConnectedJoin(p: Pt, a: seq<Curve>, m: Pt, b: seq<Curve>, q: Pt)
    requires Connected(p, a, m) && Connected(m, b, q)
    ensures Connected(p, a + b, q)
  {
    hide Elevated;
    forall i: nat | i < |a + b| ensures Elevated((a + b)[i]).p1 == EndBefore(p, a + b, i) {
      if i < |a| {
        assert (a + b)[i] == a[i] && EndBefore(p, a + b, i) == EndBefore(p, a, i);
      } else {
        assert (a + b)[i] == b[i - |a|] && EndBefore(p, a + b, i) == EndBefore(m, b, i - |a|);
      }
    }
    assert q == EndBefore(p, a + b, |a + b|);
  }

  lemma FinishedOk(t: Turtle, closed: bool)
    requires TurtleOk(t)
    ensures forall i :: 0 <= i < |Finished(t, closed)| ==> SubpathOk(Finished(t, closed)[i])
  {
    if t.sub.curves != [] {
      EndIsPen(t);
      var line := Line(EndOf(t.sub), t.sub.start);
      ConnectedOne(line);
      LineEnds(EndOf(t.sub), t.sub.start);
      hide Elevated, EndOf;
      ConnectedJoin(t.sub.start, t.sub.curves, t.pen.at, [line], t.sub.start);
      assert t.sub.curves + [] == t.sub.curves;
      hide Connected;
      assert SubpathOk(Subpath(t.sub.start, ClosedCurves(t.sub, closed), closed));
    }
  }

  lemma LineEnds(p: Pt, q: Pt)
    ensures Elevated(Line(p, q)).p1 == p && Elevated(Line(p, q)).p4 == q
  {
  }

  lemma EndIsPen(t: Turtle)
    requires Connected(t.sub.start, t.sub.curves, t.pen.at)
    ensures EndOf(t.sub) == t.pen.at
  {
    hide Elevated;
  }

  lemma NothingConnects(p: Pt)
    ensures Connected(p, [], p)
  {
  }

  lemma DrawOk(env: Env, t: Turtle, cmd: char, a: seq<real>)
    requires ArcsConnect(env) && TurtleOk(t) && Draws(cmd) && |a| == ArgsPerElement(cmd)
    ensures TurtleOk(Draw(env, false, t, cmd, a))
  {
    DrawnIsMeant(env, t.prev, cmd, a, t.pen);
    DrawnConnects(env, cmd, a, t.pen);
    hide Drawn, Meant, Connected, ArcsConnect;
    var (curves, pen) := Drawn(env, cmd, a, t.pen);
    ConnectedJoin(t.sub.start, t.sub.curves, t.pen.at, curves, pen.at);
  }

  lemma {:induction false} GroupsOk(env: Env, t: Turtle, cmd: char, groups: seq<seq<string>>)
    requires ArcsConnect(env) && TurtleOk(t) && Draws(cmd)
    requires forall i :: 0 <= i < |groups| ==> NumberGroup(groups[i], ArgsPerElement(cmd))
    ensures TurtleOk(DrawGroups(env, false, t, cmd, groups))
    decreases |groups|
  {
    hide TurtleOk, Draw, ArcsConnect;
    if groups != [] {
      assert NumberGroup(groups[0], ArgsPerElement(cmd));
      var a := Values(env, groups[0]);
      DrawOk(env, t, cmd, a);
      GroupsOk(env, Draw(env, false, t, cmd, a), cmd, groups[1..]);
    }
  }

  lemma CommandOk(env: Env, t: Turtle, c: Command)
    requires ArcsConnect(env) && TurtleOk(t) && Legal(c)
    ensures TurtleOk(Do(env, false, t, c))
  {
    hide ArcsConnect, Connected, Finished, DrawGroups;
    if c.letter in "zZ" {
      FinishedOk(t, true);
      NothingConnects(t.sub.start);
    } else if c.letter in "mM" {
      assert NumberGroup(c.groups[0], 2);
      var moved := MoveTo(t, c.letter, Values(env, c.groups[0]));
      FinishedOk(t, false);
      NothingConnects(moved.sub.start);
      assert TurtleOk(moved);
      hide MoveTo, TurtleOk;
      GroupsOk(env, moved, if c.letter == 'm' then 'l' else 'L', c.groups[1..]);
    } else {
      hide TurtleOk;
      GroupsOk(env, t, c.letter, c.groups);
    }
  }

  lemma {:induction false} DataOk(env: Env, t: Turtle, doc: seq<Command>)
    requires ArcsConnect(env) && TurtleOk(t) && AllLegal(doc)
    ensures TurtleOk(DoAll(env, false, t, doc))
    decreases |doc|
  {
    hide ArcsConnect, TurtleOk, Do, Legal;
    if doc != [] {
      CommandOk(env, t, doc[0]);
      DataOk(env, Do(env, false, t, doc[0]), doc[1..]);
    }
  }

  /** The curves of every subpath of legal data join, so `StoredTraces` holds for all that is stored. */
  lemma SubpathsJoin(env: Env, doc: seq<Command>, i: nat)
    requires ArcsConnect(env) && AllLegal(doc) && i < |Subpaths(env, false, doc)|
    ensures SubpathOk(Subpaths(env, false, doc)[i])
  {
    NothingConnects(ORIGIN);
    hide ArcsConnect, DoAll, Legal, SubpathOk, Connected;
    assert TurtleOk(FRESH);
    hide TurtleOk;
    DataOk(env, FRESH, doc);
    FinishedOk(DoAll(env, false, FRESH, doc), false);
  }

  /** The transform of a shape is affine. */
  datatype Matrix = Matrix(a: real, b: real, c: real, d: real, e: real, f: real) {
    function ImageX(p: Pt): real {
      a * p.x + c * p.y + e
    }

    function ImageY(p: Pt): real {
      b * p.x + d * p.y + f
    }

    function Image(p: Pt): Pt {
      Pt(ImageX(p), ImageY(p))
    }
  }

  function ImageOf(m: Matrix, c: Cubic): Cubic {
    Cubic(m.Image(c.p1), m.Image(c.p2), m.Image(c.p3), m.Image(c.p4))
  }

  /** One coordinate: the mean of affine images is the image of the mean. */
  lemma MeanImage(w1: real, w2: real, w3: real, w4: real, a: real, c: real, e: real, x1: real, x2: real, x3: real,
                  x4: real, y1: real, y2: real, y3: real, y4: real)
    requires w1 + w2 + w3 + w4 == 1.0
    ensures w1 * (a * x1 + c * y1 + e) + w2 * (a * x2 + c * y2 + e) + w3 * (a * x3 + c * y3 + e)
            + w4 * (a * x4 + c * y4 + e)
         == a * (w1 * x1 + w2 * x2 + w3 * x3 + w4 * x4) + c * (w1 * y1 + w2 * y2 + w3 * y3 + w4 * y4) + e
  {
    Spread(w1, a, c, e, x1, y1);
    Spread(w2, a, c, e, x2, y2);
    Spread(w3, a, c, e, x3, y3);
    Spread(w4, a, c, e, x4, y4);
    Collected(a, w1 * x1, w2 * x2, w3 * x3, w4 * x4);
    Collected(c, w1 * y1, w2 * y2, w3 * y3, w4 * y4);
    Collected(e, w1, w2, w3, w4);
  }

  lemma Spread(w: real, a: real, c: real, e: real, x: real, y: real)
    ensures w * (a * x + c * y + e) == a * (w * x) + c * (w * y) + e * w
  {
  }

  lemma Collected(a: real, p: real, q: real, r: real, s: real)
    ensures a * p + a * q + a * r + a * s == a * (p + q + r + s)
  {
  }

  lemma ImageXOfCurve(m: Matrix, c: Cubic, t: real)
    ensures Coordinate(m.ImageX(c.p1), m.ImageX(c.p2), m.ImageX(c.p3), m.ImageX(c.p4), t) == m.ImageX(Eval(c, t))
  {
    var w1, w2, w3, w4 := EndWeight(t), ControlWeight(t), ControlWeight(1.0 - t), EndWeight(1.0 - t);
    LineWeights(t);
    hide EndWeight, ControlWeight;
    MeanImage(w1, w2, w3, w4, m.a, m.c, m.e, c.p1.x, c.p2.x, c.p3.x, c.p4.x, c.p1.y, c.p2.y, c.p3.y, c.p4.y);
  }

  lemma ImageYOfCurve(m: Matrix, c: Cubic, t: real)
    ensures Coordinate(m.ImageY(c.p1), m.ImageY(c.p2), m.ImageY(c.p3), m.ImageY(c.p4), t) == m.ImageY(Eval(c, t))
  {
    var w1, w2, w3, w4 := EndWeight(t), ControlWeight(t), ControlWeight(1.0 - t), EndWeight(1.0 - t);
    LineWeights(t);
    hide EndWeight, ControlWeight;
    MeanImage(w1, w2, w3, w4, m.b, m.d, m.f, c.p1.x, c.p2.x, c.p3.x, c.p4.x, c.p1.y, c.p2.y, c.p3.y, c.p4.y);
  }

  /** The image of a curve is the curve of the images. */
  lemma ImageOfCurve(m: Matrix, c: Cubic, t: real)
    ensures Eval(ImageOf(m, c), t) == m.Image(Eval(c, t))
  {
    hide Coordinate, Matrix.ImageX, Matrix.ImageY;
    ImageXOfCurve(m, c, t);
    ImageYOfCurve(m, c, t);
  }

  function Scaling(sx: real, sy: real): Matrix {
    Matrix(sx, 0.0, 0.0, sy, 0.0, 0.0)
  }

  lemma ScaledIsImage(p: Pt, sx: real, sy: real)
    ensures Scaled(p, sx, sy) == Scaling(sx, sy).Image(p)
  {
  }

  lemma SegmentIsImage(path: PathPts, i: nat, sx: real, sy: real)
    requires 3 * i + 3 < |path|
    ensures Segment(path, i, sx, sy) == ImageOf(Scaling(sx, sy), CubicAt(path, i))
  {
    ScaledIsImage(path[3 * i], sx, sy);
    ScaledIsImage(path[3 * i + 1], sx, sy);
    ScaledIsImage(path[3 * i + 2], sx, sy);
    ScaledIsImage(path[3 * i + 3], sx, sy);
    hide Scaled, Scaling, Matrix.Image;
  }

  /** From the data to what is flattened: the rasterizer's segment `i` of a stored subpath runs where curve `i` of the
      data runs, transformed and scaled, at every parameter. */
  lemma SegmentTraces(env: Env, m: Matrix, sub: Subpath, q: Pt, i: nat, sx: real, sy: real, t: real)
    requires Connected(sub.start, sub.curves, q) && i < |sub.curves| && forall p :: env.xform(p) == m.Image(p)
    ensures var path := Stored(env, sub).pts;
            && |path| == 3 * |sub.curves| + 1
            && Eval(Segment(path, i, sx, sy), t) == Scaling(sx, sy).Image(m.Image(PointAt(sub.curves[i], t)))
  {
    StoredTraces(env, sub, q, i, t);
    var pts, path := PointsBefore(sub), Stored(env, sub).pts;
    hide Stored, PointsBefore, Eval, PointAt, Matrix.Image, Connected, Scaling;
    SegmentIsImage(path, i, sx, sy);
    ImageOfCurve(Scaling(sx, sy), CubicAt(path, i), t);
    StoredCubic(env, m, pts, path, i);
    ImageOfCurve(m, CubicAt(pts, i), t);
  }

  lemma StoredCubic(env: Env, m: Matrix, pts: seq<Pt>, path: seq<Pt>, i: nat)
    requires 3 * i + 3 < |pts| == |path| && (forall p :: env.xform(p) == m.Image(p))
    requires forall j :: 0 <= j < |pts| ==> path[j] == env.xform(pts[j])
    ensures CubicAt(path, i) == ImageOf(m, CubicAt(pts, i))
  {
    hide Matrix.Image;
  }
}
