/** SVG path data (section 8.3 of SVG 1.1): what each command draws, and the machine of `nsvg__parsePath` that
    executes items as they come. Number conversion, the shape's transform and the conversion of an arc to
    cubics are parameters. */
module PathData {
  import opened Edges
  import opened Bezier
  import opened PathLexer

  /** A piece of a path, as the commands describe it. */
  datatype Curve = Line(p: Pt, q: Pt) | Quad(p: Pt, c: Pt, q: Pt) | Cube(cubic: Cubic)

  function Towards(a: real, b: real, k: real): real {
    a + k * (b - a)
  }

  function TowardsPt(a: Pt, b: Pt, k: real): Pt {
    Pt(Towards(a.x, b.x, k), Towards(a.y, b.y, k))
  }

  /** The cubic that is stored for it: `nsvg__lineTo`, `nsvg__pathQuadBezTo`. */
  function Elevated(c: Curve): Cubic {
    match c
    case Line(p, q) => Cubic(p, TowardsPt(p, q, 1.0 / 3.0), TowardsPt(q, p, 1.0 / 3.0), q)
    case Quad(p, c, q) => Cubic(p, TowardsPt(p, c, 2.0 / 3.0), TowardsPt(q, c, 2.0 / 3.0), q)
    case Cube(cubic) => cubic
  }

  function QuadCoordinate(a: real, b: real, c: real, t: real): real {
    (1.0 - t) * (1.0 - t) * a + 2.0 * t * (1.0 - t) * b + t * t * c
  }

  /** The point of the piece at parameter `t`. */
  function PointAt(c: Curve, t: real): Pt {
    match c
    case Line(p, q) => TowardsPt(p, q, t)
    case Quad(p, c, q) => Pt(QuadCoordinate(p.x, c.x, q.x, t), QuadCoordinate(p.y, c.y, q.y, t))
    case Cube(cubic) => Eval(cubic, t)
  }

  lemma LineCoordinate(a: real, b: real, t: real)
    ensures Coordinate(a, Towards(a, b, 1.0 / 3.0), Towards(b, a, 1.0 / 3.0), b, t) == Towards(a, b, t)
  {
    LineWeights(t);
    var w1, w2, w3, w4 := EndWeight(t), ControlWeight(t), ControlWeight(1.0 - t), EndWeight(1.0 - t);
    hide EndWeight, ControlWeight;
    SpreadLine(w1, w2, w3, w4, a, b, t);
  }

  lemma LineWeights(t: real)
    ensures EndWeight(t) + ControlWeight(t) + ControlWeight(1.0 - t) + EndWeight(1.0 - t) == 1.0
    ensures ControlWeight(t) / 3.0 + ControlWeight(1.0 - t) * 2.0 / 3.0 + EndWeight(1.0 - t) == t
  {
    var s := t * t;
    assert EndWeight(t) == 1.0 - 3.0 * t + 3.0 * s - s * t;
    assert ControlWeight(t) == 3.0 * t - 6.0 * s + 3.0 * (s * t);
    assert ControlWeight(1.0 - t) == 3.0 * s - 3.0 * (s * t);
    assert EndWeight(1.0 - t) == s * t;
  }

  lemma SpreadLine(w1: real, w2: real, w3: real, w4: real, a: real, b: real, t: real)
    requires w1 + w2 + w3 + w4 == 1.0 && w2 / 3.0 + w3 * 2.0 / 3.0 + w4 == t
    ensures w1 * a + w2 * Towards(a, b, 1.0 / 3.0) + w3 * Towards(b, a, 1.0 / 3.0) + w4 * b == Towards(a, b, t)
  {
    assert w1 * a + w2 * a + w3 * a + w4 * a == a by {
      assert (w1 + w2 + w3 + w4) * a == a;
    }
    assert t * (b - a) == (w2 / 3.0 + w3 * 2.0 / 3.0 + w4) * (b - a);
  }

  lemma QuadWeights(t: real)
    ensures EndWeight(t) + ControlWeight(t) / 3.0 == (1.0 - t) * (1.0 - t)
    ensures (ControlWeight(t) + ControlWeight(1.0 - t)) * 2.0 / 3.0 == 2.0 * t * (1.0 - t)
    ensures EndWeight(1.0 - t) + ControlWeight(1.0 - t) / 3.0 == t * t
  {
    var s := t * t;
    assert EndWeight(t) == 1.0 - 3.0 * t + 3.0 * s - s * t;
    assert ControlWeight(t) == 3.0 * t - 6.0 * s + 3.0 * (s * t);
    assert ControlWeight(1.0 - t) == 3.0 * s - 3.0 * (s * t);
    assert EndWeight(1.0 - t) == s * t;
  }

  lemma QuadCoordinateElevated(a: real, b: real, c: real, t: real)
    ensures Coordinate(a, Towards(a, b, 2.0 / 3.0), Towards(c, b, 2.0 / 3.0), c, t) == QuadCoordinate(a, b, c, t)
  {
    QuadWeights(t);
    var w1, w2, w3, w4 := EndWeight(t), ControlWeight(t), ControlWeight(1.0 - t), EndWeight(1.0 - t);
    hide EndWeight, ControlWeight;
    SpreadQuad(w1, w2, w3, w4, a, b, c, (1.0 - t) * (1.0 - t), 2.0 * t * (1.0 - t), t * t);
  }

  lemma SpreadQuad(w1: real, w2: real, w3: real, w4: real, a: real, b: real, c: real, u1: real, u2: real, u3: real)
    requires w1 + w2 / 3.0 == u1 && (w2 + w3) * 2.0 / 3.0 == u2 && w4 + w3 / 3.0 == u3
    ensures w1 * a + w2 * Towards(a, b, 2.0 / 3.0) + w3 * Towards(c, b, 2.0 / 3.0) + w4 * c == u1 * a + u2 * b + u3 * c
  {
    assert u1 * a == w1 * a + w2 * a / 3.0;
    assert u2 * b == w2 * b * 2.0 / 3.0 + w3 * b * 2.0 / 3.0;
    assert u3 * c == w4 * c + w3 * c / 3.0;
    assert w2 * Towards(a, b, 2.0 / 3.0) == w2 * a / 3.0 + w2 * b * 2.0 / 3.0;
    assert w3 * Towards(c, b, 2.0 / 3.0) == w3 * c / 3.0 + w3 * b * 2.0 / 3.0;
  }

  /** The stored cubic is the described piece: the straight line, the quadratic curve or the cubic one, at every
      parameter. */
  lemma ElevatedIsSame(c: Curve, t: real)
    ensures Eval(Elevated(c), t) == PointAt(c, t)
  {
    match c
    case Line(p, q) =>
      LineCoordinate(p.x, q.x, t);
      LineCoordinate(p.y, q.y, t);
    case Quad(p, c, q) =>
      QuadCoordinateElevated(p.x, c.x, q.x, t);
      QuadCoordinateElevated(p.y, c.y, q.y, t);
    case Cube(cubic) =>
  }

  /** Current point and last control point: `cpx, cpy` and `cpx2, cpy2`. */
  datatype Pen = Pen(at: Pt, ctrl: Pt)

  /** Conversion of one number, transform of the shape, and the cubics of an arc from one point to another
      (none if it degenerates to a line). */
  datatype Env = Env(atof: string -> real, xform: Pt -> Pt, arc: (Pt, Pt, seq<real>) -> seq<Cubic>)

  function Target(rel: bool, at: Pt, x: real, y: real): Pt {
    if rel then Pt(at.x + x, at.y + y) else Pt(x, y)
  }

  /** The control point opposite to the last one. */
  function Reflected(pen: Pen): Pt {
    Pt(2.0 * pen.at.x - pen.ctrl.x, 2.0 * pen.at.y - pen.ctrl.y)
  }

  /** `nsvg__getArgsPerElement`. */
  function ArgsPerElement(cmd: char): int {
    if cmd in "vVhH" then 1
    else if cmd in "mMlLtT" then 2
    else if cmd in "qQsS" then 4
    else if cmd in "cC" then 6
    else if cmd in "aA" then 7
    else if cmd in "zZ" then 0
    else -1
  }

  predicate Relative(cmd: char) {
    'a' <= cmd <= 'z'
  }

  predicate Draws(cmd: char) {
    ArgsPerElement(cmd) > 0 && cmd !in "mM"
  }

  /** What a drawing command adds to the path and where it leaves the pen. */
  function Drawn(env: Env, cmd: char, a: seq<real>, pen: Pen): (seq<Curve>, Pen)
    requires Draws(cmd) && |a| >= ArgsPerElement(cmd)
  {
    var rel := Relative(cmd);
    if cmd in "lL" then
      var q := Target(rel, pen.at, a[0], a[1]);
      ([Line(pen.at, q)], Pen(q, q))
    else if cmd in "hH" then
      var q := Pt(if rel then pen.at.x + a[0] else a[0], pen.at.y);
      ([Line(pen.at, q)], Pen(q, q))
    else if cmd in "vV" then
      var q := Pt(pen.at.x, if rel then pen.at.y + a[0] else a[0]);
      ([Line(pen.at, q)], Pen(q, q))
    else if cmd in "cC" then
      var c1, c2 := Target(rel, pen.at, a[0], a[1]), Target(rel, pen.at, a[2], a[3]);
      var q := Target(rel, pen.at, a[4], a[5]);
      ([Cube(Cubic(pen.at, c1, c2, q))], Pen(q, c2))
    else if cmd in "sS" then
      var c2, q := Target(rel, pen.at, a[0], a[1]), Target(rel, pen.at, a[2], a[3]);
      ([Cube(Cubic(pen.at, Reflected(pen), c2, q))], Pen(q, c2))
    else if cmd in "qQ" then
      var c, q := Target(rel, pen.at, a[0], a[1]), Target(rel, pen.at, a[2], a[3]);
      ([Quad(pen.at, c, q)], Pen(q, c))
    else if cmd in "tT" then
      var q := Target(rel, pen.at, a[0], a[1]);
      ([Quad(pen.at, Reflected(pen), q)], Pen(q, Reflected(pen)))
    else
      var q := Target(rel, pen.at, a[5], a[6]);
      (ArcCurves(env, pen.at, q, a), Pen(q, q))
  }

  function ArcCurves(env: Env, p: Pt, q: Pt, a: seq<real>): seq<Curve> {
    var cubics := env.arc(p, q, a);
    if cubics == [] then [Line(p, q)] else Cubes(cubics)
  }

  function Cubes(cubics: seq<Cubic>): (r: seq<Curve>)
    ensures |r| == |cubics| && forall i :: 0 <= i < |r| ==> r[i] == Cube(cubics[i])
  {
    seq(|cubics|, i requires 0 <= i < |cubics| => Cube(cubics[i]))
  }

  /** The pieces of an arc lead from its start to its end without a gap. */
  ghost predicate ArcsConnect(env: Env) {
    forall p, q, a :: Connected(p, Cubes(env.arc(p, q, a)), q) || env.arc(p, q, a) == []
  }

  /** Where the curve in front of the `i`-th one ends. */
  function EndBefore(p: Pt, curves: seq<Curve>, i: nat): Pt
    requires i <= |curves|
  {
    if i == 0 then p else Elevated(curves[i - 1]).p4
  }

  /** The curves form a chain from `p` to `q`. */
  ghost predicate Connected(p: Pt, curves: seq<Curve>, q: Pt) {
    && (forall i: nat :: i < |curves| ==> Elevated(curves[i]).p1 == EndBefore(p, curves, i))
    && q == if curves == [] then p else Elevated(curves[|curves| - 1]).p4
  }

  lemma ConnectedOne(c: Curve)
    ensures Connected(Elevated(c).p1, [c], Elevated(c).p4)
  {
    hide Elevated;
  }

  lemma ArcConnects(env: Env, p: Pt, q: Pt, a: seq<real>)
    requires ArcsConnect(env)
    ensures Connected(p, ArcCurves(env, p, q, a), q) && ArcCurves(env, p, q, a) != []
  {
    assert Connected(p, Cubes(env.arc(p, q, a)), q) || env.arc(p, q, a) == [];
    ConnectedOne(Line(p, q));
    hide Connected;
  }

  /** Every drawing command draws a chain of curves from the current point to the new one. */
  lemma DrawnConnects(env: Env, cmd: char, a: seq<real>, pen: Pen)
    requires ArcsConnect(env) && Draws(cmd) && |a| >= ArgsPerElement(cmd)
    ensures Connected(pen.at, Drawn(env, cmd, a, pen).0, Drawn(env, cmd, a, pen).1.at)
    ensures Drawn(env, cmd, a, pen).0 != []
  {
    if cmd in "aA" {
      ArcConnects(env, pen.at, Target(Relative(cmd), pen.at, a[5], a[6]), a);
    } else {
      ConnectedOne(Drawn(env, cmd, a, pen).0[0]);
    }
  }

  /** The three points a curve adds to the buffer. */
  function PointsOf(curves: seq<Curve>): (r: seq<Pt>)
    ensures |r| == 3 * |curves|
  {
    if curves == [] then []
    else
      var c := Elevated(curves[|curves| - 1]);
      PointsOf(curves[..|curves| - 1]) + [c.p2, c.p3, c.p4]
  }

  /** Curves are added only after a first point. */
  function Extended(pts: seq<Pt>, curves: seq<Curve>): seq<Pt> {
    if pts == [] then [] else pts + PointsOf(curves)
  }

  /** `NSVGpath`, as stored: transformed points. */
  datatype StoredPath = StoredPath(pts: seq<Pt>, closed: bool)

  function Transformed(env: Env, pts: seq<Pt>): (r: seq<Pt>)
    ensures |r| == |pts| && forall i :: 0 <= i < |pts| ==> r[i] == env.xform(pts[i])
  {
    seq(|pts|, i requires 0 <= i < |pts| => env.xform(pts[i]))
  }

  /** `nsvg__addPath`. */
  function Committed(env: Env, pts: seq<Pt>, closed: bool, paths: seq<StoredPath>): seq<StoredPath> {
    if |pts| < 4 then paths
    else
      var all := if closed then Extended(pts, [Line(pts[|pts| - 1], pts[0])]) else pts;
      if |all| % 3 != 1 then paths else [StoredPath(Transformed(env, all), closed)] + paths
  }

  /** The state between items: point buffer, stored paths, command, arguments collected, pen, and whether there
      has been a first point. */
  datatype PathState = PathState(pts: seq<Pt>, paths: seq<StoredPath>, cmd: char, args: seq<real>, pen: Pen,
                                 started: bool)

  function Rargs(cmd: char): int {
    if ArgsPerElement(cmd) == -1 then 0 else ArgsPerElement(cmd)
  }

  /** A command has all its arguments. */
  function Execute(env: Env, st: PathState, a: seq<real>): PathState
    requires |a| >= Rargs(st.cmd)
  {
    if st.cmd in "mM" then
      var q := Target(Relative(st.cmd), st.pen.at, a[0], a[1]);
      st.(pts := if st.pts == [] then [q] else st.pts[|st.pts| - 1 := q], pen := Pen(q, q), args := [], started := true,
          cmd := if st.cmd == 'm' then 'l' else 'L')
    else if Draws(st.cmd) then
      var (curves, pen) := Drawn(env, st.cmd, a, st.pen);
      st.(pts := Extended(st.pts, curves), pen := pen, args := [])
    else if |a| >= 2 then
      st.(pen := Pen(Pt(a[|a| - 2], a[|a| - 1]), Pt(a[|a| - 2], a[|a| - 1])), args := [])
    else st.(args := [])
  }

  /** A command letter. */
  function Begin(env: Env, st: PathState, cmd: char): PathState {
    if cmd in "mM" then
      st.(paths := if st.pts != [] then Committed(env, st.pts, false, st.paths) else st.paths,
          pts := [], args := [], cmd := cmd)
    else if !st.started then st.(cmd := '\0')
    else if cmd in "zZ" then
      var at := if st.pts != [] then Pen(st.pts[0], st.pts[0]) else st.pen;
      st.(paths := if st.pts != [] then Committed(env, st.pts, true, st.paths) else st.paths,
          pen := at, pts := [at.at], args := [], cmd := cmd)
    else if ArgsPerElement(cmd) == -1 then st.(cmd := '\0')
    else st.(cmd := cmd)
  }

  /** One item. */
  function Feed(env: Env, st: PathState, item: string): PathState
    requires item != ""
  {
    if st.cmd != '\0' && IsCoordinate(item) then
      var a := st.args + [env.atof(item)];
      if |a| >= Rargs(st.cmd) then Execute(env, st, a) else st.(args := a)
    else Begin(env, st, item[0])
  }

  /** The item that is read next, which for the flags of an arc is a single digit. */
  function ItemFor(st: PathState, s: string, i: nat): (r: (string, nat))
    requires i <= |s|
    ensures i <= r.1 <= |s| && (r.0 != "" ==> i < r.1)
  {
    if st.cmd in "aA" && (|st.args| == 3 || |st.args| == 4) then
      var flag := NextFlag(s, i);
      if flag.0 != "" then flag else NextItem(s, flag.1)
    else NextItem(s, i)
  }

  /** The rest of the string from `i` on. */
  function Parsed(env: Env, st: PathState, s: string, i: nat): PathState
    requires i <= |s|
    decreases |s| - i
  {
    if i == |s| then st
    else
      var item := ItemFor(st, s, i);
      if item.0 == "" then st else Parsed(env, Feed(env, st, item.0), s, item.1)
  }

  lemma ParsedEnd(env: Env, st: PathState, d: string)
    ensures Parsed(env, st, d, |d|) == st
  {
  }

  lemma ParsedStep(env: Env, st: PathState, d: string, i: nat)
    requires i < |d|
    ensures var item := ItemFor(st, d, i);
            Parsed(env, st, d, i) == if item.0 == "" then st else Parsed(env, Feed(env, st, item.0), d, item.1)
  {
    hide Feed, ItemFor;
  }

  lemma PointsOfOne(c: Curve)
    ensures PointsOf([c]) == [Elevated(c).p2, Elevated(c).p3, Elevated(c).p4]
  {
    hide Elevated;
    assert [c][..0] == [];
  }

  lemma QuadIsCube(p: Pt, c: Pt, q: Pt)
    ensures Elevated(Quad(p, c, q))
         == Elevated(Cube(Cubic(p, Pt(p.x + 2.0 / 3.0 * (c.x - p.x), p.y + 2.0 / 3.0 * (c.y - p.y)),
                                Pt(q.x + 2.0 / 3.0 * (c.x - q.x), q.y + 2.0 / 3.0 * (c.y - q.y)), q)))
  {
  }

  lemma SameStored(pts: seq<Pt>, a: Curve, b: Curve)
    requires Elevated(a) == Elevated(b)
    ensures Extended(pts, [a]) == Extended(pts, [b])
  {
    PointsOfOne(a);
    PointsOfOne(b);
  }

  lemma ExtendedMore(pts: seq<Pt>, cubics: seq<Cubic>, i: nat)
    requires i < |cubics|
    ensures Extended(Extended(pts, Cubes(cubics[..i])), [Cube(cubics[i])]) == Extended(pts, Cubes(cubics[..i + 1]))
  {
    assert Cubes(cubics[..i + 1])[..i] == Cubes(cubics[..i]);
    PointsOfOne(Cube(cubics[i]));
  }

  lemma ItemBounds(st: PathState, d: string, i: nat)
    requires i <= |d|
    ensures i <= ItemFor(st, d, i).1 <= |d| && (ItemFor(st, d, i).0 != "" ==> i < ItemFor(st, d, i).1)
  {
  }

  const ORIGIN := Pt(0.0, 0.0)

  function Start(paths: seq<StoredPath>): PathState {
    PathState([], paths, '\0', [], Pen(ORIGIN, ORIGIN), false)
  }

  /** All paths of a `d` attribute, in front of those there were. */
  function PathsOf(env: Env, d: string, paths: seq<StoredPath>): seq<StoredPath> {
    var st := Parsed(env, Start(paths), d, 0);
    if st.pts != [] then Committed(env, st.pts, false, st.paths) else st.paths
  }

  /** The buffer is empty or holds 1 + 3n points, of which the last is the current point. */
  ghost predicate BufferOk(pts: seq<Pt>, pen: Pen) {
    pts != [] ==> |pts| % 3 == 1 && pts[|pts| - 1] == pen.at
  }

  /** What every consumer of a stored path relies on. */
  ghost predicate PathOk(path: StoredPath) {
    |path.pts| >= 4 && |path.pts| % 3 == 1 && (path.closed ==> path.pts[|path.pts| - 1] == path.pts[0])
  }

  ghost predicate PathsOk(paths: seq<StoredPath>) {
    forall i :: 0 <= i < |paths| ==> PathOk(paths[i])
  }

  ghost predicate StateOk(st: PathState) {
    && BufferOk(st.pts, st.pen) && PathsOk(st.paths) && |st.args| <= 6
    && (st.cmd != '\0' ==> ArgsPerElement(st.cmd) >= 0)
    && (ArgsPerElement(st.cmd) == 0 ==> st.args == [])
  }

  lemma PointsOfLast(curves: seq<Curve>)
    requires curves != []
    ensures PointsOf(curves)[3 * |curves| - 1] == Elevated(curves[|curves| - 1]).p4
  {
  }

  /** Adding curves keeps the buffer discipline. */
  lemma ExtendedOk(pts: seq<Pt>, curves: seq<Curve>, pen: Pen, at: Pt)
    requires BufferOk(pts, pen) && curves != [] && Elevated(curves[|curves| - 1]).p4 == at
    ensures BufferOk(Extended(pts, curves), Pen(at, at))
    ensures pts != [] ==> Extended(pts, curves)[0] == pts[0]
  {
    PointsOfLast(curves);
    hide PointsOf, Elevated;
    if pts != [] {
      var points := PointsOf(curves);
      LengthOfPoints(curves);
      assert (pts + points)[|pts + points| - 1] == points[|points| - 1];
    }
  }

  lemma LengthOfPoints(curves: seq<Curve>)
    ensures |PointsOf(curves)| == 3 * |curves|
  {
  }

  /** The second rejection of `nsvg__addPath` never happens: a buffer of four points or more becomes a path. */
  lemma CommittedOk(env: Env, pts: seq<Pt>, pen: Pen, closed: bool, paths: seq<StoredPath>)
    requires BufferOk(pts, pen) && PathsOk(paths)
    ensures PathsOk(Committed(env, pts, closed, paths))
    ensures |Committed(env, pts, closed, paths)| == |paths| + if |pts| >= 4 then 1 else 0
  {
    if |pts| >= 4 && closed {
      ExtendedOk(pts, [Line(pts[|pts| - 1], pts[0])], pen, pts[0]);
    }
  }

  lemma ExecuteOk(env: Env, st: PathState, a: seq<real>)
    requires ArcsConnect(env) && StateOk(st) && st.cmd != '\0' && |a| >= Rargs(st.cmd) && |a| == |st.args| + 1
    ensures StateOk(Execute(env, st, a))
  {
    hide Drawn, PathsOk, ArcsConnect;
    if Draws(st.cmd) {
      DrawnConnects(env, st.cmd, a, st.pen);
      var (curves, pen) := Drawn(env, st.cmd, a, st.pen);
      ExtendedOk(st.pts, curves, st.pen, pen.at);
    }
  }

  lemma BeginOk(env: Env, st: PathState, cmd: char)
    requires StateOk(st)
    ensures StateOk(Begin(env, st, cmd))
  {
    hide PathsOk, Committed;
    CommittedOk(env, st.pts, st.pen, false, st.paths);
    CommittedOk(env, st.pts, st.pen, true, st.paths);
  }

  /** Every item keeps the discipline: the buffer, the stored paths, and at most six collected arguments. */
  lemma FeedOk(env: Env, st: PathState, item: string)
    requires ArcsConnect(env) && StateOk(st) && item != ""
    ensures StateOk(Feed(env, st, item))
  {
    hide Execute, Begin, BufferOk, PathsOk, ArcsConnect;
    if st.cmd != '\0' && IsCoordinate(item) {
      var a := st.args + [env.atof(item)];
      if |a| >= Rargs(st.cmd) {
        ExecuteOk(env, st, a);
      }
    } else {
      BeginOk(env, st, item[0]);
    }
  }

  lemma {:induction false} ParsedOk(env: Env, st: PathState, s: string, i: nat)
    requires ArcsConnect(env) && StateOk(st) && i <= |s|
    ensures StateOk(Parsed(env, st, s, i))
    decreases |s| - i
  {
    hide Feed, StateOk, ArcsConnect;
    if i < |s| {
      var item := ItemFor(st, s, i);
      if item.0 != "" {
        FeedOk(env, st, item.0);
        ParsedOk(env, Feed(env, st, item.0), s, item.1);
      }
    }
  }

  /** For every path string: each stored path has at least four points and 1 + 3n of them, and ends where it
      began if it is closed. */
  lemma PathsOfOk(env: Env, d: string, paths: seq<StoredPath>)
    requires ArcsConnect(env) && PathsOk(paths)
    ensures PathsOk(PathsOf(env, d, paths))
  {
    ParsedOk(env, Start(paths), d, 0);
    var st := Parsed(env, Start(paths), d, 0);
    CommittedOk(env, st.pts, st.pen, false, st.paths);
    hide Parsed, Committed;
  }
}
