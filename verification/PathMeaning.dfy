/** What path data means: the subpaths that section 8.3 of SVG 1.1 describes, drawn command by command from a
    current point. `nsvg__parsePath` stores exactly such subpaths, except that its smooth curves reflect the last
    control point whatever command came before. */
module PathMeaning {
  import opened Edges
  import opened Bezier
  import opened PathLexer
  import opened PathData
  import opened PathGrammar
  import opened PathPrint

  datatype Subpath = Subpath(start: Pt, curves: seq<Curve>, closed: bool)

  /** What has been drawn: finished subpaths, newest first, the subpath that is being drawn, the pen, and the letter
      of the command before. */
  datatype Turtle = Turtle(done: seq<Subpath>, sub: Subpath, pen: Pen, prev: char)

  const SMOOTH_CUBIC := "cCsS"
  const SMOOTH_QUAD := "qQtT"

  function Shifted(base: Pt, x: real, y: real): Pt {
    Pt(base.x + x, base.y + y)
  }

  /** The control point a smooth curve implies. In section 8.3 (`svg`) it is the reflection of the last control point
      if the command before was of the same kind, and else coincides with the current point; in the code it is
      always the reflection. */
  function Implied(svg: bool, kind: string, prev: char, pen: Pen): Pt {
    if svg && prev !in kind then pen.at
    else Pt(pen.at.x + (pen.at.x - pen.ctrl.x), pen.at.y + (pen.at.y - pen.ctrl.y))
  }

  /** Arguments of the lower-case commands are offsets from the current point. */
  function Base(cmd: char, pen: Pen): Pt {
    if cmd in "lhvcsqta" then pen.at else ORIGIN
  }

  /** The curves a command with one group of arguments describes, and the pen after it. */
  function Meant(env: Env, svg: bool, prev: char, cmd: char, a: seq<real>, pen: Pen): (seq<Curve>, Pen)
    requires Draws(cmd) && |a| == ArgsPerElement(cmd)
  {
    var o := Base(cmd, pen);
    if cmd == 'L' || cmd == 'l' then
      var q := Shifted(o, a[0], a[1]);
      ([Line(pen.at, q)], Pen(q, q))
    else if cmd == 'H' || cmd == 'h' then
      var q := Pt(o.x + a[0], pen.at.y);
      ([Line(pen.at, q)], Pen(q, q))
    else if cmd == 'V' || cmd == 'v' then
      var q := Pt(pen.at.x, o.y + a[0]);
      ([Line(pen.at, q)], Pen(q, q))
    else if cmd == 'C' || cmd == 'c' then
      var c := Shifted(o, a[2], a[3]);
      var q := Shifted(o, a[4], a[5]);
      ([Cube(Cubic(pen.at, Shifted(o, a[0], a[1]), c, q))], Pen(q, c))
    else if cmd == 'S' || cmd == 's' then
      var c := Shifted(o, a[0], a[1]);
      var q := Shifted(o, a[2], a[3]);
      ([Cube(Cubic(pen.at, Implied(svg, SMOOTH_CUBIC, prev, pen), c, q))], Pen(q, c))
    else if cmd == 'Q' || cmd == 'q' then
      var c := Shifted(o, a[0], a[1]);
      var q := Shifted(o, a[2], a[3]);
      ([Quad(pen.at, c, q)], Pen(q, c))
    else if cmd == 'T' || cmd == 't' then
      var c := Implied(svg, SMOOTH_QUAD, prev, pen);
      var q := Shifted(o, a[0], a[1]);
      ([Quad(pen.at, c, q)], Pen(q, c))
    else
      var q := Shifted(o, a[5], a[6]);
      (ArcCurves(env, pen.at, q, a), Pen(q, q))
  }

  /** The code draws every command as in the section but for the implied control point. */
  lemma DrawnIsMeant(env: Env, prev: char, cmd: char, a: seq<real>, pen: Pen)
    requires Draws(cmd) && |a| == ArgsPerElement(cmd)
    ensures Drawn(env, cmd, a, pen) == Meant(env, false, prev, cmd, a, pen)
  {
    hide ArcCurves;
  }

  /** A smooth curve after a command of another kind, which has left its control point apart from the pen. */
  predicate Misread(prev: char, cmd: char, pen: Pen) {
    && pen.ctrl != pen.at
    && ((cmd in "sS" && prev !in SMOOTH_CUBIC) || (cmd in "tT" && prev !in SMOOTH_QUAD))
  }

  /** One step: code and section agree on a command if and only if it is not misread. They never differ in how many
      curves are drawn nor where the pen goes. */
  lemma StepMeantIff(env: Env, prev: char, cmd: char, a: seq<real>, pen: Pen)
    requires Draws(cmd) && |a| == ArgsPerElement(cmd)
    ensures Drawn(env, cmd, a, pen) == Meant(env, true, prev, cmd, a, pen) <==> !Misread(prev, cmd, pen)
    ensures Drawn(env, cmd, a, pen).0 == Meant(env, true, prev, cmd, a, pen).0 <==> !Misread(prev, cmd, pen)
    ensures |Drawn(env, cmd, a, pen).0| == |Meant(env, true, prev, cmd, a, pen).0|
    ensures Drawn(env, cmd, a, pen).1.at == Meant(env, true, prev, cmd, a, pen).1.at
  {
    hide ArcCurves;
    var p, q := Reflected(pen), pen.at;
    assert p == q <==> pen.ctrl == pen.at;
  }

  function EndOf(sub: Subpath): Pt {
    if sub.curves == [] then sub.start else Elevated(sub.curves[|sub.curves| - 1]).p4
  }

  /** The curves of a finished subpath. */
  function ClosedCurves(sub: Subpath, closed: bool): seq<Curve> {
    sub.curves + if closed then [Line(EndOf(sub), sub.start)] else []
  }

  /** A subpath is finished by a line to its start if it is closed; one without curves is dropped. */
  function Finished(t: Turtle, closed: bool): seq<Subpath> {
    if t.sub.curves == [] then t.done
    else [Subpath(t.sub.start, ClosedCurves(t.sub, closed), closed)] + t.done
  }

  function MoveTo(t: Turtle, letter: char, a: seq<real>): Turtle
    requires |a| == 2
  {
    var q := Shifted(if letter == 'm' then t.pen.at else ORIGIN, a[0], a[1]);
    Turtle(Finished(t, false), Subpath(q, [], false), Pen(q, q), letter)
  }

  function Close(t: Turtle): Turtle {
    Turtle(Finished(t, true), Subpath(t.sub.start, [], false), Pen(t.sub.start, t.sub.start), 'Z')
  }

  function Draw(env: Env, svg: bool, t: Turtle, cmd: char, a: seq<real>): Turtle
    requires Draws(cmd) && |a| == ArgsPerElement(cmd)
  {
    var (curves, pen) := Meant(env, svg, t.prev, cmd, a, t.pen);
    Turtle(t.done, t.sub.(curves := t.sub.curves + curves), pen, cmd)
  }

  ghost function DrawGroups(env: Env, svg: bool, t: Turtle, cmd: char, groups: seq<seq<string>>): Turtle
    requires Draws(cmd) && forall i :: 0 <= i < |groups| ==> NumberGroup(groups[i], ArgsPerElement(cmd))
    decreases |groups|
  {
    if groups == [] then t
    else
      assert NumberGroup(groups[0], ArgsPerElement(cmd));
      DrawGroups(env, svg, Draw(env, svg, t, cmd, Values(env, groups[0])), cmd, groups[1..])
  }

  /** One command. Points after the first of a moveto are those of lines. */
  ghost function Do(env: Env, svg: bool, t: Turtle, c: Command): Turtle
    requires Legal(c)
  {
    if c.letter in "zZ" then Close(t)
    else if c.letter in "mM" then
      DrawGroups(env, svg, MoveTo(t, c.letter, Values(env, c.groups[0])), if c.letter == 'm' then 'l' else 'L',
                 c.groups[1..])
    else DrawGroups(env, svg, t, c.letter, c.groups)
  }

  ghost predicate AllLegal(doc: seq<Command>) {
    forall i :: 0 <= i < |doc| ==> Legal(doc[i])
  }

  ghost function DoAll(env: Env, svg: bool, t: Turtle, doc: seq<Command>): Turtle
    requires AllLegal(doc)
    decreases |doc|
  {
    if doc == [] then t else DoAll(env, svg, Do(env, svg, t, doc[0]), doc[1..])
  }

  const FRESH := Turtle([], Subpath(ORIGIN, [], false), Pen(ORIGIN, ORIGIN), 'M')

  /** The subpaths of path data, newest first. */
  ghost function Subpaths(env: Env, svg: bool, doc: seq<Command>): seq<Subpath>
    requires AllLegal(doc)
  {
    Finished(DoAll(env, svg, FRESH, doc), false)
  }

  /** The points of a subpath as they are stored. */
  function Stored(env: Env, sub: Subpath): StoredPath {
    StoredPath(Transformed(env, [sub.start] + PointsOf(sub.curves)), sub.closed)
  }

  function AllStored(env: Env, subs: seq<Subpath>): (r: seq<StoredPath>)
    ensures |r| == |subs| && forall i :: 0 <= i < |r| ==> r[i] == Stored(env, subs[i])
  {
    seq(|subs|, i requires 0 <= i < |subs| => Stored(env, subs[i]))
  }

  /** The parser's state holds what has been drawn. */
  ghost predicate Matches(env: Env, st: PathState, t: Turtle, paths: seq<StoredPath>) {
    && st.pen == t.pen && st.paths == AllStored(env, t.done) + paths && st.args == []
    && st.pts == (if st.started then [t.sub.start] + PointsOf(t.sub.curves) else [])
    && (!st.started ==> t.sub.curves == [])
  }

  lemma {:induction false} PointsOfConcat(a: seq<Curve>, b: seq<Curve>)
    ensures PointsOf(a + b) == PointsOf(a) + PointsOf(b)
    decreases |b|
  {
    if b == [] {
      assert a + b == a;
    } else {
      assert (a + b)[..|a + b| - 1] == a + b[..|b| - 1];
      PointsOfConcat(a, b[..|b| - 1]);
      hide Elevated;
    }
  }

  lemma AllStoredMore(env: Env, sub: Subpath, done: seq<Subpath>)
    ensures AllStored(env, [sub] + done) == [Stored(env, sub)] + AllStored(env, done)
  {
    hide Stored;
  }

  lemma LastPoint(sub: Subpath)
    ensures var pts := [sub.start] + PointsOf(sub.curves); pts[|pts| - 1] == EndOf(sub)
  {
    if sub.curves != [] {
      PointsOfLast(sub.curves);
    }
  }

  lemma PointsOfClosed(sub: Subpath, closed: bool)
    ensures var pts := [sub.start] + PointsOf(sub.curves);
            [sub.start] + PointsOf(ClosedCurves(sub, closed))
            == if closed then Extended(pts, [Line(pts[|pts| - 1], pts[0])]) else pts
  {
    hide Elevated;
    LastPoint(sub);
    PointsOfConcat(sub.curves, if closed then [Line(EndOf(sub), sub.start)] else []);
    hide PointsOf, EndOf;
    assert sub.curves + [] == sub.curves;
  }

  /** Committing the buffer stores the finished subpath. */
  lemma CommittedIsFinished(env: Env, t: Turtle, closed: bool, paths: seq<StoredPath>)
    ensures Committed(env, [t.sub.start] + PointsOf(t.sub.curves), closed, AllStored(env, t.done) + paths)
         == AllStored(env, Finished(t, closed)) + paths
  {
    var sub := t.sub;
    PointsOfClosed(sub, closed);
    AllStoredMore(env, Subpath(sub.start, ClosedCurves(sub, closed), closed), t.done);
    hide PointsOf, EndOf, Extended, AllStored, Transformed;
  }

  lemma DrawMatches(env: Env, st: PathState, t: Turtle, paths: seq<StoredPath>, a: seq<real>)
    requires Matches(env, st, t, paths) && st.started && Draws(st.cmd) && |a| == ArgsPerElement(st.cmd)
    ensures Matches(env, Execute(env, st, a), Draw(env, false, t, st.cmd, a), paths)
    ensures Execute(env, st, a).cmd == st.cmd && Execute(env, st, a).started
  {
    DrawnIsMeant(env, t.prev, st.cmd, a, st.pen);
    PointsOfMore(t.sub, Drawn(env, st.cmd, a, st.pen).0);
    hide Drawn, Meant, PointsOf, AllStored;
  }

  lemma PointsOfMore(sub: Subpath, curves: seq<Curve>)
    ensures Extended([sub.start] + PointsOf(sub.curves), curves) == [sub.start] + PointsOf(sub.curves + curves)
  {
    PointsOfConcat(sub.curves, curves);
    hide PointsOf;
  }

  lemma {:induction false} GroupsMatch(env: Env, st: PathState, t: Turtle, paths: seq<StoredPath>,
                                             groups: seq<seq<string>>)
    requires Matches(env, st, t, paths) && st.started && Draws(st.cmd)
    requires forall i :: 0 <= i < |groups| ==> NumberGroup(groups[i], ArgsPerElement(st.cmd))
    ensures Matches(env, Perform(env, st, groups), DrawGroups(env, false, t, st.cmd, groups), paths)
    ensures Perform(env, st, groups).started
    decreases |groups|
  {
    hide Matches, Execute, Draw;
    if groups != [] {
      var a := Values(env, groups[0]);
      DrawMatches(env, st, t, paths, a);
      GroupsMatch(env, Execute(env, st, a), Draw(env, false, t, st.cmd, a), paths, groups[1..]);
    }
  }

  lemma CloseMatches(env: Env, st: PathState, t: Turtle, paths: seq<StoredPath>, letter: char)
    requires Matches(env, st, t, paths) && st.started && letter in "zZ"
    ensures Matches(env, Begin(env, st, letter), Close(t), paths) && Begin(env, st, letter).started
  {
    CommittedIsFinished(env, t, true, paths);
    hide Committed, AllStored, Finished;
    assert PointsOf([]) == [];
  }

  lemma MoveMatches(env: Env, st: PathState, t: Turtle, paths: seq<StoredPath>, letter: char, a: seq<real>)
    requires Matches(env, st, t, paths) && letter in "mM" && |a| == 2
    ensures var next := Execute(env, Begin(env, st, letter), a);
            && Matches(env, next, MoveTo(t, letter, a), paths) && next.started
            && next.cmd == if letter == 'm' then 'l' else 'L'
  {
    BeginMove(env, st, t, paths, letter);
    assert PointsOf([]) == [];
    hide Begin, Finished, AllStored;
  }

  lemma BeginMove(env: Env, st: PathState, t: Turtle, paths: seq<StoredPath>, letter: char)
    requires Matches(env, st, t, paths) && letter in "mM"
    ensures Begin(env, st, letter)
         == PathState([], AllStored(env, Finished(t, false)) + paths, letter, [], t.pen, st.started)
  {
    CommittedIsFinished(env, t, false, paths);
    hide Committed, AllStored, PointsOf;
  }

  lemma BeginOther(env: Env, st: PathState, t: Turtle, paths: seq<StoredPath>, letter: char)
    requires Matches(env, st, t, paths) && st.started && Draws(letter)
    ensures Matches(env, Begin(env, st, letter), t, paths)
    ensures Begin(env, st, letter).started && Begin(env, st, letter).cmd == letter
  {
    hide Committed, AllStored, PointsOf;
  }

  lemma CloseCommandMatches(env: Env, st: PathState, t: Turtle, paths: seq<StoredPath>, c: Command)
    requires Matches(env, st, t, paths) && Legal(c) && st.started && c.letter in "zZ"
    ensures c.groups == []
    ensures var next := Perform(env, Begin(env, st, c.letter), c.groups);
            Matches(env, next, Do(env, false, t, c), paths) && next.started
  {
    hide Execute, Draw, MoveTo, Close, Begin, Matches, DrawGroups, Perform;
    CloseMatches(env, st, t, paths, c.letter);
    PerformNone(env, Begin(env, st, c.letter));
  }

  lemma DrawCommandMatches(env: Env, st: PathState, t: Turtle, paths: seq<StoredPath>, c: Command)
    requires Matches(env, st, t, paths) && Legal(c) && st.started && c.letter !in "zZmM"
    ensures forall i :: 0 <= i < |c.groups| ==> NumberGroup(c.groups[i], Rargs(Begin(env, st, c.letter).cmd))
    ensures var next := Perform(env, Begin(env, st, c.letter), c.groups);
            Matches(env, next, Do(env, false, t, c), paths) && next.started
  {
    hide Execute, Draw, MoveTo, Close, Begin, Matches, DrawGroups, Perform;
    BeginOther(env, st, t, paths, c.letter);
    GroupsMatch(env, Begin(env, st, c.letter), t, paths, c.groups);
  }

  lemma CommandMatches(env: Env, st: PathState, t: Turtle, paths: seq<StoredPath>, c: Command)
    requires Matches(env, st, t, paths) && Legal(c) && (st.started || c.letter in "mM")
    ensures forall i :: 0 <= i < |c.groups| ==> NumberGroup(c.groups[i], Rargs(Begin(env, st, c.letter).cmd))
    ensures var next := Perform(env, Begin(env, st, c.letter), c.groups);
            Matches(env, next, Do(env, false, t, c), paths) && next.started
  {
    hide Begin, Matches, Perform, Do, Legal, NumberGroup;
    if c.letter in "zZ" {
      CloseCommandMatches(env, st, t, paths, c);
    } else if c.letter in "mM" {
      MoveCommandMatches(env, st, t, paths, c);
    } else {
      DrawCommandMatches(env, st, t, paths, c);
    }
  }

  lemma PerformNone(env: Env, st: PathState)
    ensures Perform(env, st, []) == st
  {
  }

  lemma MoveCommandMatches(env: Env, st: PathState, t: Turtle, paths: seq<StoredPath>, c: Command)
    requires Matches(env, st, t, paths) && Legal(c) && c.letter in "mM"
    ensures forall i :: 0 <= i < |c.groups| ==> NumberGroup(c.groups[i], Rargs(Begin(env, st, c.letter).cmd))
    ensures var next := Perform(env, Begin(env, st, c.letter), c.groups);
            Matches(env, next, Do(env, false, t, c), paths) && next.started
  {
    BeginMove(env, st, t, paths, c.letter);
    var next := Begin(env, st, c.letter);
    hide Begin, Matches, Finished, AllStored, Execute, MoveTo, DrawGroups;
    assert NumberGroup(c.groups[0], 2);
    var a := Values(env, c.groups[0]);
    MoveMatches(env, st, t, paths, c.letter, a);
    GroupsMatch(env, Execute(env, next, a), MoveTo(t, c.letter, a), paths, c.groups[1..]);
  }

  /** For all legal data that begins with a moveto, the machine's state is the drawing (with the code's implied control
      points) at every command. */
  lemma {:induction false} DataMatches(env: Env, st: PathState, t: Turtle, paths: seq<StoredPath>, doc: seq<Command>)
    requires Matches(env, st, t, paths) && AllLegal(doc) && Continues(st, doc)
    ensures Matches(env, PerformAll(env, st, doc), DoAll(env, false, t, doc), paths)
    ensures doc != [] ==> PerformAll(env, st, doc).started
    decreases |doc|
  {
    assert st.args == [];
    hide Matches, Execute, Begin, Do, Legal;
    if doc != [] {
      CommandMatches(env, st, t, paths, doc[0]);
      var next := Perform(env, Begin(env, st, doc[0].letter), doc[0].groups);
      BeginLegal(env, st, doc[0]);
      PerformKeeps(env, Begin(env, st, doc[0].letter), doc[0].groups);
      DataMatches(env, next, Do(env, false, t, doc[0]), paths, doc[1..]);
    }
  }

  /** From text to stored paths: legal data that begins with a moveto, written with any gaps that keep its items apart,
      is stored as the subpaths it draws. */
  lemma TextIsDrawn(env: Env, paths: seq<StoredPath>, doc: seq<Command>, gaps: seq<string>)
    requires (forall i :: 0 <= i < |doc| ==> Printable(doc[i])) && (doc == [] || doc[0].letter in "mM")
    requires GapsFit(doc, gaps)
    ensures AllLegal(doc)
    ensures PathsOf(env, Text(AllTokens(doc), gaps), paths) == AllStored(env, Subpaths(env, false, doc)) + paths
  {
    PrintedDataIsPerformed(env, paths, doc, gaps);
    FreshMatches(env, paths);
    hide Legal, Printable, Parsed, Text, PerformAll, DoAll, Matches, GapsOk;
    DataMatches(env, Start(paths), FRESH, paths, doc);
    StoredAtEnd(env, PerformAll(env, Start(paths), doc), DoAll(env, false, FRESH, doc), paths);
  }

  lemma FreshMatches(env: Env, paths: seq<StoredPath>)
    ensures Matches(env, Start(paths), FRESH, paths)
  {
    assert AllStored(env, []) + paths == paths;
  }

  lemma StoredAtEnd(env: Env, st: PathState, t: Turtle, paths: seq<StoredPath>)
    requires Matches(env, st, t, paths)
    ensures (if st.pts != [] then Committed(env, st.pts, false, st.paths) else st.paths)
         == AllStored(env, Finished(t, false)) + paths
  {
    CommittedIsFinished(env, t, false, paths);
    hide Committed, AllStored, PointsOf;
  }

  // Where code and section part.

  /** The drawings differ, although curve by curve they have the same shape and pens are at the same place. */
  ghost predicate Parted(t: Turtle, u: Turtle) {
    && t.pen.at == u.pen.at && t.sub.start == u.sub.start
    && |t.sub.curves| == |u.sub.curves| && |t.done| == |u.done|
    && (t.sub.curves != u.sub.curves || t.done != u.done)
  }

  lemma FinishedParted(t: Turtle, u: Turtle, closed: bool)
    requires Parted(t, u)
    ensures |Finished(t, closed)| == |Finished(u, closed)| && Finished(t, closed) != Finished(u, closed)
  {
    hide EndOf;
    if t.sub.curves != [] {
      PrefixDiffers(t.sub, u.sub, closed);
      var a := Subpath(t.sub.start, ClosedCurves(t.sub, closed), closed);
      var b := Subpath(u.sub.start, ClosedCurves(u.sub, closed), closed);
      hide ClosedCurves;
      if t.sub.curves != u.sub.curves {
        assert ([a] + t.done)[0] != ([b] + u.done)[0];
      } else {
        assert ([a] + t.done)[1..] == t.done && ([b] + u.done)[1..] == u.done;
      }
    }
  }

  lemma PrefixDiffers(s: Subpath, s': Subpath, closed: bool)
    requires |s.curves| == |s'.curves|
    ensures s.curves != s'.curves ==> ClosedCurves(s, closed) != ClosedCurves(s', closed)
  {
    hide EndOf;
    assert ClosedCurves(s, closed)[..|s.curves|] == s.curves && ClosedCurves(s', closed)[..|s.curves|] == s'.curves;
  }

  lemma SameShape(env: Env, prev: char, prev': char, cmd: char, a: seq<real>, pen: Pen, pen': Pen)
    requires Draws(cmd) && |a| == ArgsPerElement(cmd) && pen.at == pen'.at
    ensures |Meant(env, false, prev, cmd, a, pen).0| == |Meant(env, true, prev', cmd, a, pen').0|
    ensures Meant(env, false, prev, cmd, a, pen).1.at == Meant(env, true, prev', cmd, a, pen').1.at
  {
    hide ArcCurves, Implied;
  }

  lemma ConcatDiffers<T>(a: seq<T>, b: seq<T>, c: seq<T>, d: seq<T>)
    requires |a| == |b| && a != b
    ensures a + c != b + d
  {
    assert (a + c)[..|a|] == a && (b + d)[..|a|] == b;
  }

  lemma DrawParted(env: Env, t: Turtle, u: Turtle, cmd: char, a: seq<real>)
    requires Parted(t, u) && Draws(cmd) && |a| == ArgsPerElement(cmd)
    ensures Parted(Draw(env, false, t, cmd, a), Draw(env, true, u, cmd, a))
  {
    SameShape(env, t.prev, u.prev, cmd, a, t.pen, u.pen);
    hide Meant;
    if t.sub.curves != u.sub.curves {
      ConcatDiffers(t.sub.curves, u.sub.curves, Meant(env, false, t.prev, cmd, a, t.pen).0,
                    Meant(env, true, u.prev, cmd, a, u.pen).0);
    }
  }

  lemma {:induction false} GroupsParted(env: Env, t: Turtle, u: Turtle, cmd: char, groups: seq<seq<string>>)
    requires Parted(t, u) && Draws(cmd)
    requires forall i :: 0 <= i < |groups| ==> NumberGroup(groups[i], ArgsPerElement(cmd))
    ensures Parted(DrawGroups(env, false, t, cmd, groups), DrawGroups(env, true, u, cmd, groups))
    decreases |groups|
  {
    hide Parted, Draw;
    if groups != [] {
      assert NumberGroup(groups[0], ArgsPerElement(cmd));
      var a := Values(env, groups[0]);
      DrawParted(env, t, u, cmd, a);
      GroupsParted(env, Draw(env, false, t, cmd, a), Draw(env, true, u, cmd, a), cmd, groups[1..]);
    }
  }

  lemma CommandParted(env: Env, t: Turtle, u: Turtle, c: Command)
    requires Parted(t, u) && Legal(c)
    ensures Parted(Do(env, false, t, c), Do(env, true, u, c))
  {
    FinishedParted(t, u, false);
    FinishedParted(t, u, true);
    if c.letter in "mM" {
      assert NumberGroup(c.groups[0], 2);
      var a := Values(env, c.groups[0]);
      assert Parted(MoveTo(t, c.letter, a), MoveTo(u, c.letter, a)) by {
        hide Finished;
      }
      hide MoveTo, Parted, Finished;
      GroupsParted(env, MoveTo(t, c.letter, a), MoveTo(u, c.letter, a), if c.letter == 'm' then 'l' else 'L',
                   c.groups[1..]);
    } else if c.letter !in "zZ" {
      GroupsParted(env, t, u, c.letter, c.groups);
    } else {
      hide Finished;
    }
  }

  /** After a command of the same kind nothing is misread, so the further groups of a command are not. */
  lemma {:induction false} GroupsMeant(env: Env, t: Turtle, cmd: char, groups: seq<seq<string>>)
    requires Draws(cmd) && !Misread(t.prev, cmd, t.pen)
    requires forall i :: 0 <= i < |groups| ==> NumberGroup(groups[i], ArgsPerElement(cmd))
    ensures DrawGroups(env, false, t, cmd, groups) == DrawGroups(env, true, t, cmd, groups)
    decreases |groups|
  {
    if groups != [] {
      assert NumberGroup(groups[0], ArgsPerElement(cmd));
      var a := Values(env, groups[0]);
      DrawMeantIff(env, t, cmd, a);
      var next := Draw(env, false, t, cmd, a);
      assert next.prev == cmd && !Misread(cmd, cmd, next.pen);
      hide Draw, Misread;
      GroupsMeant(env, next, cmd, groups[1..]);
    }
  }

  /** One step of both drawings from the same place. */
  lemma DrawMeantIff(env: Env, t: Turtle, cmd: char, a: seq<real>)
    requires Draws(cmd) && |a| == ArgsPerElement(cmd)
    ensures !Misread(t.prev, cmd, t.pen) ==> Draw(env, false, t, cmd, a) == Draw(env, true, t, cmd, a)
    ensures Misread(t.prev, cmd, t.pen) ==> Parted(Draw(env, false, t, cmd, a), Draw(env, true, t, cmd, a))
  {
    DrawnIsMeant(env, t.prev, cmd, a, t.pen);
    StepMeantIff(env, t.prev, cmd, a, t.pen);
    hide Meant, Drawn, Misread;
    var c, d := Meant(env, false, t.prev, cmd, a, t.pen).0, Meant(env, true, t.prev, cmd, a, t.pen).0;
    if c != d {
      assert (t.sub.curves + c)[|t.sub.curves|..] == c && (t.sub.curves + d)[|t.sub.curves|..] == d;
    }
  }

  lemma CommandMeantIff(env: Env, t: Turtle, c: Command)
    requires Legal(c)
    ensures !Misread(t.prev, c.letter, t.pen) ==> Do(env, false, t, c) == Do(env, true, t, c)
    ensures Misread(t.prev, c.letter, t.pen) ==> Parted(Do(env, false, t, c), Do(env, true, t, c))
  {
    if c.letter in "mM" {
      assert NumberGroup(c.groups[0], 2);
      var a := Values(env, c.groups[0]);
      hide Finished;
      GroupsMeant(env, MoveTo(t, c.letter, a), if c.letter == 'm' then 'l' else 'L', c.groups[1..]);
    } else if c.letter in "zZ" {
      hide Close;
    } else if Misread(t.prev, c.letter, t.pen) {
      assert NumberGroup(c.groups[0], ArgsPerElement(c.letter));
      var a := Values(env, c.groups[0]);
      DrawMeantIff(env, t, c.letter, a);
      hide Draw, Parted;
      GroupsParted(env, Draw(env, false, t, c.letter, a), Draw(env, true, t, c.letter, a), c.letter, c.groups[1..]);
    } else {
      GroupsMeant(env, t, c.letter, c.groups);
    }
  }

  /** No command of the data is misread where the code's drawing comes to it. */
  ghost predicate Clear(env: Env, t: Turtle, doc: seq<Command>)
    requires AllLegal(doc)
    decreases |doc|
  {
    doc == [] || (!Misread(t.prev, doc[0].letter, t.pen) && Clear(env, Do(env, false, t, doc[0]), doc[1..]))
  }

  lemma {:induction false} StayParted(env: Env, t: Turtle, u: Turtle, doc: seq<Command>)
    requires Parted(t, u) && AllLegal(doc)
    ensures Parted(DoAll(env, false, t, doc), DoAll(env, true, u, doc))
    decreases |doc|
  {
    hide Parted, Do, Legal;
    if doc != [] {
      CommandParted(env, t, u, doc[0]);
      StayParted(env, Do(env, false, t, doc[0]), Do(env, true, u, doc[0]), doc[1..]);
    }
  }

  lemma {:induction false} DrawingMeantIff(env: Env, t: Turtle, doc: seq<Command>)
    requires AllLegal(doc)
    ensures Clear(env, t, doc) ==> DoAll(env, false, t, doc) == DoAll(env, true, t, doc)
    ensures !Clear(env, t, doc) ==> Parted(DoAll(env, false, t, doc), DoAll(env, true, t, doc))
    decreases |doc|
  {
    hide Parted, Do, Legal, Misread;
    if doc != [] {
      CommandMeantIff(env, t, doc[0]);
      var next := Do(env, false, t, doc[0]);
      if Misread(t.prev, doc[0].letter, t.pen) {
        StayParted(env, next, Do(env, true, t, doc[0]), doc[1..]);
      } else {
        DrawingMeantIff(env, next, doc[1..]);
      }
    }
  }

  /** For all legal data: the subpaths are those of section 8.3 if and only if no command is misread. Later commands
      never repair one. */
  lemma SubpathsMeantIff(env: Env, doc: seq<Command>)
    requires AllLegal(doc)
    ensures Subpaths(env, false, doc) == Subpaths(env, true, doc) <==> Clear(env, FRESH, doc)
  {
    DrawingMeantIff(env, FRESH, doc);
    hide DoAll, Legal;
    var t, u := DoAll(env, false, FRESH, doc), DoAll(env, true, FRESH, doc);
    if Parted(t, u) {
      FinishedParted(t, u, false);
    }
  }

  /** The last control point is apart from the pen only after a curve. */
  predicate PenFits(t: Turtle) {
    t.prev !in SMOOTH_CUBIC && t.prev !in SMOOTH_QUAD ==> t.pen.ctrl == t.pen.at
  }

  /** The letters of two commands of which the second is misread. */
  predicate Clashes(prev: char, letter: char) {
    (letter in "sS" && prev in SMOOTH_QUAD) || (letter in "tT" && prev in SMOOTH_CUBIC)
  }

  lemma MisreadIsClash(t: Turtle, letter: char)
    requires PenFits(t)
    ensures Misread(t.prev, letter, t.pen) <==> Clashes(t.prev, letter) && t.pen.ctrl != t.pen.at
  {
  }

  lemma {:induction false} GroupsFit(env: Env, t: Turtle, cmd: char, groups: seq<seq<string>>)
    requires PenFits(t) && Draws(cmd)
    requires forall i :: 0 <= i < |groups| ==> NumberGroup(groups[i], ArgsPerElement(cmd))
    ensures var u := DrawGroups(env, false, t, cmd, groups);
            PenFits(u) && u.prev == if groups == [] then t.prev else cmd
    decreases |groups|
  {
    if groups != [] {
      assert NumberGroup(groups[0], ArgsPerElement(cmd));
      GroupsFit(env, Draw(env, false, t, cmd, Values(env, groups[0])), cmd, groups[1..]);
    }
  }

  lemma CommandFits(env: Env, t: Turtle, c: Command, letter: char)
    requires PenFits(t) && Legal(c)
    ensures var u := Do(env, false, t, c); PenFits(u) && (Clashes(u.prev, letter) <==> Clashes(c.letter, letter))
  {
    hide Finished, DrawGroups;
    if c.letter in "mM" {
      assert NumberGroup(c.groups[0], 2);
      var a := Values(env, c.groups[0]);
      var start := MoveTo(t, c.letter, a);
      assert PenFits(start) && start.prev == c.letter;
      hide MoveTo, PenFits;
      GroupsFit(env, start, if c.letter == 'm' then 'l' else 'L', c.groups[1..]);
    } else if c.letter !in "zZ" {
      hide PenFits;
      GroupsFit(env, t, c.letter, c.groups);
    }
  }

  /** A smooth curve right after one of the other kind, when that has left its control point apart from the pen. */
  ghost predicate ClashAt(env: Env, t: Turtle, doc: seq<Command>, k: nat)
    requires AllLegal(doc) && k < |doc|
  {
    var u := DoAll(env, false, t, doc[..k]);
    && (if k == 0 then Clashes(t.prev, doc[0].letter) else Clashes(doc[k - 1].letter, doc[k].letter))
    && u.pen.ctrl != u.pen.at
  }

  lemma ClashAfterFirst(env: Env, t: Turtle, doc: seq<Command>, k: nat)
    requires AllLegal(doc) && PenFits(t) && k + 1 < |doc|
    ensures ClashAt(env, t, doc, k + 1) <==> ClashAt(env, Do(env, false, t, doc[0]), doc[1..], k)
  {
    CommandFits(env, t, doc[0], doc[1].letter);
    assert doc[..k + 1][1..] == doc[1..][..k];
    hide Do, Legal, Clashes;
  }

  lemma {:induction false} ClearIff(env: Env, t: Turtle, doc: seq<Command>)
    requires AllLegal(doc) && PenFits(t)
    ensures Clear(env, t, doc) <==> forall k: nat :: k < |doc| ==> !ClashAt(env, t, doc, k)
    decreases |doc|
  {
    if doc != [] {
      var next := Do(env, false, t, doc[0]);
      MisreadIsClash(t, doc[0].letter);
      CommandFits(env, t, doc[0], doc[0].letter);
      assert doc[..0] == [];
      assert ClashAt(env, t, doc, 0) <==> Misread(t.prev, doc[0].letter, t.pen);
      hide Do, Legal, Clashes, ClashAt, Misread, PenFits;
      ClearIff(env, next, doc[1..]);
      forall k: nat | k + 1 < |doc|
        ensures ClashAt(env, t, doc, k + 1) <==> ClashAt(env, next, doc[1..], k)
      {
        ClashAfterFirst(env, t, doc, k);
      }
      ShiftAll(env, t, next, doc);
    }
  }

  lemma ShiftAll(env: Env, t: Turtle, next: Turtle, doc: seq<Command>)
    requires AllLegal(doc) && doc != []
    requires forall k: nat :: k + 1 < |doc| ==> (ClashAt(env, t, doc, k + 1) <==> ClashAt(env, next, doc[1..], k))
    ensures (forall k: nat :: k < |doc| ==> !ClashAt(env, t, doc, k))
        <==> !ClashAt(env, t, doc, 0) && forall k: nat :: k < |doc[1..]| ==> !ClashAt(env, next, doc[1..], k)
  {
    hide ClashAt, Legal;
    if forall k: nat :: k < |doc| ==> !ClashAt(env, t, doc, k) {
      forall k: nat | k < |doc[1..]| ensures !ClashAt(env, next, doc[1..], k) {
        assert !ClashAt(env, t, doc, k + 1);
      }
    }
    if !ClashAt(env, t, doc, 0) && forall k: nat :: k < |doc[1..]| ==> !ClashAt(env, next, doc[1..], k) {
      forall k: nat | k < |doc| ensures !ClashAt(env, t, doc, k) {
        if k > 0 {
          assert !ClashAt(env, next, doc[1..], k - 1);
          assert k - 1 + 1 == k;
        }
      }
    }
  }

  /** For all legal data: the subpaths are those of section 8.3 if and only if nowhere S or s follows Q, q, T or t,
      nor T or t follows C, c, S or s, where the control point is apart from the current point. */
  lemma MeaningIff(env: Env, doc: seq<Command>)
    requires AllLegal(doc)
    ensures Subpaths(env, false, doc) == Subpaths(env, true, doc)
            <==> forall k: nat :: k < |doc| ==> !ClashAt(env, FRESH, doc, k)
  {
    SubpathsMeantIff(env, doc);
    ClearIff(env, FRESH, doc);
    hide Subpaths, Clear, ClashAt, Legal;
  }

  /** Numbers of one digit are converted to their values. */
  predicate ReadsDigits(env: Env) {
    && env.atof("0") == 0.0 && env.atof("1") == 1.0 && env.atof("2") == 2.0 && env.atof("3") == 3.0
    && env.atof("4") == 4.0
  }

  lemma DoOneGroup(env: Env, svg: bool, t: Turtle, letter: char, g: seq<string>, a: seq<real>)
    requires Draws(letter) && NumberGroup(g, ArgsPerElement(letter)) && Values(env, g) == a
    ensures Legal(Command(letter, [g])) && Do(env, svg, t, Command(letter, [g])) == Draw(env, svg, t, letter, a)
  {
    hide Draw, NumberGroup;
    assert [g][1..] == [];
    assert Legal(Command(letter, [g]));
    hide Legal;
    DrawOneGroup(env, svg, t, letter, g, a);
  }

  lemma DrawOneGroup(env: Env, svg: bool, t: Turtle, letter: char, g: seq<string>, a: seq<real>)
    requires Draws(letter) && NumberGroup(g, ArgsPerElement(letter)) && Values(env, g) == a
    ensures DrawGroups(env, svg, t, letter, [g]) == Draw(env, svg, t, letter, a)
  {
    hide Draw, NumberGroup;
    assert [g][1..] == [];
  }

  /** "M 0 0" */
  const TO_ORIGIN := Command('M', [["0", "0"]])

  lemma FromOrigin(env: Env, svg: bool)
    requires ReadsDigits(env)
    ensures Legal(TO_ORIGIN) && Do(env, svg, FRESH, TO_ORIGIN) == FRESH
  {
    var g := ["0", "0"];
    assert NumberGroup(g, 2);
    assert [g][1..] == [];
    assert Values(env, g) == [0.0, 0.0];
    hide NumberGroup;
    assert Legal(TO_ORIGIN);
    hide Legal;
    assert DrawGroups(env, svg, MoveTo(FRESH, 'M', [0.0, 0.0]), 'L', []) == MoveTo(FRESH, 'M', [0.0, 0.0]);
  }

  /** The subpaths of a moveto to the origin and two curve commands. */
  lemma TwoCommands(env: Env, svg: bool, c: Command, d: Command)
    requires ReadsDigits(env) && Legal(c) && Legal(d)
    ensures AllLegal([TO_ORIGIN, c, d])
    ensures Subpaths(env, svg, [TO_ORIGIN, c, d]) == Finished(Do(env, svg, Do(env, svg, FRESH, c), d), false)
  {
    FromOrigin(env, svg);
    hide Legal, Do, Finished;
    var doc := [TO_ORIGIN, c, d];
    assert doc[1..] == [c, d] && [c, d][1..] == [d] && [d][1..] == [];
    var t1 := Do(env, svg, FRESH, c);
    assert DoAll(env, svg, Do(env, svg, t1, d), []) == Do(env, svg, t1, d);
    assert DoAll(env, svg, t1, [d]) == Do(env, svg, t1, d);
    assert DoAll(env, svg, FRESH, [c, d]) == DoAll(env, svg, t1, [d]);
  }

  lemma TwoCurves(t: Turtle, a: Curve, b: Curve)
    requires t.done == [] && t.sub == Subpath(ORIGIN, [a] + [b], false)
    ensures Finished(t, false) == [Subpath(ORIGIN, [a, b], false)]
  {
    hide EndOf;
    assert [a] + [b] + [] == [a, b];
  }

  const A_QUAD := Command('Q', [["1", "1", "2", "0"]])
  const THEN_CUBIC := Command('S', [["3", "1", "4", "0"]])
  const A_CUBIC := Command('C', [["0", "1", "2", "1", "2", "0"]])
  const THEN_QUAD := Command('T', [["4", "0"]])

  /** Of "M 0 0 Q 1 1 2 0 S 3 1 4 0" the second curve starts with control point (3, -1), and not with (2, 0) as it
      should. */
  lemma CubicAfterQuad(env: Env)
    requires ReadsDigits(env)
    ensures AllLegal([TO_ORIGIN, A_QUAD, THEN_CUBIC])
    ensures var first, p, c, q := Quad(ORIGIN, Pt(1.0, 1.0), Pt(2.0, 0.0)), Pt(2.0, 0.0), Pt(3.0, 1.0), Pt(4.0, 0.0);
            var doc := [TO_ORIGIN, A_QUAD, THEN_CUBIC];
            && Subpaths(env, false, doc) == [Subpath(ORIGIN, [first, Cube(Cubic(p, Pt(3.0, -1.0), c, q))], false)]
            && Subpaths(env, true, doc) == [Subpath(ORIGIN, [first, Cube(Cubic(p, p, c, q))], false)]
  {
    var first := Quad(ORIGIN, Pt(1.0, 1.0), Pt(2.0, 0.0));
    var t := Turtle([], Subpath(ORIGIN, [first], false), Pen(Pt(2.0, 0.0), Pt(1.0, 1.0)), 'Q');
    QuadFirst(env, false);
    QuadFirst(env, true);
    CubicNext(env, false, t);
    CubicNext(env, true, t);
    hide Do, Legal, Finished;
    TwoCommands(env, false, A_QUAD, THEN_CUBIC);
    TwoCommands(env, true, A_QUAD, THEN_CUBIC);
    var c, q := Pt(3.0, 1.0), Pt(4.0, 0.0);
    TwoCurves(Do(env, false, t, THEN_CUBIC), first, Cube(Cubic(Pt(2.0, 0.0), Pt(3.0, -1.0), c, q)));
    TwoCurves(Do(env, true, t, THEN_CUBIC), first, Cube(Cubic(Pt(2.0, 0.0), Pt(2.0, 0.0), c, q)));
  }

  lemma QuadFirst(env: Env, svg: bool)
    requires ReadsDigits(env)
    ensures Legal(A_QUAD)
    ensures var first := Quad(ORIGIN, Pt(1.0, 1.0), Pt(2.0, 0.0));
            Do(env, svg, FRESH, A_QUAD)
            == Turtle([], Subpath(ORIGIN, [first], false), Pen(Pt(2.0, 0.0), Pt(1.0, 1.0)), 'Q')
  {
    var g := ["1", "1", "2", "0"];
    assert NumberGroup(g, 4);
    assert Values(env, g) == [1.0, 1.0, 2.0, 0.0];
    hide NumberGroup, Do, Legal;
    DoOneGroup(env, svg, FRESH, 'Q', g, [1.0, 1.0, 2.0, 0.0]);
  }

  lemma CubicNext(env: Env, svg: bool, t: Turtle)
    requires ReadsDigits(env) && t.pen == Pen(Pt(2.0, 0.0), Pt(1.0, 1.0)) && t.prev == 'Q'
    ensures Legal(THEN_CUBIC)
    ensures var c, q := Pt(3.0, 1.0), Pt(4.0, 0.0);
            var control := if svg then Pt(2.0, 0.0) else Pt(3.0, -1.0);
            var next := Cube(Cubic(Pt(2.0, 0.0), control, c, q));
            Do(env, svg, t, THEN_CUBIC)
            == Turtle(t.done, t.sub.(curves := t.sub.curves + [next]), Pen(q, c), 'S')
  {
    var g := ["3", "1", "4", "0"];
    assert NumberGroup(g, 4);
    assert Values(env, g) == [3.0, 1.0, 4.0, 0.0];
    hide NumberGroup, Do, Legal;
    DoOneGroup(env, svg, t, 'S', g, [3.0, 1.0, 4.0, 0.0]);
  }

  /** Of "M 0 0 C 0 1 2 1 2 0 T 4 0" the second curve has control point (2, -1), and not (2, 0) as it should. */
  lemma QuadAfterCubic(env: Env)
    requires ReadsDigits(env)
    ensures AllLegal([TO_ORIGIN, A_CUBIC, THEN_QUAD])
    ensures var first := Cube(Cubic(ORIGIN, Pt(0.0, 1.0), Pt(2.0, 1.0), Pt(2.0, 0.0)));
            var p, q := Pt(2.0, 0.0), Pt(4.0, 0.0);
            var doc := [TO_ORIGIN, A_CUBIC, THEN_QUAD];
            && Subpaths(env, false, doc) == [Subpath(ORIGIN, [first, Quad(p, Pt(2.0, -1.0), q)], false)]
            && Subpaths(env, true, doc) == [Subpath(ORIGIN, [first, Quad(p, p, q)], false)]
  {
    var first := Cube(Cubic(ORIGIN, Pt(0.0, 1.0), Pt(2.0, 1.0), Pt(2.0, 0.0)));
    var t := Turtle([], Subpath(ORIGIN, [first], false), Pen(Pt(2.0, 0.0), Pt(2.0, 1.0)), 'C');
    CubicFirst(env, false);
    CubicFirst(env, true);
    QuadNext(env, false, t);
    QuadNext(env, true, t);
    hide Do, Legal, Finished;
    TwoCommands(env, false, A_CUBIC, THEN_QUAD);
    TwoCommands(env, true, A_CUBIC, THEN_QUAD);
    TwoCurves(Do(env, false, t, THEN_QUAD), first, Quad(Pt(2.0, 0.0), Pt(2.0, -1.0), Pt(4.0, 0.0)));
    TwoCurves(Do(env, true, t, THEN_QUAD), first, Quad(Pt(2.0, 0.0), Pt(2.0, 0.0), Pt(4.0, 0.0)));
  }

  lemma CubicFirst(env: Env, svg: bool)
    requires ReadsDigits(env)
    ensures Legal(A_CUBIC)
    ensures var first := Cube(Cubic(ORIGIN, Pt(0.0, 1.0), Pt(2.0, 1.0), Pt(2.0, 0.0)));
            Do(env, svg, FRESH, A_CUBIC)
            == Turtle([], Subpath(ORIGIN, [first], false), Pen(Pt(2.0, 0.0), Pt(2.0, 1.0)), 'C')
  {
    var g := ["0", "1", "2", "1", "2", "0"];
    assert NumberGroup(g, 6);
    assert Values(env, g) == [0.0, 1.0, 2.0, 1.0, 2.0, 0.0];
    hide NumberGroup, Do, Legal;
    DoOneGroup(env, svg, FRESH, 'C', g, [0.0, 1.0, 2.0, 1.0, 2.0, 0.0]);
  }

  lemma QuadNext(env: Env, svg: bool, t: Turtle)
    requires ReadsDigits(env) && t.pen == Pen(Pt(2.0, 0.0), Pt(2.0, 1.0)) && t.prev == 'C'
    ensures Legal(THEN_QUAD)
    ensures var q := Pt(4.0, 0.0);
            var control := if svg then Pt(2.0, 0.0) else Pt(2.0, -1.0);
            Do(env, svg, t, THEN_QUAD)
            == Turtle(t.done, t.sub.(curves := t.sub.curves + [Quad(Pt(2.0, 0.0), control, q)]), Pen(q, control), 'T')
  {
    var g := ["4", "0"];
    assert NumberGroup(g, 2);
    assert Values(env, g) == [4.0, 0.0];
    hide NumberGroup, Do, Legal;
    DoOneGroup(env, svg, t, 'T', g, [4.0, 0.0]);
  }

  /** Before the first moveto nothing has been read that counts. */
  predicate NotMoved(st: PathState, paths: seq<StoredPath>) {
    !st.started && st.cmd == '\0' && st.pts == [] && st.paths == paths
  }

  lemma FeedNotMoved(env: Env, st: PathState, item: string, paths: seq<StoredPath>)
    requires NotMoved(st, paths) && item != "" && item[0] !in "mM"
    ensures NotMoved(Feed(env, st, item), paths)
  {
  }

  lemma ItemFromText(st: PathState, d: string, i: nat)
    requires i <= |d| && ItemFor(st, d, i).0 != ""
    ensures ItemFor(st, d, i).0[0] in d
  {
    hide NumberEnd;
  }

  lemma {:induction false} NeverMoved(env: Env, st: PathState, d: string, i: nat, paths: seq<StoredPath>)
    requires i <= |d| && NotMoved(st, paths) && 'm' !in d && 'M' !in d
    ensures NotMoved(Parsed(env, st, d, i), paths)
    decreases |d| - i
  {
    hide Feed, NotMoved, ItemFor, Parsed;
    if i == |d| {
      ParsedEnd(env, st, d);
    } else {
      ParsedStep(env, st, d, i);
      ItemBounds(st, d, i);
      var item := ItemFor(st, d, i);
      if item.0 != "" {
        ItemFromText(st, d, i);
        FeedNotMoved(env, st, item.0, paths);
        NeverMoved(env, Feed(env, st, item.0), d, item.1, paths);
      }
    }
  }

  /** Whatever the text, without a moveto nothing is drawn. */
  lemma NothingWithoutMove(env: Env, d: string, paths: seq<StoredPath>)
    requires 'm' !in d && 'M' !in d
    ensures PathsOf(env, d, paths) == paths
  {
    NeverMoved(env, Start(paths), d, 0, paths);
    hide Parsed;
  }
}
