/** `nsvg__parsePath` and its helpers on the parser's point buffer and path list. */
module PathParser {
  import opened CStrings
  import opened Edges
  import opened Bezier
  import opened PathLexer
  import opened PathData

  const ARGS_SIZE := 10

  class Parser {
    var pts: seq<Pt>              // the growing point buffer
    var plist: seq<StoredPath>    // the latest path first

    constructor ()
      ensures pts == [] && plist == []
    {
      pts, plist := [], [];
    }

    /** `nsvg__resetPath`. */
    method ResetPath()
      modifies this`pts
      ensures pts == []
    {
      pts := [];
    }

    /** `nsvg__addPoint`. */
    method AddPoint(x: real, y: real)
      modifies this`pts
      ensures pts == old(pts) + [Pt(x, y)]
    {
      pts := pts + [Pt(x, y)];
    }

    /** `nsvg__moveTo`. */
    method MoveTo(x: real, y: real)
      modifies this`pts
      ensures pts == if old(pts) == [] then [Pt(x, y)] else old(pts)[|old(pts)| - 1 := Pt(x, y)]
    {
      if |pts| > 0 {
        pts := pts[|pts| - 1 := Pt(x, y)];
      } else {
        AddPoint(x, y);
      }
    }

    /** `nsvg__lineTo`: the stored cubic is the straight line from the last point. */
    method LineTo(x: real, y: real)
      modifies this`pts
      ensures pts == if old(pts) == [] then [] else Extended(old(pts), [Line(old(pts)[|old(pts)| - 1], Pt(x, y))])
    {
      if |pts| > 0 {
        ghost var was, p := pts, pts[|pts| - 1];
        var px, py := pts[|pts| - 1].x, pts[|pts| - 1].y;
        var dx, dy := x - px, y - py;
        AddPoint(px + dx / 3.0, py + dy / 3.0);
        AddPoint(x - dx / 3.0, y - dy / 3.0);
        AddPoint(x, y);
        PointsOfOne(Line(p, Pt(x, y)));
        assert pts == was + [TowardsPt(p, Pt(x, y), 1.0 / 3.0), TowardsPt(Pt(x, y), p, 1.0 / 3.0), Pt(x, y)];
      }
    }

    /** `nsvg__cubicBezTo`. */
    method CubicBezTo(c: Cubic)
      modifies this`pts
      ensures pts == Extended(old(pts), [Cube(c)])
    {
      if |pts| > 0 {
        ghost var was := pts;
        AddPoint(c.p2.x, c.p2.y);
        AddPoint(c.p3.x, c.p3.y);
        AddPoint(c.p4.x, c.p4.y);
        PointsOfOne(Cube(c));
        assert pts == was + [c.p2, c.p3, c.p4];
      }
    }

    /** `nsvg__addPath`. The buffer is left with the closing line; every caller resets it. */
    method AddPath(env: Env, closed: bool)
      modifies this
      ensures plist == Committed(env, old(pts), closed, old(plist))
    {
      if |pts| < 4 {
        return;
      }
      if closed {
        LineTo(pts[0].x, pts[0].y);
      }
      if |pts| % 3 != 1 {
        return;
      }
      plist := [StoredPath(Transformed(env, pts), closed)] + plist;
    }

    /** `nsvg__pathMoveTo`. */
    method PathMoveTo(pen: Pen, a: seq<real>, rel: bool) returns (pen': Pen)
      requires |a| >= 2
      modifies this`pts
      ensures var q := Target(rel, pen.at, a[0], a[1]);
              && pts == (if old(pts) == [] then [q] else old(pts)[|old(pts)| - 1 := q]) && pen' == Pen(q, q)
    {
      var x, y;
      if rel {
        x, y := pen.at.x + a[0], pen.at.y + a[1];
      } else {
        x, y := a[0], a[1];
      }
      MoveTo(x, y);
      pen' := Pen(Pt(x, y), Pt(x, y));
    }

    /** `nsvg__pathLineTo`, `nsvg__pathHLineTo` and `nsvg__pathVLineTo`. */
    method PathLineTo(env: Env, cmd: char, pen: Pen, a: seq<real>) returns (pen': Pen)
      requires cmd in "lLhHvV" && |a| >= ArgsPerElement(cmd) && BufferOk(pts, pen)
      modifies this`pts
      ensures pts == Extended(old(pts), Drawn(env, cmd, a, pen).0) && pen' == Drawn(env, cmd, a, pen).1
    {
      var x, y := pen.at.x, pen.at.y;
      if cmd in "lL" {
        x := if Relative(cmd) then x + a[0] else a[0];
        y := if Relative(cmd) then y + a[1] else a[1];
      } else if cmd in "hH" {
        x := if Relative(cmd) then x + a[0] else a[0];
      } else {
        y := if Relative(cmd) then y + a[0] else a[0];
      }
      LineTo(x, y);
      pen' := Pen(Pt(x, y), Pt(x, y));
    }

    /** `nsvg__pathCubicBezTo` and `nsvg__pathCubicBezShortTo`. */
    method PathCubicBezTo(env: Env, cmd: char, pen: Pen, a: seq<real>) returns (pen': Pen)
      requires cmd in "cCsS" && |a| >= ArgsPerElement(cmd)
      modifies this`pts
      ensures pts == Extended(old(pts), Drawn(env, cmd, a, pen).0) && pen' == Drawn(env, cmd, a, pen).1
    {
      var at := pen.at;
      var ox, oy := if Relative(cmd) then at.x else 0.0, if Relative(cmd) then at.y else 0.0;
      var cx1, cy1, cx2, cy2, x2, y2;
      if cmd in "cC" {
        cx1, cy1, cx2, cy2, x2, y2 := ox + a[0], oy + a[1], ox + a[2], oy + a[3], ox + a[4], oy + a[5];
      } else {
        cx2, cy2, x2, y2 := ox + a[0], oy + a[1], ox + a[2], oy + a[3];
        cx1, cy1 := 2.0 * at.x - pen.ctrl.x, 2.0 * at.y - pen.ctrl.y;
      }
      CubicBezTo(Cubic(at, Pt(cx1, cy1), Pt(cx2, cy2), Pt(x2, y2)));
      pen' := Pen(Pt(x2, y2), Pt(cx2, cy2));
    }

    /** `nsvg__pathQuadBezTo` and `nsvg__pathQuadBezShortTo`: the quadratic curve is stored as a cubic one. */
    method PathQuadBezTo(env: Env, cmd: char, pen: Pen, a: seq<real>) returns (pen': Pen)
      requires cmd in "qQtT" && |a| >= ArgsPerElement(cmd)
      modifies this`pts
      ensures pts == Extended(old(pts), Drawn(env, cmd, a, pen).0) && pen' == Drawn(env, cmd, a, pen).1
    {
      hide Drawn, Extended, Elevated;
      var x1, y1 := pen.at.x, pen.at.y;
      var cx, cy, x2, y2 := QuadPoints(env, cmd, pen, a);
      var cx1, cy1 := x1 + 2.0 / 3.0 * (cx - x1), y1 + 2.0 / 3.0 * (cy - y1);
      var cx2, cy2 := x2 + 2.0 / 3.0 * (cx - x2), y2 + 2.0 / 3.0 * (cy - y2);
      var cubic := Cubic(pen.at, Pt(cx1, cy1), Pt(cx2, cy2), Pt(x2, y2));
      CubicBezTo(cubic);
      pen' := Pen(Pt(x2, y2), Pt(cx, cy));
      QuadIsCube(pen.at, Pt(cx, cy), Pt(x2, y2));
      SameStored(old(pts), Cube(cubic), Quad(pen.at, Pt(cx, cy), Pt(x2, y2)));
    }

    /** The control point, given or reflected, and the end point. */
    static method QuadPoints(env: Env, cmd: char, pen: Pen, a: seq<real>)
      returns (cx: real, cy: real, x2: real, y2: real)
      requires cmd in "qQtT" && |a| >= ArgsPerElement(cmd)
      ensures Drawn(env, cmd, a, pen)
           == ([Quad(pen.at, Pt(cx, cy), Pt(x2, y2))], Pen(Pt(x2, y2), Pt(cx, cy)))
    {
      var ox, oy := if Relative(cmd) then pen.at.x else 0.0, if Relative(cmd) then pen.at.y else 0.0;
      if cmd in "qQ" {
        cx, cy, x2, y2 := ox + a[0], oy + a[1], ox + a[2], oy + a[3];
      } else {
        x2, y2 := ox + a[0], oy + a[1];
        cx, cy := 2.0 * pen.at.x - pen.ctrl.x, 2.0 * pen.at.y - pen.ctrl.y;
      }
    }

    /** `nsvg__pathArcTo`, with the geometry of the arc given. */
    method PathArcTo(env: Env, cmd: char, pen: Pen, a: seq<real>) returns (pen': Pen)
      requires cmd in "aA" && |a| >= 7 && BufferOk(pts, pen)
      modifies this`pts
      ensures pts == Extended(old(pts), Drawn(env, cmd, a, pen).0) && pen' == Drawn(env, cmd, a, pen).1
    {
      var q := Target(Relative(cmd), pen.at, a[5], a[6]);
      var cubics := env.arc(pen.at, q, a);
      pen' := Pen(q, q);
      if cubics == [] {
        LineTo(q.x, q.y);
        return;
      }
      ghost var was := pts;
      var i := 0;
      while i < |cubics|
        invariant 0 <= i <= |cubics| && pts == Extended(was, Cubes(cubics[..i]))
      {
        CubicBezTo(cubics[i]);
        ExtendedMore(was, cubics, i);
        i := i + 1;
      }
      assert cubics[..i] == cubics;
    }

    /** The switch over the command once its arguments are complete. */
    method ExecuteCommand(env: Env, cmd: char, pen: Pen, a: seq<real>, ghost st: PathState)
      returns (cmd': char, pen': Pen, started: bool)
      requires StateOk(st) && st.pts == pts && st.cmd == cmd != '\0' && st.pen == pen
      requires |a| == |st.args| + 1 && |a| >= Rargs(cmd)
      modifies this`pts
      ensures var next := Execute(env, st, a);
              pts == next.pts && cmd' == next.cmd && pen' == next.pen && next.started == (st.started || started)
    {
      hide Drawn, Extended, PathsOk;
      cmd', started := cmd, false;
      if cmd in "mM" {
        pen' := PathMoveTo(pen, a, Relative(cmd));
        cmd' := if cmd == 'm' then 'l' else 'L';
        started := true;
      } else if cmd in "lLhHvV" {
        pen' := PathLineTo(env, cmd, pen, a);
      } else if cmd in "cCsS" {
        pen' := PathCubicBezTo(env, cmd, pen, a);
      } else if cmd in "qQtT" {
        pen' := PathQuadBezTo(env, cmd, pen, a);
      } else if cmd in "aA" {
        pen' := PathArcTo(env, cmd, pen, a);
      } else {
        pen' := pen;
        if |a| >= 2 {
          pen' := Pen(Pt(a[|a| - 2], a[|a| - 1]), Pt(a[|a| - 2], a[|a| - 1]));
        }
      }
    }

    /** A command letter: paths are committed before a moveto and by a closepath. */
    method BeginCommand(env: Env, letter: char, pen: Pen, nargs: nat, started: bool, ghost st: PathState)
      returns (cmd: char, pen': Pen, nargs': nat)
      requires st.pts == pts && st.paths == plist && st.pen == pen && st.started == started && |st.args| == nargs
      modifies this
      ensures var next := Begin(env, st, letter);
              && pts == next.pts && plist == next.paths && cmd == next.cmd && pen' == next.pen
              && nargs' == |next.args| && (next.args == [] || next.args == st.args) && next.started == started
    {
      cmd, pen', nargs' := letter, pen, nargs;
      if cmd in "mM" {
        if |pts| > 0 {
          AddPath(env, false);
        }
        ResetPath();
        nargs' := 0;
      } else if !started {
        cmd := '\0';
      }
      if cmd in "zZ" {
        if |pts| > 0 {
          pen' := Pen(pts[0], pts[0]);
          AddPath(env, true);
        }
        ResetPath();
        MoveTo(pen'.at.x, pen'.at.y);
        nargs' := 0;
      }
      if ArgsPerElement(cmd) == -1 {
        cmd := '\0';
      }
    }

    /** `nsvg__parsePath`, for the value of a `d` attribute. All writes to the argument and item buffers are in
        bounds, and the stored paths are those the machine of commands gives. */
    method ParsePath(env: Env, d: string)
      requires ArcsConnect(env) && PathsOk(plist) && CString(d)
      modifies this
      ensures plist == PathsOf(env, d, old(plist)) && PathsOk(plist)
    {
      hide StateOk, Parsed, ItemFor, Feed, Committed, PathsOk, ArcsConnect, NextItem;
      ghost var paths := plist;
      var args := new real[ARGS_SIZE](_ => 0.0);
      var it := new char[ITEM_SIZE](_ => '\0');
      ResetPath();
      var s: nat, nargs: nat := 0, 0;
      var cmd, pen, started := '\0', Pen(ORIGIN, ORIGIN), false;
      ghost var st := Start(paths);
      StartOk(paths);
      while s < |d|
        invariant args.Length == ARGS_SIZE && it.Length == ITEM_SIZE
        invariant s <= |d| && StateOk(st) && Parsed(env, Start(paths), d, 0) == Parsed(env, st, d, s)
        invariant nargs <= 6 && st == PathState(pts, plist, cmd, args[..nargs], pen, started)
        decreases |d| - s
      {
        ghost var from, item := s, ItemFor(st, d, s).0;
        ParsedStep(env, st, d, from);
        ItemPlain(st, d, from);
        s := ReadItem(d, s, cmd, nargs, it, st);
        if it[0] == '\0' {
          EmptyItem(it, item);
          break;
        }
        FullItem(it, item);
        FeedOk(env, st, item);
        cmd, pen, nargs, started := TakeItem(env, it, cmd, pen, args, nargs, started, st, item);
        st := Feed(env, st, item);
        ArgsBound(st);
      }
      ParsedEnd(env, st, d);
      PathsOfOk(env, d, paths);
      if |pts| > 0 {
        AddPath(env, false);
      }
    }

    /** Reads the next item, as the state of the command requires. */
    method ReadItem(d: string, s: nat, cmd: char, nargs: nat, it: array<char>, ghost st: PathState) returns (s': nat)
      requires s < |d| && it.Length == ITEM_SIZE && st.cmd == cmd && |st.args| == nargs
      modifies it
      ensures s' == ItemFor(st, d, s).1 && Holds(it[..], ItemFor(st, d, s).0)
    {
      hide NextItem, NextFlag;
      it[0] := '\0';
      s' := s;
      if cmd in "aA" && (nargs == 3 || nargs == 4) {
        s' := GetNextPathItemWhenArcFlag(d, s, it);
        FlagPlain(d, s);
      }
      if it[0] == '\0' {
        var from := s';
        s' := GetNextPathItem(d, from, it);
      }
    }

    /** The text in the item buffer, up to the terminator. */
    method ItemText(it: array<char>, ghost item: string) returns (text: string)
      requires Holds(it[..], item) && CString(item)
      ensures text == item
    {
      assert forall k :: 0 <= k < |item| ==> it[k] == it[..|item|][k] == item[k];
      var n := 0;
      while it[n] != '\0'
        invariant 0 <= n <= |item|
        decreases |item| - n
      {
        n := n + 1;
      }
      text := it[..n];
    }

    /** The body of the loop: a number for the current command, or a command letter. */
    method TakeItem(env: Env, it: array<char>, cmd: char, pen: Pen, args: array<real>, nargs: nat, started: bool,
                    ghost st: PathState, ghost item: string)
      returns (cmd': char, pen': Pen, nargs': nat, started': bool)
      requires StateOk(st) && args.Length == ARGS_SIZE && nargs <= 6
      requires Holds(it[..], item) && CString(item) && item != ""
      requires st == PathState(pts, plist, cmd, args[..nargs], pen, started)
      modifies this, args
      ensures nargs' <= 7 && Feed(env, st, item) == PathState(pts, plist, cmd', args[..nargs'], pen', started')
    {
      hide StateOk, Holds, Execute, Begin;
      var text := ItemText(it, item);
      started' := started;
      if cmd != '\0' && IsCoordinate(text) {
        args[nargs] := env.atof(text);
        nargs' := nargs + 1;
        assert args[..nargs'] == st.args + [env.atof(item)];
        cmd', pen' := cmd, pen;
        if nargs' >= Rargs(cmd) {
          var first;
          ExecuteFrame(env, st, args[..nargs']);
          cmd', pen', first := ExecuteCommand(env, cmd, pen, args[..nargs'], st);
          started' := started || first;
          nargs' := 0;
        }
      } else {
        cmd', pen', nargs' := BeginCommand(env, text[0], pen, nargs, started, st);
      }
    }
  }

  lemma StartOk(paths: seq<StoredPath>)
    requires PathsOk(paths)
    ensures StateOk(Start(paths))
  {
  }

  lemma ArgsBound(st: PathState)
    requires StateOk(st)
    ensures |st.args| <= 6
  {
  }

  lemma ExecuteFrame(env: Env, st: PathState, a: seq<real>)
    requires |a| >= Rargs(st.cmd)
    ensures Execute(env, st, a).paths == st.paths && Execute(env, st, a).args == []
  {
    hide Drawn, Extended;
  }

  /** Items have no terminator inside: they are pieces of the string. */
  lemma ItemPlain(st: PathState, d: string, i: nat)
    requires i <= |d| && CString(d)
    ensures CString(ItemFor(st, d, i).0)
  {
    hide SkipSpace, NumberEnd;
    if st.cmd in "aA" && (|st.args| == 3 || |st.args| == 4) {
      NextPlain(d, NextFlag(d, i).1);
    } else {
      NextPlain(d, i);
    }
    FlagPlain(d, i);
  }

  lemma NextPlain(d: string, i: nat)
    requires i <= |d| && CString(d)
    ensures CString(NextItem(d, i).0)
  {
    hide NumberEnd;
  }

  lemma FlagPlain(d: string, i: nat)
    requires i <= |d|
    ensures CString(NextFlag(d, i).0)
  {
  }

  lemma EmptyItem(it: array<char>, item: string)
    requires Holds(it[..], item) && CString(item) && it[0] == '\0'
    ensures item == ""
  {
    assert forall k :: 0 <= k < |item| ==> it[k] == it[..|item|][k] == item[k];
  }

  lemma FullItem(it: array<char>, item: string)
    requires it.Length > 0 && Holds(it[..], item) && it[0] != '\0'
    ensures item != ""
  {
  }
}
