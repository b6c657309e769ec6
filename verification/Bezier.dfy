/** Adaptive subdivision of cubic Bezier curves as `nsvg__flattenCubicBez` does it, over exact reals: which
    points it emits, where they lie on the curve and how near it is to the lines through them. */
module Bezier {
  import opened Edges

  datatype Cubic = Cubic(p1: Pt, p2: Pt, p3: Pt, p4: Pt)

  /** The weight of the end point that is `t` away and of the control point next to it. */
  function EndWeight(t: real): real {
    (1.0 - t) * (1.0 - t) * (1.0 - t)
  }

  function ControlWeight(t: real): real {
    3.0 * (1.0 - t) * (1.0 - t) * t
  }

  /** One coordinate of a cubic Bezier curve. */
  function Coordinate(a: real, b: real, c: real, d: real, t: real): real {
    EndWeight(t) * a + ControlWeight(t) * b + ControlWeight(1.0 - t) * c + EndWeight(1.0 - t) * d
  }

  /** The point of the curve at parameter `t`. */
  function Eval(c: Cubic, t: real): Pt {
    Pt(Coordinate(c.p1.x, c.p2.x, c.p3.x, c.p4.x, t), Coordinate(c.p1.y, c.p2.y, c.p3.y, c.p4.y, t))
  }

  function Mid(a: Pt, b: Pt): Pt {
    Pt((a.x + b.x) * 0.5, (a.y + b.y) * 0.5)
  }

  /** The two halves the code recurses on (de Casteljau at 1/2). */
  function LeftHalf(c: Cubic): Cubic {
    var p12, p23, p34 := Mid(c.p1, c.p2), Mid(c.p2, c.p3), Mid(c.p3, c.p4);
    var p123, p234 := Mid(p12, p23), Mid(p23, p34);
    Cubic(c.p1, p12, p123, Mid(p123, p234))
  }

  function RightHalf(c: Cubic): Cubic {
    var p12, p23, p34 := Mid(c.p1, c.p2), Mid(c.p2, c.p3), Mid(c.p3, c.p4);
    var p123, p234 := Mid(p12, p23), Mid(p23, p34);
    Cubic(Mid(p123, p234), p234, p34, c.p4)
  }

  lemma CoordinateReversed(a: real, b: real, c: real, d: real, t: real)
    ensures Coordinate(a, b, c, d, t) == Coordinate(d, c, b, a, 1.0 - t)
  {
  }

  lemma FirstHalfOfCoordinate(a: real, b: real, c: real, d: real, t: real)
    ensures Coordinate(a, (a + b) * 0.5, (a + 2.0 * b + c) * 0.25, (a + 3.0 * b + 3.0 * c + d) * 0.125, t)
         == Coordinate(a, b, c, d, t * 0.5)
  {
  }

  lemma SecondHalfOfCoordinate(a: real, b: real, c: real, d: real, t: real)
    ensures Coordinate((a + 3.0 * b + 3.0 * c + d) * 0.125, (b + 2.0 * c + d) * 0.25, (c + d) * 0.5, d, t)
         == Coordinate(a, b, c, d, 0.5 + t * 0.5)
  {
    var m := (a + 3.0 * b + 3.0 * c + d) * 0.125;
    CoordinateReversed(m, (b + 2.0 * c + d) * 0.25, (c + d) * 0.5, d, t);
    FirstHalfOfCoordinate(d, c, b, a, 1.0 - t);
    CoordinateReversed(a, b, c, d, 0.5 + t * 0.5);
    assert (1.0 - t) * 0.5 == 1.0 - (0.5 + t * 0.5);
  }

  lemma HalvesAreTheCurve(c: Cubic, t: real)
    ensures Eval(LeftHalf(c), t) == Eval(c, t * 0.5)
    ensures Eval(RightHalf(c), t) == Eval(c, 0.5 + t * 0.5)
  {
    FirstHalfOfCoordinate(c.p1.x, c.p2.x, c.p3.x, c.p4.x, t);
    FirstHalfOfCoordinate(c.p1.y, c.p2.y, c.p3.y, c.p4.y, t);
    SecondHalfOfCoordinate(c.p1.x, c.p2.x, c.p3.x, c.p4.x, t);
    SecondHalfOfCoordinate(c.p1.y, c.p2.y, c.p3.y, c.p4.y, t);
  }

  const TESS_TOL := 0.25
  const DIST_TOL := 0.01
  const MAX_LEVEL := 10

  function Abs(r: real): real {
    if r < 0.0 then -r else r
  }

  /** How far `p` is off the chord of `c`, times the length of the chord. */
  function OffChord(c: Cubic, p: Pt): real {
    (p.x - c.p4.x) * (c.p4.y - c.p1.y) - (p.y - c.p4.y) * (c.p4.x - c.p1.x)
  }

  function ChordSquared(c: Cubic): real {
    SquaredLength(c.p4.x - c.p1.x, c.p4.y - c.p1.y)
  }

  function SquaredLength(dx: real, dy: real): real {
    dx * dx + dy * dy
  }

  predicate Flat(c: Cubic) {
    var d2, d3 := Abs(OffChord(c, c.p2)), Abs(OffChord(c, c.p3));
    (d2 + d3) * (d2 + d3) < TESS_TOL * ChordSquared(c)
  }

  /** A piece accepted as flat: the part of the curve between ticks `at` and `at + width` of 1024. */
  datatype Leaf = Leaf(piece: Cubic, corner: bool, at: nat, width: nat)

  /** The pieces for which `nsvg__flattenCubicBez` emits a point, in order. `corner` stands for the only
      flag that is ever passed in, and only the last piece of a curve gets it. */
  function Leaves(c: Cubic, level: nat, corner: bool, at: nat, width: nat): seq<Leaf>
    requires level <= MAX_LEVEL + 1
    decreases MAX_LEVEL + 1 - level
  {
    if level > MAX_LEVEL then []
    else if Flat(c) then [Leaf(c, corner, at, width)]
    else Leaves(LeftHalf(c), level + 1, false, at, width / 2)
         + Leaves(RightHalf(c), level + 1, corner, at + width / 2, width / 2)
  }

  /** Width in ticks of a piece at a subdivision level. */
  function Width(level: nat): nat
    requires level <= MAX_LEVEL + 1
    decreases MAX_LEVEL + 1 - level
  {
    if level == MAX_LEVEL + 1 then 0 else if level == MAX_LEVEL then 1 else 2 * Width(level + 1)
  }

  lemma LeavesUnfold(c: Cubic, level: nat, corner: bool, at: nat, width: nat)
    requires level <= MAX_LEVEL && !Flat(c)
    ensures Leaves(c, level, corner, at, width)
         == Leaves(LeftHalf(c), level + 1, false, at, width / 2)
            + Leaves(RightHalf(c), level + 1, corner, at + width / 2, width / 2)
  {
    hide LeftHalf, RightHalf, Flat;
  }

  lemma LeavesSplit(c: Cubic, level: nat, corner: bool, at: nat)
    requires level < MAX_LEVEL && !Flat(c)
    ensures Width(level) == 2 * Width(level + 1)
    ensures Leaves(c, level, corner, at, Width(level))
         == Leaves(LeftHalf(c), level + 1, false, at, Width(level + 1))
            + Leaves(RightHalf(c), level + 1, corner, at + Width(level + 1), Width(level + 1))
  {
    hide LeftHalf, RightHalf, Flat, Leaves;
    LeavesUnfold(c, level, corner, at, Width(level));
    assert Width(level) / 2 == Width(level + 1);
  }

  lemma LeavesEnd(c: Cubic, level: nat, corner: bool, at: nat, width: nat)
    requires MAX_LEVEL <= level <= MAX_LEVEL + 1
    requires level == MAX_LEVEL ==> !Flat(c)
    ensures Leaves(c, level, corner, at, width) == []
  {
    hide LeftHalf, RightHalf, Flat;
  }

  lemma LeavesFlat(c: Cubic, level: nat, corner: bool, at: nat, width: nat)
    requires level <= MAX_LEVEL && Flat(c)
    ensures Leaves(c, level, corner, at, width) == [Leaf(c, corner, at, width)]
  {
    hide Flat;
  }

  function Param(tick: nat): real {
    tick as real / 1024.0
  }

  /** `c` is the part of `whole` between two ticks. */
  ghost predicate PieceOf(c: Cubic, whole: Cubic, at: nat, width: nat) {
    forall t: real :: Eval(c, t) == Eval(whole, Param(at) + t * (Param(at + width) - Param(at)))
  }

  lemma PieceHalves(c: Cubic, whole: Cubic, at: nat, half: nat)
    requires PieceOf(c, whole, at, 2 * half)
    ensures PieceOf(LeftHalf(c), whole, at, half)
    ensures PieceOf(RightHalf(c), whole, at + half, half)
  {
    hide Eval, LeftHalf, RightHalf;
    forall t: real
      ensures Eval(LeftHalf(c), t) == Eval(whole, Param(at) + t * (Param(at + half) - Param(at)))
      ensures Eval(RightHalf(c), t)
           == Eval(whole, Param(at + half) + t * (Param(at + half + half) - Param(at + half)))
    {
      HalvesAreTheCurve(c, t);
      assert Param(at + 2 * half) - Param(at) == 2.0 * (Param(at + half) - Param(at));
      assert t * 0.5 * (Param(at + 2 * half) - Param(at)) == t * (Param(at + half) - Param(at));
      assert (0.5 + t * 0.5) * (Param(at + 2 * half) - Param(at))
          == (Param(at + half) - Param(at)) + t * (Param(at + half) - Param(at));
    }
  }

  /** Every emitting piece is flat, is the exact part of the curve between its ticks, and lies within the
      ticks of the call; successive pieces do not overlap and only the last tick can carry the corner flag. */
  ghost predicate LeavesOk(ls: seq<Leaf>, whole: Cubic, corner: bool, at: nat, width: nat) {
    && (forall i :: 0 <= i < |ls| ==>
          && ls[i].width > 0 && at <= ls[i].at && ls[i].at + ls[i].width <= at + width
          && Flat(ls[i].piece) && PieceOf(ls[i].piece, whole, ls[i].at, ls[i].width)
          && ls[i].corner == (corner && ls[i].at + ls[i].width == at + width))
    && (forall i, j :: 0 <= i < j < |ls| ==> ls[i].at + ls[i].width <= ls[j].at)
  }

  lemma LeavesJoin(l: seq<Leaf>, r: seq<Leaf>, whole: Cubic, corner: bool, at: nat, half: nat)
    requires half > 0
    requires LeavesOk(l, whole, false, at, half) && LeavesOk(r, whole, corner, at + half, half)
    ensures LeavesOk(l + r, whole, corner, at, 2 * half)
  {
    hide Flat, PieceOf;
  }

  lemma {:induction false} LeavesAreOk(c: Cubic, level: nat, corner: bool, at: nat, whole: Cubic)
    requires level <= MAX_LEVEL + 1
    requires level <= MAX_LEVEL ==> PieceOf(c, whole, at, Width(level))
    ensures LeavesOk(Leaves(c, level, corner, at, Width(level)), whole, corner, at, Width(level))
    decreases MAX_LEVEL + 1 - level
  {
    hide Eval, LeftHalf, RightHalf, Flat, PieceOf, LeavesOk, Leaves;
    var width := Width(level);
    if MAX_LEVEL <= level && (level == MAX_LEVEL ==> !Flat(c)) {
      LeavesEnd(c, level, corner, at, width);
      NoLeaf(whole, corner, at, width);
    } else if Flat(c) {
      LeavesFlat(c, level, corner, at, width);
      WidthPositive(level);
      SingleLeaf(Leaf(c, corner, at, width), whole, corner);
    } else {
      var half := Width(level + 1);
      LeavesSplit(c, level, corner, at);
      WidthPositive(level + 1);
      PieceHalves(c, whole, at, half);
      LeavesAreOk(LeftHalf(c), level + 1, false, at, whole);
      LeavesAreOk(RightHalf(c), level + 1, corner, at + half, whole);
      LeavesJoin(Leaves(LeftHalf(c), level + 1, false, at, half),
                 Leaves(RightHalf(c), level + 1, corner, at + half, half), whole, corner, at, half);
    }
  }

  lemma NoLeaf(whole: Cubic, corner: bool, at: nat, width: nat)
    ensures LeavesOk([], whole, corner, at, width)
  {
  }

  lemma SingleLeaf(l: Leaf, whole: Cubic, corner: bool)
    requires l.width > 0 && Flat(l.piece) && PieceOf(l.piece, whole, l.at, l.width) && l.corner == corner
    ensures LeavesOk([l], whole, corner, l.at, l.width)
  {
    hide Flat, PieceOf;
  }

  lemma {:induction false} WidthPositive(level: nat)
    requires level <= MAX_LEVEL
    ensures Width(level) > 0
    decreases MAX_LEVEL - level
  {
    if level < MAX_LEVEL {
      WidthPositive(level + 1);
    }
  }

  /** The whole curve is its own piece between ticks 0 and 1024. */
  lemma WholePiece(c: Cubic)
    ensures Width(0) == 1024 && PieceOf(c, c, 0, Width(0))
  {
    assert Width(10) == 1 && Width(8) == 4 && Width(6) == 16 && Width(4) == 64 && Width(2) == 256;
    forall t: real ensures Eval(c, t) == Eval(c, Param(0) + t * (Param(1024) - Param(0))) {
      assert Param(0) + t * (Param(1024) - Param(0)) == t;
    }
  }

  lemma LeafEnds(ls: seq<Leaf>, whole: Cubic, corner: bool, at: nat, width: nat, i: nat)
    requires LeavesOk(ls, whole, corner, at, width) && i < |ls|
    ensures ls[i].at + ls[i].width <= at + width
    ensures ls[i].piece.p4 == Eval(whole, Param(ls[i].at + ls[i].width))
    ensures ls[i].piece.p1 == Eval(whole, Param(ls[i].at))
    ensures forall j :: i < j < |ls| ==> ls[i].at + ls[i].width < ls[j].at + ls[j].width
  {
    hide Flat;
    var l := ls[i];
    assert Eval(l.piece, 1.0) == l.piece.p4 && Eval(l.piece, 0.0) == l.piece.p1;
  }

  /** Every point that is emitted lies on the curve, at a multiple of 1/1024, and the parameters increase. */
  lemma EmittedOnCurve(c: Cubic, corner: bool, i: nat)
    requires i < |Leaves(c, 0, corner, 0, 1024)|
    ensures var ls := Leaves(c, 0, corner, 0, 1024);
            && ls[i].at + ls[i].width <= 1024
            && ls[i].piece.p4 == Eval(c, Param(ls[i].at + ls[i].width))
            && forall j :: i < j < |ls| ==> ls[i].at + ls[i].width < ls[j].at + ls[j].width
  {
    hide Eval, Flat, PieceOf, Leaves;
    WholePiece(c);
    LeavesAreOk(c, 0, corner, 0, c);
    LeafEnds(Leaves(c, 0, corner, 0, 1024), c, corner, 0, 1024, i);
  }

  lemma {:induction false} LeafCount(ls: seq<Leaf>, whole: Cubic, corner: bool, at: nat, width: nat, n: nat)
    requires LeavesOk(ls, whole, corner, at, width) && 0 < n <= |ls|
    ensures at + n <= ls[n - 1].at + ls[n - 1].width <= at + width
  {
    hide Flat, PieceOf;
    if n > 1 {
      LeafCount(ls, whole, corner, at, width, n - 1);
      assert ls[n - 2].at + ls[n - 2].width <= ls[n - 1].at;
    }
  }

  /** At most 2^10 points are emitted for a curve. */
  lemma EmittedAtMost(c: Cubic, corner: bool)
    ensures |Leaves(c, 0, corner, 0, 1024)| <= 1024
  {
    hide Eval, Flat, PieceOf, Leaves;
    WholePiece(c);
    LeavesAreOk(c, 0, corner, 0, c);
    var ls := Leaves(c, 0, corner, 0, 1024);
    if ls != [] {
      LeafCount(ls, c, corner, 0, 1024, |ls|);
    }
  }

  /** The last piece of the curve is accepted before the recursion runs out of levels. */
  predicate EndSettles(c: Cubic, level: nat)
    requires level <= MAX_LEVEL + 1
    decreases MAX_LEVEL + 1 - level
  {
    level <= MAX_LEVEL && (Flat(c) || EndSettles(RightHalf(c), level + 1))
  }

  /** Every piece of the curve is accepted before the recursion runs out of levels. */
  predicate Settles(c: Cubic, level: nat)
    requires level <= MAX_LEVEL + 1
    decreases MAX_LEVEL + 1 - level
  {
    level <= MAX_LEVEL && (Flat(c) || (Settles(LeftHalf(c), level + 1) && Settles(RightHalf(c), level + 1)))
  }

  /** The curve's own end point is emitted exactly when its last piece settles. */
  lemma {:induction false} EndEmittedIff(c: Cubic, level: nat, corner: bool, at: nat, whole: Cubic)
    requires level <= MAX_LEVEL + 1
    requires level <= MAX_LEVEL ==> PieceOf(c, whole, at, Width(level))
    ensures var ls := Leaves(c, level, corner, at, Width(level));
            EndSettles(c, level) <==>
              ls != [] && ls[|ls| - 1].at + ls[|ls| - 1].width == at + Width(level)
    decreases MAX_LEVEL + 1 - level
  {
    hide Eval, LeftHalf, RightHalf, Flat, PieceOf, LeavesOk, Leaves;
    var width := Width(level);
    if MAX_LEVEL <= level && (level == MAX_LEVEL ==> !Flat(c)) {
      LeavesEnd(c, level, corner, at, width);
    } else if Flat(c) {
      LeavesFlat(c, level, corner, at, width);
    } else {
      var half := Width(level + 1);
      LeavesSplit(c, level, corner, at);
      WidthPositive(level + 1);
      PieceHalves(c, whole, at, half);
      LeavesAreOk(LeftHalf(c), level + 1, false, at, whole);
      EndEmittedIff(RightHalf(c), level + 1, corner, at + half, whole);
      EndOfJoin(Leaves(LeftHalf(c), level + 1, false, at, half),
                Leaves(RightHalf(c), level + 1, corner, at + half, half), whole, at, half);
    }
  }

  lemma EndOfJoin(l: seq<Leaf>, r: seq<Leaf>, whole: Cubic, at: nat, half: nat)
    requires half > 0 && LeavesOk(l, whole, false, at, half)
    ensures (l + r != [] && (l + r)[|l + r| - 1].at + (l + r)[|l + r| - 1].width == at + 2 * half)
       <==> (r != [] && r[|r| - 1].at + r[|r| - 1].width == at + 2 * half)
  {
    hide Flat, PieceOf;
    if r == [] {
      assert l + r == l;
    } else {
      assert (l + r)[|l + r| - 1] == r[|r| - 1];
    }
  }

  /** Consecutive pieces leave no gap between two ticks. */
  ghost predicate Tiles(ls: seq<Leaf>, at: nat, end: nat) {
    && ls != [] && ls[0].at == at && ls[|ls| - 1].at + ls[|ls| - 1].width == end
    && forall i :: 0 <= i < |ls| - 1 ==> ls[i].at + ls[i].width == ls[i + 1].at
  }

  lemma TilesJoin(l: seq<Leaf>, r: seq<Leaf>, at: nat, mid: nat, end: nat)
    requires Tiles(l, at, mid) && Tiles(r, mid, end)
    ensures Tiles(l + r, at, end)
  {
    var ls := l + r;
    forall i | 0 <= i < |ls| - 1 ensures ls[i].at + ls[i].width == ls[i + 1].at {
      if i < |l| - 1 {
        assert ls[i] == l[i] && ls[i + 1] == l[i + 1];
      } else if i == |l| - 1 {
        assert ls[i] == l[|l| - 1] && ls[i + 1] == r[0];
      } else {
        assert ls[i] == r[i - |l|] && ls[i + 1] == r[i + 1 - |l|];
      }
    }
  }

  lemma {:induction false} SettledTiles(c: Cubic, level: nat, corner: bool, at: nat)
    requires level <= MAX_LEVEL && Settles(c, level)
    ensures Tiles(Leaves(c, level, corner, at, Width(level)), at, at + Width(level))
    decreases MAX_LEVEL - level
  {
    hide Eval, LeftHalf, RightHalf, Flat, Tiles, Leaves;
    if Flat(c) {
      LeavesFlat(c, level, corner, at, Width(level));
      SingleTile(Leaf(c, corner, at, Width(level)));
    } else {
      var half := Width(level + 1);
      LeavesSplit(c, level, corner, at);
      SettledTiles(LeftHalf(c), level + 1, false, at);
      SettledTiles(RightHalf(c), level + 1, corner, at + half);
      TilesJoin(Leaves(LeftHalf(c), level + 1, false, at, half),
                Leaves(RightHalf(c), level + 1, corner, at + half, half), at, at + half, at + 2 * half);
    }
  }

  lemma SingleTile(l: Leaf)
    ensures Tiles([l], l.at, l.at + l.width)
  {
  }

  /** The weights of the control points never exceed 4/9, and all four weights sum to one. */
  lemma Weights(t: real)
    requires 0.0 <= t <= 1.0
    ensures 0.0 <= ControlWeight(t) <= 4.0 / 9.0
    ensures 0.0 <= ControlWeight(1.0 - t) <= 4.0 / 9.0
    ensures EndWeight(t) + ControlWeight(t) + ControlWeight(1.0 - t) + EndWeight(1.0 - t) == 1.0
  {
    var u := 1.0 - t;
    MiddleWeight(t, u);
    MiddleWeight(u, t);
  }

  lemma ProductSign(a: real, b: real)
    requires a >= 0.0 && b >= 0.0
    ensures a * b >= 0.0
  {
  }

  lemma MiddleWeight(t: real, u: real)
    requires t >= 0.0 && u >= 0.0 && t + u == 1.0
    ensures 0.0 <= 3.0 * u * u * t <= 4.0 / 9.0
  {
    var v := 1.0 - 3.0 * t;
    if v >= 0.0 {
      ProductSign(v, v);
    } else {
      ProductSign(-v, -v);
    }
    ProductSign(v * v, 4.0 - 3.0 * t);
    assert v * v * (4.0 - 3.0 * t) == 4.0 - 27.0 * (u * u * t) by {
      assert u == 1.0 - t;
    }
    ProductSign(u, t);
    ProductSign(u, u * t);
    assert u * (u * t) == u * u * t;
  }

  function Cross(ax: real, ay: real, dx: real, dy: real): real {
    ax * dy - ay * dx
  }

  lemma CrossSum(x: real, y: real, x': real, y': real, dx: real, dy: real)
    ensures Cross(x + x', y + y', dx, dy) == Cross(x, y, dx, dy) + Cross(x', y', dx, dy)
  {
  }

  lemma CrossScaled(w: real, ax: real, ay: real, dx: real, dy: real)
    ensures Cross(w * ax, w * ay, dx, dy) == w * Cross(ax, ay, dx, dy)
  {
    Moved(w, ax, dy);
    Moved(w, ay, dx);
    Factored(w, ax * dy, ay * dx);
  }

  lemma Moved(a: real, b: real, c: real)
    ensures a * b * c == a * (b * c)
  {
  }

  lemma Factored(w: real, p: real, q: real)
    ensures w * p - w * q == w * (p - q)
  {
  }

  lemma CrossSelf(a: real, b: real)
    ensures Cross(a, b, -a, -b) == 0.0
  {
    Negated(a, b);
    Negated(b, a);
  }

  lemma Negated(a: real, b: real)
    ensures a * -b == -(a * b)
  {
  }

  /** The offset of a weighted mean is the weighted sum of the offsets; that of the start of the chord vanishes. */
  lemma CrossOfMean(w1: real, w2: real, w3: real, a1: real, a2: real, a3: real, b1: real, b2: real, b3: real)
    ensures Cross(w1 * a1 + w2 * a2 + w3 * a3, w1 * b1 + w2 * b2 + w3 * b3, -a1, -b1)
         == w2 * Cross(a2, b2, -a1, -b1) + w3 * Cross(a3, b3, -a1, -b1)
  {
    hide Cross;
    CrossSum(w1 * a1 + w2 * a2, w1 * b1 + w2 * b2, w3 * a3, w3 * b3, -a1, -b1);
    CrossSum(w1 * a1, w1 * b1, w2 * a2, w2 * b2, -a1, -b1);
    CrossScaled(w1, a1, b1, -a1, -b1);
    CrossScaled(w2, a2, b2, -a1, -b1);
    CrossScaled(w3, a3, b3, -a1, -b1);
    CrossSelf(a1, b1);
    TimesNothing(w1, Cross(a1, b1, -a1, -b1));
  }

  lemma TimesNothing(w: real, z: real)
    requires z == 0.0
    ensures w * z == 0.0
  {
  }

  lemma MeanOffset(w1: real, w2: real, w3: real, w4: real, c: Cubic, p: Pt)
    requires w1 + w2 + w3 + w4 == 1.0
    requires p.x == w1 * c.p1.x + w2 * c.p2.x + w3 * c.p3.x + w4 * c.p4.x
    requires p.y == w1 * c.p1.y + w2 * c.p2.y + w3 * c.p3.y + w4 * c.p4.y
    ensures OffChord(c, p) == w2 * OffChord(c, c.p2) + w3 * OffChord(c, c.p3)
  {
    Shifted(w1, w2, w3, w4, c.p1.x, c.p2.x, c.p3.x, c.p4.x);
    Shifted(w1, w2, w3, w4, c.p1.y, c.p2.y, c.p3.y, c.p4.y);
    CrossOfMean(w1, w2, w3, c.p1.x - c.p4.x, c.p2.x - c.p4.x, c.p3.x - c.p4.x,
                c.p1.y - c.p4.y, c.p2.y - c.p4.y, c.p3.y - c.p4.y);
    CrossIsOffChord(c, p);
    CrossIsOffChord(c, c.p2);
    CrossIsOffChord(c, c.p3);
    hide Cross, OffChord;
  }

  lemma CrossIsOffChord(c: Cubic, p: Pt)
    ensures Cross(p.x - c.p4.x, p.y - c.p4.y, -(c.p1.x - c.p4.x), -(c.p1.y - c.p4.y)) == OffChord(c, p)
  {
    assert -(c.p1.x - c.p4.x) == c.p4.x - c.p1.x && -(c.p1.y - c.p4.y) == c.p4.y - c.p1.y;
  }

  /** The distance of a curve point from the chord is a weighted sum of those of the two control points. */
  lemma OffChordOfCurve(c: Cubic, t: real)
    requires 0.0 <= t <= 1.0
    ensures OffChord(c, Eval(c, t))
         == ControlWeight(t) * OffChord(c, c.p2) + ControlWeight(1.0 - t) * OffChord(c, c.p3)
  {
    hide OffChord, EndWeight, ControlWeight;
    Weights(t);
    MeanOffset(EndWeight(t), ControlWeight(t), ControlWeight(1.0 - t), EndWeight(1.0 - t), c, Eval(c, t));
  }

  lemma Shifted(w1: real, w2: real, w3: real, w4: real, a: real, b: real, c: real, d: real)
    requires w1 + w2 + w3 + w4 == 1.0
    ensures w1 * a + w2 * b + w3 * c + w4 * d - d == w1 * (a - d) + w2 * (b - d) + w3 * (c - d)
  {
    assert w4 * d == (1.0 - w1 - w2 - w3) * d;
  }

  lemma ScaledAbs(w: real, v: real, m: real)
    requires 0.0 <= w <= m
    ensures Abs(w * v) <= m * Abs(v)
  {
    if v >= 0.0 {
      ProductSign(m - w, v);
      ProductSign(w, v);
    } else {
      ProductSign(m - w, -v);
      ProductSign(w, -v);
    }
  }

  lemma SquareMonotone(a: real, b: real)
    requires Abs(a) <= b
    ensures a * a <= b * b
  {
    ProductSign(b - a, b + a);
  }

  /** The squared distance of `p` from the line through the chord of `c` is below 16/81 of the tolerance of 0.25. */
  predicate CloseToChordLine(c: Cubic, p: Pt) {
    81.0 * (OffChord(c, p) * OffChord(c, p)) < 16.0 * (TESS_TOL * ChordSquared(c))
  }

  /** On a piece accepted as flat the curve keeps within 4/9 of the square root of the tolerance of the line through
      the chord: the squared distance is below 16/81 of 0.25. */
  lemma FlatIsClose(c: Cubic, t: real)
    requires Flat(c) && 0.0 <= t <= 1.0
    ensures CloseToChordLine(c, Eval(c, t))
  {
    hide Flat, OffChord, Eval, ChordSquared, Abs;
    FlatMeans(c);
    OffChordBound(c, t);
    SquaredBound(OffChord(c, Eval(c, t)), Abs(OffChord(c, c.p2)) + Abs(OffChord(c, c.p3)), TESS_TOL * ChordSquared(c));
  }

  lemma FlatMeans(c: Cubic)
    requires Flat(c)
    ensures var d := Abs(OffChord(c, c.p2)) + Abs(OffChord(c, c.p3)); d * d < TESS_TOL * ChordSquared(c)
  {
    hide OffChord, ChordSquared;
  }

  lemma OffChordBound(c: Cubic, t: real)
    requires 0.0 <= t <= 1.0
    ensures Abs(9.0 * OffChord(c, Eval(c, t))) <= 4.0 * (Abs(OffChord(c, c.p2)) + Abs(OffChord(c, c.p3)))
  {
    hide OffChord, Eval, EndWeight, ControlWeight;
    var o2, o3 := OffChord(c, c.p2), OffChord(c, c.p3);
    Weights(t);
    OffChordOfCurve(c, t);
    ScaledAbs(ControlWeight(t), o2, 4.0 / 9.0);
    ScaledAbs(ControlWeight(1.0 - t), o3, 4.0 / 9.0);
    SumAbs(ControlWeight(t) * o2, ControlWeight(1.0 - t) * o3, Abs(o2), Abs(o3));
  }

  lemma SumAbs(a: real, b: real, p: real, q: real)
    requires Abs(a) <= 4.0 / 9.0 * p && Abs(b) <= 4.0 / 9.0 * q
    ensures Abs(9.0 * (a + b)) <= 4.0 * (p + q)
  {
  }

  lemma SquaredBound(o: real, d: real, limit: real)
    requires Abs(9.0 * o) <= 4.0 * d && d * d < limit
    ensures 81.0 * (o * o) < 16.0 * limit
  {
    SquareMonotone(9.0 * o, 4.0 * d);
    assert 9.0 * o * (9.0 * o) == 81.0 * (o * o) && 4.0 * d * (4.0 * d) == 16.0 * (d * d);
  }

  /** The piece that contains parameter `t`. */
  lemma {:induction false} FindTile(ls: seq<Leaf>, at: nat, end: nat, t: real, n: nat) returns (i: nat)
    requires Tiles(ls, at, end) && 0 < n <= |ls|
    requires Param(at) <= t <= Param(ls[n - 1].at + ls[n - 1].width)
    ensures i < n && Param(ls[i].at) <= t <= Param(ls[i].at + ls[i].width)
  {
    if Param(ls[n - 1].at) <= t {
      i := n - 1;
    } else {
      assert n > 1 && ls[n - 2].at + ls[n - 2].width == ls[n - 1].at;
      i := FindTile(ls, at, end, t, n - 1);
    }
  }

  /** The local parameter of `t` inside a piece. */
  lemma LocalParam(l: Leaf, whole: Cubic, t: real) returns (s: real)
    requires l.width > 0 && PieceOf(l.piece, whole, l.at, l.width)
    requires Param(l.at) <= t <= Param(l.at + l.width)
    ensures 0.0 <= s <= 1.0 && Eval(l.piece, s) == Eval(whole, t)
  {
    hide Eval, PieceOf;
    var d := l.width as real;
    s := (1024.0 * t - l.at as real) / d;
    assert s * d == 1024.0 * t - l.at as real;
    assert Param(l.at + l.width) - Param(l.at) == d / 1024.0;
    assert s * (d / 1024.0) == s * d / 1024.0;
    assert Param(l.at) + s * (Param(l.at + l.width) - Param(l.at)) == t;
    PieceAt(l, whole, s, t);
    RatioInUnit(1024.0 * t - l.at as real, d);
  }

  lemma PieceAt(l: Leaf, whole: Cubic, s: real, t: real)
    requires PieceOf(l.piece, whole, l.at, l.width)
    requires Param(l.at) + s * (Param(l.at + l.width) - Param(l.at)) == t
    ensures Eval(l.piece, s) == Eval(whole, t)
  {
  }

  lemma RatioInUnit(n: real, d: real)
    requires 0.0 <= n <= d && d > 0.0
    ensures 0.0 <= n / d <= 1.0
  {
  }

  /** If every piece settles, every curve point lies on some piece whose ends are curve points, and is within 4/9 of the
      square root of the tolerance of the line through them. */
  lemma FlatteningFollowsCurve(c: Cubic, corner: bool, t: real) returns (i: nat, s: real)
    requires Settles(c, 0) && 0.0 <= t <= 1.0
    ensures var ls := Leaves(c, 0, corner, 0, 1024);
            && i < |ls|
            && Param(ls[i].at) <= t <= Param(ls[i].at + ls[i].width)
            && ls[i].piece.p1 == Eval(c, Param(ls[i].at))
            && ls[i].piece.p4 == Eval(c, Param(ls[i].at + ls[i].width))
            && 0.0 <= s <= 1.0 && Eval(ls[i].piece, s) == Eval(c, t)
            && Flat(ls[i].piece) && CloseToChordLine(ls[i].piece, Eval(c, t))
            && (i + 1 < |ls| ==> ls[i + 1].piece.p1 == ls[i].piece.p4)
  {
    hide Eval, Flat, PieceOf, Leaves, CloseToChordLine;
    WholePiece(c);
    LeavesAreOk(c, 0, corner, 0, c);
    SettledTiles(c, 0, corner, 0);
    var ls := Leaves(c, 0, corner, 0, 1024);
    i := FindTile(ls, 0, 1024, t, |ls|);
    LeafEnds(ls, c, corner, 0, 1024, i);
    if i + 1 < |ls| {
      LeafEnds(ls, c, corner, 0, 1024, i + 1);
    }
    s := LocalParam(ls[i], c, t);
    FlatIsClose(ls[i].piece, s);
  }

  /** A straight line whose ends differ is one piece: its end point is the only one emitted. */
  lemma LineIsOnePiece(c: Cubic, corner: bool)
    requires IsLine(c) && (c.p1.x != c.p4.x || c.p1.y != c.p4.y)
    ensures Leaves(c, 0, corner, 0, 1024) == [Leaf(c, corner, 0, 1024)]
  {
    LineOffsets(c);
    LengthPositive(c.p4.x - c.p1.x, c.p4.y - c.p1.y);
    FlatIfOnChord(c);
    LeavesFlat(c, 0, corner, 0, 1024);
  }

  /** The control points that `nsvg__lineTo` chooses: one and two thirds of the way. */
  predicate IsLine(c: Cubic) {
    var dx, dy := c.p4.x - c.p1.x, c.p4.y - c.p1.y;
    && c.p2 == Pt(c.p1.x + dx / 3.0, c.p1.y + dy / 3.0)
    && c.p3 == Pt(c.p4.x - dx / 3.0, c.p4.y - dy / 3.0)
  }

  lemma LengthPositive(dx: real, dy: real)
    requires dx != 0.0 || dy != 0.0
    ensures SquaredLength(dx, dy) > 0.0
  {
    var a := SquareBelow(dx);
    var b := SquareBelow(dy);
  }

  lemma FlatIfOnChord(c: Cubic)
    requires ChordSquared(c) > 0.0
    requires OffChord(c, c.p2) == 0.0 && OffChord(c, c.p3) == 0.0
    ensures Flat(c)
  {
    hide OffChord, ChordSquared;
  }

  lemma LineOffsets(c: Cubic)
    requires IsLine(c)
    ensures OffChord(c, c.p2) == 0.0 && OffChord(c, c.p3) == 0.0
  {
    var dx, dy := c.p4.x - c.p1.x, c.p4.y - c.p1.y;
    assert c.p2.x - c.p4.x == dx / 3.0 - dx && c.p2.y - c.p4.y == dy / 3.0 - dy;
    assert c.p3.x - c.p4.x == -dx / 3.0 && c.p3.y - c.p4.y == -dy / 3.0;
    Parallel(dx, dy);
  }

  lemma Parallel(dx: real, dy: real)
    ensures (dx / 3.0 - dx) * dy - (dy / 3.0 - dy) * dx == 0.0
    ensures (-dx / 3.0) * dy - (-dy / 3.0) * dx == 0.0
  {
  }

  lemma ProductBelow(a: real, b: real) returns (low: real)
    requires a > 0.0 && b > 0.0
    ensures low > 0.0 && a * b >= low
  {
    low := a * b;
  }

  lemma SquareBelow(v: real) returns (low: real)
    ensures low >= 0.0 && v * v >= low && (v != 0.0 ==> low > 0.0)
  {
    if v > 0.0 {
      low := ProductBelow(v, v);
    } else if v < 0.0 {
      low := ProductBelow(-v, -v);
      assert v * v == (-v) * (-v);
    } else {
      low := 0.0;
    }
  }
}
