/** The walk of `nsvg__flattenShapeStroke` along a flattened path, which cuts it where the dash pattern says. */
module DashWalk {
  import opened Bezier
  import opened Edges
  import opened Flatten
  import opened Dashes

  function Stretch(k: real, x: real): real {
    k * x
  }

  /** All that is used of the length `sqrtf(dx*dx + dy*dy)`. */
  ghost predicate IsNorm(norm: (real, real) -> real) {
    && (forall x, y :: norm(x, y) >= 0.0)
    && (forall k, x, y :: k >= 0.0 ==> norm(Stretch(k, x), Stretch(k, y)) == Stretch(k, norm(x, y)))
  }

  /** Length of the segment that ends at point `j`. */
  function Seg(pts: seq<PathPoint>, norm: (real, real) -> real, j: nat): real
    requires 1 <= j < |pts|
  {
    norm(pts[j].pt.x - pts[j - 1].pt.x, pts[j].pt.y - pts[j - 1].pt.y)
  }

  /** Length of the path up to point `j`. */
  function Length(pts: seq<PathPoint>, norm: (real, real) -> real, j: nat): real
    requires j < |pts|
  {
    if j == 0 then 0.0 else Length(pts, norm, j - 1) + Seg(pts, norm, j)
  }

  lemma {:induction false} LengthGrows(pts: seq<PathPoint>, norm: (real, real) -> real, i: nat, j: nat)
    requires IsNorm(norm) && i <= j < |pts|
    ensures 0.0 <= Length(pts, norm, i) <= Length(pts, norm, j)
    decreases j
  {
    if j > 0 {
      LengthGrows(pts, norm, if i < j then i else i - 1, j - 1);
      assert Seg(pts, norm, j) >= 0.0;
    }
  }

  function Along(p: Pt, q: Pt, t: real): Pt {
    Pt(p.x + Stretch(t, q.x - p.x), p.y + Stretch(t, q.y - p.y))
  }

  /** `cur` lies on segment `j` at parameter `t`, or is the last point, and `here` is its distance along the path. */
  ghost predicate At(pts: seq<PathPoint>, norm: (real, real) -> real, j: nat, t: real, cur: Pt, here: real) {
    && 1 <= j <= |pts| && 0.0 <= t < 1.0
    && if j < |pts|
       then cur == Along(pts[j - 1].pt, pts[j].pt, t)
            && here == Length(pts, norm, j - 1) + Stretch(t, Seg(pts, norm, j))
       else cur == pts[j - 1].pt && here == Length(pts, norm, j - 1)
  }

  lemma AtStart(pts: seq<PathPoint>, norm: (real, real) -> real, j: nat)
    requires 1 <= j <= |pts|
    ensures At(pts, norm, j, 0.0, pts[j - 1].pt, Length(pts, norm, j - 1))
  {
    hide Seg, Length;
  }

  function Distance(norm: (real, real) -> real, a: Pt, b: Pt): real {
    norm(b.x - a.x, b.y - a.y)
  }

  lemma StretchRest(t: real, x: real)
    ensures x - Stretch(t, x) == Stretch(1.0 - t, x)
  {
  }

  /** From `cur` to the end of its segment. */
  lemma ToSegmentEnd(pts: seq<PathPoint>, norm: (real, real) -> real, j: nat, t: real, cur: Pt, here: real)
    requires IsNorm(norm) && At(pts, norm, j, t, cur, here) && j < |pts|
    ensures Distance(norm, cur, pts[j].pt) == Stretch(1.0 - t, Seg(pts, norm, j))
    ensures pts[j].pt.x - cur.x == Stretch(1.0 - t, pts[j].pt.x - pts[j - 1].pt.x)
    ensures pts[j].pt.y - cur.y == Stretch(1.0 - t, pts[j].pt.y - pts[j - 1].pt.y)
    ensures here + Distance(norm, cur, pts[j].pt) == Length(pts, norm, j)
  {
    StretchRest(t, pts[j].pt.x - pts[j - 1].pt.x);
    StretchRest(t, pts[j].pt.y - pts[j - 1].pt.y);
    StretchRest(t, Seg(pts, norm, j));
    hide Stretch;
  }

  function Cut(a: Pt, b: Pt, d: real): Pt {
    Pt(a.x + (b.x - a.x) * d, a.y + (b.y - a.y) * d)
  }

  lemma StretchFurther(t: real, d: real, x: real)
    ensures Stretch(t, x) + Stretch(1.0 - t, x) * d == Stretch(t + (1.0 - t) * d, x)
  {
    assert (1.0 - t) * x * d == (1.0 - t) * d * x;
  }

  lemma StaysBelowOne(t: real, d: real)
    requires 0.0 <= t < 1.0 && 0.0 <= d < 1.0
    ensures 0.0 <= t + (1.0 - t) * d < 1.0
  {
    var p := Product(1.0 - t, d);
    var q := PositiveProduct(1.0 - t, 1.0 - d);
    assert q == 1.0 - t - p;
  }

  lemma PositiveProduct(x: real, y: real) returns (p: real)
    requires x > 0.0 && y > 0.0
    ensures p == x * y && p > 0.0
  {
    p := x * y;
  }

  function Quot(a: real, b: real): real
    requires b != 0.0
  {
    a / b
  }

  lemma Quotient(rest: real, dist: real) returns (d: real)
    requires 0.0 <= rest < dist
    ensures d == Quot(rest, dist) && 0.0 <= d < 1.0 && dist * d == rest
  {
    d := Quot(rest, dist);
  }

  /** The intermediate point lies on the same segment, the missing length further on. */
  lemma CutStep(pts: seq<PathPoint>, norm: (real, real) -> real, j: nat, t: real, cur: Pt, here: real, rest: real,
                dist: real) returns (t': real)
    requires IsNorm(norm) && At(pts, norm, j, t, cur, here) && j < |pts|
    requires 0.0 <= rest < dist == Distance(norm, cur, pts[j].pt)
    ensures At(pts, norm, j, t', Cut(cur, pts[j].pt, Quot(rest, dist)), here + rest)
  {
    hide IsNorm, Seg, Length, Distance;
    ToSegmentEnd(pts, norm, j, t, cur, here);
    var d := Quotient(rest, dist);
    StaysBelowOne(t, d);
    StretchFurther(t, d, pts[j].pt.x - pts[j - 1].pt.x);
    StretchFurther(t, d, pts[j].pt.y - pts[j - 1].pt.y);
    StretchFurther(t, d, Seg(pts, norm, j));
    t' := t + (1.0 - t) * d;
    hide Stretch;
  }

  /** Where the pattern changes for the `i`-th time along the path: the end of entry `k + i`. */
  function Boundary(d: seq<real>, off: real, k: nat, sw: real, i: nat): real
    requires |d| > 0
  {
    Stretch(sw, Prefix(d, k + i + 1) - off)
  }

  lemma StretchSum(sw: real, x: real, y: real)
    requires sw >= 0.0
    ensures Stretch(sw, x + y) == Stretch(sw, x) + Stretch(sw, y)
    ensures y >= 0.0 ==> Stretch(sw, y) >= 0.0
  {
    if y >= 0.0 {
      var p := Product(sw, y);
    }
  }

  lemma BoundaryStep(d: seq<real>, off: real, k: nat, sw: real, i: nat)
    requires Pattern(d) && sw > 0.0
    ensures Boundary(d, off, k, sw, i + 1) == Boundary(d, off, k, sw, i) + Stretch(sw, d[Slot(k + i + 1, |d|)])
    ensures Stretch(sw, d[Slot(k + i + 1, |d|)]) >= 0.0
  {
    hide Slot, Prefix, Stretch;
    PrefixNext(d, k + i + 1);
    StretchSum(sw, Prefix(d, k + i + 1) - off, d[Slot(k + i + 1, |d|)]);
  }

  lemma PrefixNext(d: seq<real>, k: nat)
    requires |d| > 0
    ensures Prefix(d, k + 1) == Prefix(d, k) + d[Slot(k, |d|)]
  {
  }

  lemma BoundaryFirst(d: seq<real>, off: real, k: nat, sw: real)
    requires Pattern(d) && sw > 0.0 && Skipped(d, off, k)
    ensures Boundary(d, off, k, sw, 0) == Stretch(sw, d[Slot(k, |d|)] - (off - Prefix(d, k))) >= 0.0
  {
    hide Slot, Prefix;
    PrefixNext(d, k);
    StretchSum(sw, 0.0, Prefix(d, k + 1) - off);
    assert d[Slot(k, |d|)] - (off - Prefix(d, k)) == Prefix(d, k + 1) - off;
  }

  lemma {:induction false} BoundaryGrows(d: seq<real>, off: real, k: nat, sw: real, i: nat, j: nat)
    requires Pattern(d) && sw > 0.0 && i <= j
    ensures Boundary(d, off, k, sw, i) <= Boundary(d, off, k, sw, j)
    decreases j
  {
    hide Boundary, Slot, Pattern, Stretch;
    if i < j {
      BoundaryGrows(d, off, k, sw, i, j - 1);
      BoundaryStep(d, off, k, sw, j - 1);
    }
  }

  function Turns(q: nat, s: real): real {
    q as real * s
  }

  lemma {:induction false} PrefixTurns(d: seq<real>, k: nat, q: nat) returns (m: nat)
    requires |d| > 0
    ensures m >= k && Prefix(d, m) == Prefix(d, k) + Turns(q, Prefix(d, |d|))
    decreases q
  {
    hide Prefix;
    if q == 0 {
      m := k;
    } else {
      var m0 := PrefixTurns(d, k, q - 1);
      PrefixPeriod(d, m0);
      m := m0 + |d|;
    }
  }

  /** The pattern changes only finitely often along a path of length `len`. */
  lemma EnoughBreaks(d: seq<real>, off: real, k: nat, sw: real, len: real) returns (m: nat)
    requires Pattern(d) && sw > 0.0 && Skipped(d, off, k) && len >= 0.0
    ensures Boundary(d, off, k, sw, m) >= len
  {
    var s := Prefix(d, |d|);
    var c := PositiveProduct(s, sw);
    var q, p := FloorTimes(len, c);
    var at := PrefixTurns(d, k + 1, q + 1);
    m := at - k - 1;
    LastTurn(q, c, p);
    TurnsTimes(q + 1, s, sw, c);
    StretchSum(sw, 0.0, Prefix(d, k + 1) - off);
    StretchSum(sw, Prefix(d, k + 1) - off, Turns(q + 1, s));
    hide Prefix, Turns, Stretch;
    assert Prefix(d, k + m + 1) - off == Prefix(d, k + 1) - off + Turns(q + 1, s);
  }

  lemma TurnsTimes(q: nat, s: real, sw: real, c: real)
    requires c == s * sw
    ensures Stretch(sw, Turns(q, s)) == Turns(q, c)
  {
    assert sw * (q as real * s) == q as real * (s * sw);
  }

  lemma LastTurn(q: nat, c: real, p: real)
    requires p == q as real * c
    ensures Turns(q + 1, c) == p + c
  {
  }

  /** A cut of the path: on segment `seg`, which has a length, at parameter `t`. */
  datatype Break = Break(seg: nat, t: real)

  ghost predicate BreakAt(pts: seq<PathPoint>, norm: (real, real) -> real, b: Break, at: real) {
    && 1 <= b.seg < |pts| && 0.0 <= b.t < 1.0 && Seg(pts, norm, b.seg) > 0.0
    && Length(pts, norm, b.seg - 1) + Stretch(b.t, Seg(pts, norm, b.seg)) == at
  }

  function Where(pts: seq<PathPoint>, b: Break): Pt
    requires 1 <= b.seg < |pts|
  {
    Along(pts[b.seg - 1].pt, pts[b.seg].pt, b.t)
  }

  /** The cuts are where the pattern changes, in order along the path. */
  ghost predicate BreaksOk(pts: seq<PathPoint>, norm: (real, real) -> real, breaks: seq<Break>,
                           d: seq<real>, off: real, k: nat, sw: real)
    requires |d| > 0
  {
    && (forall i :: 0 <= i < |breaks| ==> BreakAt(pts, norm, breaks[i], Boundary(d, off, k, sw, i)))
    && InOrder(breaks)
  }

  ghost predicate InOrder(breaks: seq<Break>) {
    forall i, j :: 0 <= i < j < |breaks| ==> breaks[i].seg <= breaks[j].seg
  }

  /** Index of the first path point after the `i`-th cut (or after the start). */
  function From(breaks: seq<Break>, i: nat): nat
    requires i <= |breaks|
  {
    if i == 0 then 1 else breaks[i - 1].seg
  }

  function StartOf(pts: seq<PathPoint>, breaks: seq<Break>, i: nat): PathPoint
    requires pts != [] && i <= |breaks| && (i > 0 ==> 1 <= breaks[i - 1].seg < |pts|)
  {
    if i == 0 then pts[0] else PathPoint(Where(pts, breaks[i - 1]), true)
  }

  ghost predicate Within(pts: seq<PathPoint>, breaks: seq<Break>) {
    pts != [] && InOrder(breaks) && forall i :: 0 <= i < |breaks| ==> 1 <= breaks[i].seg < |pts|
  }

  /** The points between cuts `i - 1` and `i`, both ends included. */
  function Piece(pts: seq<PathPoint>, breaks: seq<Break>, i: nat): seq<PathPoint>
    requires Within(pts, breaks) && i < |breaks|
  {
    AddPoint([StartOf(pts, breaks, i)] + pts[From(breaks, i)..breaks[i].seg], Where(pts, breaks[i]), true)
  }

  /** The points from the last cut to the end. */
  function LastPiece(pts: seq<PathPoint>, breaks: seq<Break>): seq<PathPoint>
    requires Within(pts, breaks)
  {
    [StartOf(pts, breaks, |breaks|)] + pts[From(breaks, |breaks|)..]
  }

  /** What is stroked of the first `n` pieces: the even ones, unless they are single points. */
  function Strokes(pts: seq<PathPoint>, breaks: seq<Break>, n: nat): seq<seq<PathPoint>>
    requires Within(pts, breaks) && n <= |breaks|
  {
    if n == 0 then []
    else
      var piece := Piece(pts, breaks, n - 1);
      Strokes(pts, breaks, n - 1) + if (n - 1) % 2 == 0 && |piece| > 1 then [piece] else []
  }

  /** The cuts so far are right and what has been stroked is what they say; the point list holds the piece
      under construction, up to path point `j`. */
  ghost predicate Walked(pts: seq<PathPoint>, norm: (real, real) -> real, breaks: seq<Break>, d: seq<real>, off: real,
                         k: nat, sw: real, strokes: seq<seq<PathPoint>>, points: seq<PathPoint>, j: nat)
    requires |d| > 0
  {
    && Within(pts, breaks) && BreaksOk(pts, norm, breaks, d, off, k, sw)
    && strokes == Strokes(pts, breaks, |breaks|)
    && From(breaks, |breaks|) <= j <= |pts|
    && points == [StartOf(pts, breaks, |breaks|)] + pts[From(breaks, |breaks|)..j]
  }

  lemma WalkedStart(pts: seq<PathPoint>, norm: (real, real) -> real, d: seq<real>, off: real, k: nat, sw: real)
    requires pts != [] && |d| > 0
    ensures Walked(pts, norm, [], d, off, k, sw, [], [pts[0]], 1)
  {
  }

  lemma WalkedOn(pts: seq<PathPoint>, norm: (real, real) -> real, breaks: seq<Break>, d: seq<real>, off: real, k: nat,
                 sw: real, strokes: seq<seq<PathPoint>>, points: seq<PathPoint>, j: nat)
    requires |d| > 0 && Walked(pts, norm, breaks, d, off, k, sw, strokes, points, j) && j < |pts|
    ensures Walked(pts, norm, breaks, d, off, k, sw, strokes, points + [pts[j]], j + 1)
  {
    hide BreaksOk, Strokes, Within;
    var from := From(breaks, |breaks|);
    assert pts[from..j + 1] == pts[from..j] + [pts[j]];
  }

  lemma {:induction false} StrokesPrefix(pts: seq<PathPoint>, breaks: seq<Break>, b: Break, n: nat)
    requires Within(pts, breaks) && Within(pts, breaks + [b]) && n <= |breaks|
    ensures Strokes(pts, breaks + [b], n) == Strokes(pts, breaks, n)
  {
    hide Within, AddPoint, Where;
    if n > 0 {
      StrokesPrefix(pts, breaks, b, n - 1);
      PiecePrefix(pts, breaks, b, n - 1);
    }
  }

  lemma PiecePrefix(pts: seq<PathPoint>, breaks: seq<Break>, b: Break, i: nat)
    requires Within(pts, breaks) && Within(pts, breaks + [b]) && i < |breaks|
    ensures Piece(pts, breaks + [b], i) == Piece(pts, breaks, i)
  {
    hide AddPoint, Where;
  }

  lemma WithinAppend(pts: seq<PathPoint>, breaks: seq<Break>, b: Break)
    requires Within(pts, breaks) && From(breaks, |breaks|) <= b.seg < |pts|
    ensures Within(pts, breaks + [b])
  {
    forall i, j | 0 <= i < j < |breaks + [b]| ensures (breaks + [b])[i].seg <= (breaks + [b])[j].seg {
      if j == |breaks| {
        assert breaks[i].seg <= breaks[|breaks| - 1].seg;
      }
    }
  }

  /** One more cut closes the piece under construction. */
  lemma WalkedCut(pts: seq<PathPoint>, norm: (real, real) -> real, breaks: seq<Break>, d: seq<real>, off: real, k: nat,
                  sw: real, strokes: seq<seq<PathPoint>>, points: seq<PathPoint>, j: nat, t: real,
                  piece: seq<PathPoint>, strokes': seq<seq<PathPoint>>)
    requires |d| > 0 && Walked(pts, norm, breaks, d, off, k, sw, strokes, points, j) && j < |pts|
    requires BreakAt(pts, norm, Break(j, t), Boundary(d, off, k, sw, |breaks|))
    requires piece == AddPoint(points, Where(pts, Break(j, t)), true)
    requires strokes' == if |piece| > 1 && |breaks| % 2 == 0 then strokes + [piece] else strokes
    ensures Walked(pts, norm, breaks + [Break(j, t)], d, off, k, sw, strokes',
                   [PathPoint(Where(pts, Break(j, t)), true)], j)
  {
    hide AddPoint, Where, Boundary, BreakAt;
    var b := Break(j, t);
    assert 1 <= b.seg by {
      FromPositive(pts, breaks);
    }
    WithinAppend(pts, breaks, b);
    StrokesPrefix(pts, breaks, b, |breaks|);
    assert (breaks + [b])[|breaks|] == b;
    hide Within;
    assert Piece(pts, breaks + [b], |breaks|) == piece;
    assert pts[j..j] == [];
    assert BreaksOk(pts, norm, breaks + [b], d, off, k, sw) by {
      WithinInOrder(pts, breaks + [b]);
    }
  }

  lemma FromPositive(pts: seq<PathPoint>, breaks: seq<Break>)
    requires Within(pts, breaks)
    ensures From(breaks, |breaks|) >= 1
  {
  }

  lemma WithinInOrder(pts: seq<PathPoint>, breaks: seq<Break>)
    requires Within(pts, breaks)
    ensures InOrder(breaks)
  {
  }

  /** The variables of the walk: `j`, `cur`, `totalDist`, `dashLen`, `idash` and `dashState`. */
  datatype Walker = Walker(j: nat, cur: Pt, totalDist: real, dashLen: real, idash: nat, on: bool)

  function LastBoundary(d: seq<real>, off: real, k: nat, sw: real, m: nat): real
    requires |d| > 0
  {
    if m == 0 then 0.0 else Boundary(d, off, k, sw, m - 1)
  }

  /** After `m` cuts the walker is at distance `here` on the path; the next change of the pattern is not behind it. */
  ghost predicate WalkerOk(v: Walker, pts: seq<PathPoint>, norm: (real, real) -> real, d: seq<real>, off: real, k: nat,
                           sw: real, m: nat, t: real, here: real)
    requires |d| > 0
  {
    && At(pts, norm, v.j, t, v.cur, here)
    && v.totalDist == here - LastBoundary(d, off, k, sw, m)
    && v.dashLen == Boundary(d, off, k, sw, m) - LastBoundary(d, off, k, sw, m)
    && 0.0 <= v.totalDist <= v.dashLen
    && v.idash == Slot(k + m, |d|) && v.on == (m % 2 == 0)
  }

  lemma WalkerStarts(pts: seq<PathPoint>, norm: (real, real) -> real, d: seq<real>, off: real, k: nat, sw: real)
    requires pts != [] && Pattern(d) && sw > 0.0 && Skipped(d, off, k)
    ensures WalkerOk(Walker(1, pts[0].pt, 0.0, Stretch(sw, d[Slot(k, |d|)] - (off - Prefix(d, k))), Slot(k, |d|), true),
                     pts, norm, d, off, k, sw, 0, 0.0, 0.0)
  {
    BoundaryFirst(d, off, k, sw);
    AtStart(pts, norm, 1);
    hide Boundary, Slot, Prefix, At, Stretch;
  }

  /** The branch that goes on to the next point. */
  lemma WalkerOn(v: Walker, pts: seq<PathPoint>, norm: (real, real) -> real, d: seq<real>, off: real, k: nat,
                 sw: real, m: nat, t: real, here: real, dist: real)
    requires |d| > 0 && IsNorm(norm) && WalkerOk(v, pts, norm, d, off, k, sw, m, t, here) && v.j < |pts|
    requires dist == Distance(norm, v.cur, pts[v.j].pt) && v.totalDist + dist <= v.dashLen
    ensures WalkerOk(v.(j := v.j + 1, cur := pts[v.j].pt, totalDist := v.totalDist + dist),
                     pts, norm, d, off, k, sw, m, 0.0, here + dist)
    ensures here + dist == Length(pts, norm, v.j)
  {
    hide Boundary, LastBoundary, Slot, Seg, Length;
    assert dist >= 0.0;
    ToSegmentEnd(pts, norm, v.j, t, v.cur, here);
    AtStart(pts, norm, v.j + 1);
  }

  /** The branch that cuts: the division is by a positive length, and the cut is where the pattern changes. */
  lemma WalkerCut(v: Walker, pts: seq<PathPoint>, norm: (real, real) -> real, d: seq<real>, off: real, k: nat,
                  sw: real, m: nat, t: real, here: real, dist: real) returns (t': real)
    requires Pattern(d) && sw > 0.0 && IsNorm(norm) && WalkerOk(v, pts, norm, d, off, k, sw, m, t, here) && v.j < |pts|
    requires dist == Distance(norm, v.cur, pts[v.j].pt) && v.totalDist + dist > v.dashLen
    ensures dist > 0.0
    ensures var cut := Cut(v.cur, pts[v.j].pt, Quot(v.dashLen - v.totalDist, dist));
            && cut == Where(pts, Break(v.j, t'))
            && BreakAt(pts, norm, Break(v.j, t'), Boundary(d, off, k, sw, m))
            && WalkerOk(Walker(v.j, cut, 0.0, Stretch(sw, d[Slot(k + m + 1, |d|)]), (v.idash + 1) % |d|, !v.on),
                        pts, norm, d, off, k, sw, m + 1, t', Boundary(d, off, k, sw, m))
    ensures Boundary(d, off, k, sw, m) < here + dist == Length(pts, norm, v.j)
  {
    hide Boundary, Slot, Seg, Length, Stretch, Along, Distance, IsNorm, Pattern, Cut, Quot;
    ToSegmentEnd(pts, norm, v.j, t, v.cur, here);
    t' := CutStep(pts, norm, v.j, t, v.cur, here, v.dashLen - v.totalDist, dist);
    NormPositive(norm, pts, v.j, t);
    BoundaryStep(d, off, k, sw, m);
    SlotNext(k + m, |d|);
  }

  lemma NormPositive(norm: (real, real) -> real, pts: seq<PathPoint>, j: nat, t: real)
    requires IsNorm(norm) && 1 <= j < |pts|
    ensures Stretch(1.0 - t, Seg(pts, norm, j)) > 0.0 ==> Seg(pts, norm, j) > 0.0
  {
    assert Seg(pts, norm, j) >= 0.0;
  }

  /** The cuts are exactly the changes of the pattern before the end of the path, and the pieces between them
      are stroked alternately, beginning with the first. */
  ghost predicate CutBy(pts: seq<PathPoint>, d: seq<real>, offset: real, sw: real, norm: (real, real) -> real,
                        strokes: seq<seq<PathPoint>>, breaks: seq<Break>, off: real, k: nat)
    requires pts != [] && |d| > 0
  {
    && 0.0 <= off < CycleLength(d) && Reduced(d, offset, off) && Skipped(d, off, k)
    && Within(pts, breaks) && BreaksOk(pts, norm, breaks, d, off, k, sw)
    && Boundary(d, off, k, sw, |breaks|) >= Length(pts, norm, |pts| - 1)
    && (forall i :: 0 <= i < |breaks| ==> Boundary(d, off, k, sw, i) < Length(pts, norm, |pts| - 1))
    && strokes == Strokes(pts, breaks, |breaks|)
                  + if |breaks| % 2 == 0 && |LastPiece(pts, breaks)| > 1 then [LastPiece(pts, breaks)] else []
  }

  /** The strokes are those of the pattern from the given offset on. */
  ghost predicate Dashed(pts: seq<PathPoint>, d: seq<real>, offset: real, sw: real, norm: (real, real) -> real,
                         strokes: seq<seq<PathPoint>>)
    requires pts != [] && |d| > 0
  {
    exists breaks, off, k :: CutBy(pts, d, offset, sw, norm, strokes, breaks, off, k)
  }

  /** The dash walk: finds the place of the offset in the pattern, then walks along the path. */
  method Walk(pts: seq<PathPoint>, d: seq<real>, offset: real, sw: real, norm: (real, real) -> real)
    returns (strokes: seq<seq<PathPoint>>)
    requires pts != [] && Pattern(d) && sw > 0.0 && IsNorm(norm)
    ensures Dashed(pts, d, offset, sw, norm, strokes)
  {
    assert |d| > 0;
    hide Boundary, CycleLength, Reduced, Skipped, Pattern, IsNorm, Length, Strokes, BreaksOk, Within;
    var idash, dashOffset;
    ghost var off, k, breaks;
    idash, dashOffset, off, k := FindStart(d, offset);
    strokes, breaks := WalkFrom(pts, d, sw, norm, idash, dashOffset, off, k);
    assert CutBy(pts, d, offset, sw, norm, strokes, breaks, off, k);
  }

  /** The loop over the points, from place `dashOffset` in entry `idash` on. */
  method WalkFrom(pts: seq<PathPoint>, d: seq<real>, sw: real, norm: (real, real) -> real, idash: nat,
                  dashOffset: real, ghost off: real, ghost k: nat)
    returns (strokes: seq<seq<PathPoint>>, ghost breaks: seq<Break>)
    requires pts != [] && Pattern(d) && sw > 0.0 && IsNorm(norm)
    requires Skipped(d, off, k) && idash == Slot(k, |d|) && dashOffset == off - Prefix(d, k)
    ensures Within(pts, breaks) && BreaksOk(pts, norm, breaks, d, off, k, sw)
    ensures Boundary(d, off, k, sw, |breaks|) >= Length(pts, norm, |pts| - 1)
    ensures forall i :: 0 <= i < |breaks| ==> Boundary(d, off, k, sw, i) < Length(pts, norm, |pts| - 1)
    ensures strokes == Strokes(pts, breaks, |breaks|)
                       + if |breaks| % 2 == 0 && |LastPiece(pts, breaks)| > 1 then [LastPiece(pts, breaks)] else []
  {
    hide Walked, WalkerOk, Boundary, CycleLength, Reduced, Skipped, Pattern, IsNorm, AddPoint, At, Slot, Length,
      Strokes, BreaksOk, Cut, Where, BreakAt, Stretch;
    var v := Walker(1, pts[0].pt, 0.0, Stretch(sw, d[idash] - dashOffset), idash, true);
    var points := [pts[0]];
    strokes, breaks := [], [];
    WalkerStarts(pts, norm, d, off, k, sw);
    WalkedStart(pts, norm, d, off, k, sw);
    ghost var t, here := 0.0, 0.0;
    ghost var limit := PathEnds(pts, norm, d, off, k, sw);
    while v.j < |pts|
      invariant WalkerOk(v, pts, norm, d, off, k, sw, |breaks|, t, here) && 1 <= v.j <= |pts|
      invariant Walked(pts, norm, breaks, d, off, k, sw, strokes, points, v.j)
      invariant |breaks| <= limit
      invariant forall i :: 0 <= i < |breaks| ==> Boundary(d, off, k, sw, i) < Length(pts, norm, |pts| - 1)
      decreases limit - |breaks|, |pts| - v.j
    {
      var next := pts[v.j];
      var dist := Distance(norm, v.cur, next.pt);
      if v.totalDist + dist > v.dashLen {
        ghost var t' := WalkerCut(v, pts, norm, d, off, k, sw, |breaks|, t, here, dist);
        BeforeEnd(pts, norm, d, off, k, sw, |breaks|, v.j, limit);
        var cut := Cut(v.cur, next.pt, Quot(v.dashLen - v.totalDist, dist));
        var piece := AddPoint(points, cut, true);
        ghost var strokes0 := strokes;
        WalkerParity(v, pts, norm, d, off, k, sw, |breaks|, t, here);
        if |piece| > 1 && v.on {
          strokes := strokes + [piece];
        }
        WalkedCut(pts, norm, breaks, d, off, k, sw, strokes0, points, v.j, t', piece, strokes);
        var idash' := (v.idash + 1) % |d|;
        v := Walker(v.j, cut, 0.0, Stretch(sw, d[idash']), idash', !v.on);
        points := [PathPoint(cut, true)];
        here, t := Boundary(d, off, k, sw, |breaks|), t';
        breaks := breaks + [Break(v.j, t')];
      } else {
        WalkerOn(v, pts, norm, d, off, k, sw, |breaks|, t, here, dist);
        WalkedOn(pts, norm, breaks, d, off, k, sw, strokes, points, v.j);
        points := points + [next];
        v := v.(j := v.j + 1, cur := next.pt, totalDist := v.totalDist + dist);
        here, t := here + dist, 0.0;
      }
    }
    WalkEnds(v, pts, norm, breaks, d, off, k, sw, strokes, points, t, here);
    if |points| > 1 && v.on {
      strokes := strokes + [points];
    }
  }

  lemma PathEnds(pts: seq<PathPoint>, norm: (real, real) -> real, d: seq<real>, off: real, k: nat, sw: real)
    returns (m: nat)
    requires pts != [] && Pattern(d) && sw > 0.0 && Skipped(d, off, k) && IsNorm(norm)
    ensures Boundary(d, off, k, sw, m) >= Length(pts, norm, |pts| - 1)
  {
    LengthGrows(pts, norm, 0, |pts| - 1);
    m := EnoughBreaks(d, off, k, sw, Length(pts, norm, |pts| - 1));
  }

  lemma BeforeEnd(pts: seq<PathPoint>, norm: (real, real) -> real, d: seq<real>, off: real, k: nat, sw: real, m: nat,
                  j: nat, limit: nat)
    requires Pattern(d) && sw > 0.0 && IsNorm(norm) && 1 <= j < |pts|
    requires Boundary(d, off, k, sw, m) < Length(pts, norm, j)
    requires Boundary(d, off, k, sw, limit) >= Length(pts, norm, |pts| - 1)
    ensures Boundary(d, off, k, sw, m) < Length(pts, norm, |pts| - 1) && m < limit
  {
    LengthGrows(pts, norm, j, |pts| - 1);
    hide Boundary, Length;
    if m >= limit {
      BoundaryGrows(d, off, k, sw, limit, m);
    }
  }

  lemma WalkerParity(v: Walker, pts: seq<PathPoint>, norm: (real, real) -> real, d: seq<real>, off: real, k: nat,
                     sw: real, m: nat, t: real, here: real)
    requires |d| > 0 && WalkerOk(v, pts, norm, d, off, k, sw, m, t, here)
    ensures v.on == (m % 2 == 0) && v.idash == Slot(k + m, |d|) && (v.idash + 1) % |d| == Slot(k + m + 1, |d|)
  {
    SlotNext(k + m, |d|);
  }

  lemma WalkEnds(v: Walker, pts: seq<PathPoint>, norm: (real, real) -> real, breaks: seq<Break>, d: seq<real>,
                 off: real, k: nat, sw: real, strokes: seq<seq<PathPoint>>, points: seq<PathPoint>, t: real, here: real)
    requires |d| > 0 && WalkerOk(v, pts, norm, d, off, k, sw, |breaks|, t, here) && v.j == |pts|
    requires Walked(pts, norm, breaks, d, off, k, sw, strokes, points, v.j)
    ensures Boundary(d, off, k, sw, |breaks|) >= Length(pts, norm, |pts| - 1)
    ensures Within(pts, breaks) && BreaksOk(pts, norm, breaks, d, off, k, sw)
    ensures strokes == Strokes(pts, breaks, |breaks|)
    ensures points == LastPiece(pts, breaks) && v.on == (|breaks| % 2 == 0)
  {
    hide Boundary, Length, BreaksOk, Strokes, Slot;
    assert pts[From(breaks, |breaks|)..v.j] == pts[From(breaks, |breaks|)..];
  }

  /** Section 11.4 of SVG 1.1: position `u` of the repeated pattern lies inside a dash, not a gap. */
  ghost predicate DashedOn(d: seq<real>, u: real)
    requires |d| > 0
  {
    exists e: nat :: Even(e) && InEntry(d, u, e)
  }

  predicate Even(n: nat) {
    n % 2 == 0
  }

  ghost predicate InEntry(d: seq<real>, u: real, e: nat)
    requires |d| > 0
  {
    Prefix(d, e) < u < Prefix(d, e + 1)
  }

  lemma OneEntry(d: seq<real>, u: real, e: nat, e': nat)
    requires Pattern(d) && InEntry(d, u, e) && InEntry(d, u, e')
    ensures e == e'
  {
    hide Prefix, Pattern;
    if e < e' {
      PrefixGrows(d, e + 1, e');
    } else if e' < e {
      PrefixGrows(d, e' + 1, e);
    }
  }

  lemma InEntryOn(d: seq<real>, u: real, e: nat)
    requires Pattern(d) && InEntry(d, u, e)
    ensures DashedOn(d, u) <==> Even(e)
  {
    assert |d| > 0;
    hide InEntry, Pattern, Even;
    if DashedOn(d, u) {
      var e' :| Even(e') && InEntry(d, u, e');
      OneEntry(d, u, e, e');
    }
  }

  lemma NextCycle(d: seq<real>, u: real, e: nat)
    requires |d| > 0 && InEntry(d, u, e)
    ensures InEntry(d, u + CycleLength(d), e + Cycle(d))
  {
    CyclePeriod(d, e);
    CyclePeriod(d, e + 1);
    hide CycleLength, Cycle, Prefix;
  }

  lemma EvenSum(a: nat, b: nat)
    ensures Even(a + b) <==> (Even(a) <==> Even(b))
  {
  }

  /** Whole cycles do not matter, so neither does reducing the offset. */
  lemma DashedOnPeriod(d: seq<real>, u: real)
    requires Pattern(d) && DashedOn(d, u)
    ensures DashedOn(d, u + CycleLength(d))
  {
    hide InEntry, CycleLength, Even;
    var e: nat :| Even(e) && InEntry(d, u, e);
    NextCycle(d, u, e);
    CycleEven(d);
    EvenSum(e, Cycle(d));
  }

  lemma CycleEven(d: seq<real>)
    ensures Even(Cycle(d))
  {
  }

  /** Position `u` of the pattern comes to lie strictly inside piece `i` of the path. */
  ghost predicate InPiece(d: seq<real>, off: real, k: nat, sw: real, i: nat, u: real)
    requires |d| > 0
  {
    LastBoundary(d, off, k, sw, i) < Stretch(sw, u - off) < Boundary(d, off, k, sw, i)
  }

  lemma StretchOrder(sw: real, a: real, b: real)
    requires sw > 0.0
    ensures Stretch(sw, a) < Stretch(sw, b) <==> a < b
  {
    if a < b {
      var p := PositiveProduct(sw, b - a);
      assert p == Stretch(sw, b) - Stretch(sw, a);
    } else {
      var p := Product(sw, a - b);
      assert p == Stretch(sw, a) - Stretch(sw, b);
    }
  }

  /** Piece `i` is entry `k + i` of the pattern, less what the offset cuts from the first one. */
  lemma PieceIsEntry(d: seq<real>, off: real, k: nat, sw: real, i: nat, u: real)
    requires Pattern(d) && sw > 0.0 && off >= 0.0 && Skipped(d, off, k)
    ensures InPiece(d, off, k, sw, i, u) ==> InEntry(d, u, k + i)
    ensures i > 0 && InEntry(d, u, k + i) ==> InPiece(d, off, k, sw, i, u)
  {
    StretchOrder(sw, u - off, Prefix(d, k + i + 1) - off);
    if i == 0 {
      StretchOrder(sw, 0.0, u - off);
      assert Stretch(sw, 0.0) == 0.0;
    } else {
      StretchOrder(sw, Prefix(d, k + i) - off, u - off);
    }
    hide Stretch, Slot;
  }

  /** Inside piece `i` the pattern is on exactly when entry `k + i` is a dash. */
  lemma PieceOn(d: seq<real>, off: real, k: nat, sw: real, i: nat, u: real)
    requires Pattern(d) && sw > 0.0 && off >= 0.0 && Skipped(d, off, k) && InPiece(d, off, k, sw, i, u)
    ensures DashedOn(d, u) <==> (Even(k) <==> Even(i))
  {
    PieceIsEntry(d, off, k, sw, i, u);
    InEntryOn(d, u, k + i);
    EvenSum(k, i);
  }

  /** The walk strokes every even piece: right wherever the pattern is on there and off in the odd ones. */
  ghost predicate PhaseRight(d: seq<real>, off: real, k: nat, sw: real)
    requires |d| > 0
  {
    forall i: nat, u: real :: InPiece(d, off, k, sw, i, u) ==> (DashedOn(d, u) <==> Even(i))
  }

  /** That is what section 11.4 of SVG 1.1 asks for if and only if the offset skips an even number of entries. */
  lemma PhaseRightIff(d: seq<real>, off: real, k: nat, sw: real)
    requires Pattern(d) && sw > 0.0 && off >= 0.0 && Skipped(d, off, k)
    ensures PhaseRight(d, off, k, sw) <==> Even(k)
  {
    assert |d| > 0;
    hide InPiece, DashedOn, InEntry, Skipped, Pattern, Even;
    forall i: nat, u: real | InPiece(d, off, k, sw, i, u)
      ensures DashedOn(d, u) <==> (Even(k) <==> Even(i))
    {
      PieceOn(d, off, k, sw, i, u);
    }
    var i, u := SomeInside(d, k);
    PieceIsEntry(d, off, k, sw, i, u);
    assert InPiece(d, off, k, sw, i, u);
  }

  /** Some entry after the `k`-th has a positive length. */
  lemma SomeInside(d: seq<real>, k: nat) returns (i: nat, u: real)
    requires Pattern(d)
    ensures i > 0 && InEntry(d, u, k + i)
  {
    PrefixPeriod(d, k + 1);
    var e := FindRise(d, k + 1, |d|);
    i := e - k;
    u := (Prefix(d, k + i) + Prefix(d, k + i + 1)) / 2.0;
  }

  lemma {:induction false} FindRise(d: seq<real>, from: nat, n: nat) returns (e: nat)
    requires |d| > 0 && Prefix(d, from) < Prefix(d, from + n)
    ensures from <= e && Prefix(d, e) < Prefix(d, e + 1)
    decreases n
  {
    hide Prefix;
    if n == 1 || Prefix(d, from) < Prefix(d, from + 1) {
      e := from;
    } else {
      e := FindRise(d, from + 1, n - 1);
    }
  }

  /** Pattern "1 1" with offset 3/2: the path begins in the middle of a gap, and the code strokes it. */
  lemma PhaseWrong()
    ensures var d := [1.0, 1.0];
            && Pattern(d) && Skipped(d, 1.5, 1)
            && InPiece(d, 1.5, 1, 1.0, 0, 1.75) && !DashedOn(d, 1.75)
  {
    var d := [1.0, 1.0];
    assert Slot(0, 2) == 0 && Slot(1, 2) == 1;
    assert Prefix(d, 1) == 1.0;
    assert Prefix(d, 2) == 2.0;
    assert InEntry(d, 1.75, 1);
    InEntryOn(d, 1.75, 1);
  }
}
