/** What of a path the dash walk really strokes: of the pieces between cuts those where the pattern is taken to be on,
    unless they have come down to a single point. */
module DashStrokes {
  import opened Bezier
  import opened Edges
  import opened Flatten
  import opened Dashes
  import opened DashWalk
  import opened DashPieces

  /** The point list of piece `i`, as it would be given to the stroker. */
  function ListOf(pts: seq<PathPoint>, breaks: seq<Break>, i: nat): seq<PathPoint>
    requires Within(pts, breaks) && i <= |breaks|
  {
    if i == |breaks| then LastPiece(pts, breaks) else Piece(pts, breaks, i)
  }

  /** The even ones of the first `n` pieces, unless they are single points. */
  function Stroked(pts: seq<PathPoint>, breaks: seq<Break>, n: nat): (r: seq<nat>)
    requires Within(pts, breaks) && n <= |breaks| + 1
    ensures forall j :: 0 <= j < |r| ==> r[j] < n
  {
    if n == 0 then []
    else Stroked(pts, breaks, n - 1)
         + if Even(n - 1) && |ListOf(pts, breaks, n - 1)| > 1 then [n - 1] else []
  }

  lemma {:induction false} StrokedIs(pts: seq<PathPoint>, breaks: seq<Break>, n: nat, i: nat)
    requires Within(pts, breaks) && n <= |breaks| + 1
    ensures i in Stroked(pts, breaks, n) <==> i < n && Even(i) && |ListOf(pts, breaks, i)| > 1
  {
    hide Even, ListOf, Within;
    if n > 0 {
      StrokedIs(pts, breaks, n - 1, i);
    }
  }

  function Lists(pts: seq<PathPoint>, breaks: seq<Break>, indices: seq<nat>): (r: seq<seq<PathPoint>>)
    requires Within(pts, breaks) && forall j :: 0 <= j < |indices| ==> indices[j] <= |breaks|
    ensures |r| == |indices| && forall j :: 0 <= j < |r| ==> r[j] == ListOf(pts, breaks, indices[j])
  {
    seq(|indices|, j requires 0 <= j < |indices| => ListOf(pts, breaks, indices[j]))
  }

  lemma ListsMore(pts: seq<PathPoint>, breaks: seq<Break>, a: seq<nat>, b: seq<nat>)
    requires Within(pts, breaks) && forall j :: 0 <= j < |a + b| ==> (a + b)[j] <= |breaks|
    requires forall j :: 0 <= j < |a| ==> a[j] <= |breaks|
    requires forall j :: 0 <= j < |b| ==> b[j] <= |breaks|
    ensures Lists(pts, breaks, a + b) == Lists(pts, breaks, a) + Lists(pts, breaks, b)
  {
    hide ListOf, Within;
  }

  lemma {:induction false} StrokesAreStroked(pts: seq<PathPoint>, breaks: seq<Break>, n: nat)
    requires Within(pts, breaks) && n <= |breaks|
    ensures Strokes(pts, breaks, n) == Lists(pts, breaks, Stroked(pts, breaks, n))
  {
    hide Within, Piece;
    if n > 0 {
      StrokesAreStroked(pts, breaks, n - 1);
      var more := if Even(n - 1) && |ListOf(pts, breaks, n - 1)| > 1 then [n - 1] else [];
      ListsMore(pts, breaks, Stroked(pts, breaks, n - 1), more);
    }
  }

  /** A piece that ends on the segment it starts on has no vertex of the path inside. */
  predicate HasVertex(breaks: seq<Break>, i: nat)
    requires i < |breaks|
  {
    From(breaks, i) < breaks[i].seg
  }

  /** A piece between two cuts comes down to a single point if and only if it has no vertex and is shorter than the
      tolerance. */
  lemma PieceStaysIff(pts: seq<PathPoint>, norm: (real, real) -> real, breaks: seq<Break>, i: nat)
    requires Euclidean(norm) && Within(pts, breaks) && i < |breaks|
    ensures |Piece(pts, breaks, i)| > 1
            <==> HasVertex(breaks, i) || PolyLength(norm, FullPiece(pts, breaks, i)) >= DIST_TOL
  {
    FullPieceIs(pts, breaks, i);
    var start, cut := StartOf(pts, breaks, i), PathPoint(Where(pts, breaks[i]), true);
    var q := [start] + pts[From(breaks, i)..breaks[i].seg];
    PieceSize(q, cut.pt);
    hide Euclidean, PolyLength, AddPoint, Where, Near, StartOf, Within, FullPiece, From;
    if !HasVertex(breaks, i) {
      assert q == [start];
      TwoPoints(norm, start, cut);
      NearIff(norm, start.pt, cut.pt);
    }
  }

  lemma PieceSize(q: seq<PathPoint>, p: Pt)
    requires q != []
    ensures |AddPoint(q, p, true)| > 1 <==> |q| > 1 || !Near(q[0].pt, p)
  {
    hide Near;
  }

  lemma TwoPoints(norm: (real, real) -> real, a: PathPoint, b: PathPoint)
    ensures PolyLength(norm, [a] + [b]) == Distance(norm, a.pt, b.pt)
  {
    PolyLengthMore(norm, [a], b);
    PolyOfOne(norm, a);
  }

  lemma NearIff(norm: (real, real) -> real, a: Pt, b: Pt)
    requires Euclidean(norm)
    ensures Near(a, b) <==> Distance(norm, a, b) < DIST_TOL
  {
    var x, y := b.x - a.x, b.y - a.y;
    var n := norm(x, y);
    assert n >= 0.0 && n * n == SquaredLength(x, y);
    if n < DIST_TOL {
      SquareStrict(n, DIST_TOL);
    } else {
      ProductSign(n - DIST_TOL, n + DIST_TOL);
    }
  }

  lemma SquareStrict(a: real, b: real)
    requires 0.0 <= a < b
    ensures a * a < b * b
  {
    var p := PositiveProduct(b - a, b + a);
  }

  /** No dash that has a length is shorter than the tolerance unless it goes round a vertex. */
  ghost predicate DashesStay(pts: seq<PathPoint>, norm: (real, real) -> real, breaks: seq<Break>)
    requires Within(pts, breaks)
  {
    forall i: nat :: i < |breaks| && Even(i) && PolyLength(norm, FullPiece(pts, breaks, i)) > 0.0 ==>
      HasVertex(breaks, i) || PolyLength(norm, FullPiece(pts, breaks, i)) >= DIST_TOL
  }

  /** What is stroked are the dashes: at every position of the pattern that comes to lie inside some piece of the path,
      that piece is stroked if and only if the pattern is on. */
  ghost predicate StrokesAreDashes(pts: seq<PathPoint>, norm: (real, real) -> real, d: seq<real>, off: real, k: nat,
                                   sw: real, breaks: seq<Break>)
    requires |d| > 0 && Within(pts, breaks)
  {
    forall i: nat, u: real :: OnPath(pts, norm, d, off, k, sw, |breaks|, i, u) ==>
      (i in Stroked(pts, breaks, |breaks| + 1) <==> DashedOn(d, u))
  }

  lemma PlaceOf(off: real, sw: real, x: real) returns (u: real)
    requires sw > 0.0
    ensures Stretch(sw, u - off) == x
  {
    u := off + x / sw;
    Undone(x, sw);
    assert u - off == x / sw;
  }

  /** A piece that has a length has a place inside the path, and the other way round. */
  lemma PieceHasPlace(pts: seq<PathPoint>, norm: (real, real) -> real, breaks: seq<Break>, d: seq<real>, off: real,
                      k: nat, sw: real, i: nat) returns (u: real)
    requires |d| > 0 && Pattern(d) && sw > 0.0 && Skipped(d, off, k) && IsNorm(norm) && Within(pts, breaks)
    requires BreaksOk(pts, norm, breaks, d, off, k, sw) && i < |breaks|
    requires Boundary(d, off, k, sw, i) < Length(pts, norm, |pts| - 1)
    ensures PolyLength(norm, FullPiece(pts, breaks, i)) > 0.0 ==> OnPath(pts, norm, d, off, k, sw, |breaks|, i, u)
  {
    hide Boundary, LastBoundary, Stretch, PolyLength, FullPiece, Pattern, Skipped, IsNorm, Within, BreaksOk, Length;
    PieceLengthIs(pts, norm, breaks, d, off, k, sw, i);
    u := PlaceOf(off, sw, (LastBoundary(d, off, k, sw, i) + Boundary(d, off, k, sw, i)) / 2.0);
  }

  lemma PlaceHasLength(pts: seq<PathPoint>, norm: (real, real) -> real, breaks: seq<Break>, d: seq<real>, off: real,
                       k: nat, sw: real, i: nat, u: real)
    requires |d| > 0 && Pattern(d) && sw > 0.0 && Skipped(d, off, k) && IsNorm(norm) && Within(pts, breaks)
    requires BreaksOk(pts, norm, breaks, d, off, k, sw) && i < |breaks|
    requires OnPath(pts, norm, d, off, k, sw, |breaks|, i, u)
    ensures PolyLength(norm, FullPiece(pts, breaks, i)) > 0.0
  {
    hide Boundary, LastBoundary, Stretch, PolyLength, FullPiece, Pattern, Skipped, IsNorm, Within, BreaksOk, Length;
    PieceLengthIs(pts, norm, breaks, d, off, k, sw, i);
  }

  /** The last piece has the end of the path behind its start, so it never comes down to a point. */
  lemma LastStays(pts: seq<PathPoint>, norm: (real, real) -> real, breaks: seq<Break>)
    requires Within(pts, breaks) && Length(pts, norm, |pts| - 1) > 0.0
    ensures |ListOf(pts, breaks, |breaks|)| > 1
  {
    LastPieceIs(pts, breaks);
    hide StartOf, Where;
  }

  /** A piece that has a place on the path is stroked if and only if it is even and did not come down to a point. */
  lemma PlaceStroked(pts: seq<PathPoint>, norm: (real, real) -> real, breaks: seq<Break>, i: nat)
    requires Euclidean(norm) && Within(pts, breaks) && i <= |breaks| && Length(pts, norm, |pts| - 1) > 0.0
    ensures i in Stroked(pts, breaks, |breaks| + 1)
            <==> Even(i) && (i < |breaks| ==>
                   HasVertex(breaks, i) || PolyLength(norm, FullPiece(pts, breaks, i)) >= DIST_TOL)
  {
    StrokedIs(pts, breaks, |breaks| + 1, i);
    hide Even, Within, HasVertex, FullPiece, Piece, LastPiece, Stroked, PolyLength, Euclidean, Length;
    if i < |breaks| {
      PieceStaysIff(pts, norm, breaks, i);
    } else {
      LastStays(pts, norm, breaks);
    }
  }

  /** What the walk strokes, as indices of pieces. */
  lemma StrokesAreLists(pts: seq<PathPoint>, d: seq<real>, offset: real, sw: real, norm: (real, real) -> real,
                        strokes: seq<seq<PathPoint>>, breaks: seq<Break>, off: real, k: nat)
    requires pts != [] && |d| > 0 && CutBy(pts, d, offset, sw, norm, strokes, breaks, off, k)
    ensures strokes == Lists(pts, breaks, Stroked(pts, breaks, |breaks| + 1))
  {
    hide Within, BreaksOk, Boundary, Length, CycleLength, Reduced, Skipped, LastPiece;
    var m := |breaks|;
    StrokesAreStroked(pts, breaks, m);
    var more := if Even(m) && |ListOf(pts, breaks, m)| > 1 then [m] else [];
    ListsMore(pts, breaks, Stroked(pts, breaks, m), more);
    assert Lists(pts, breaks, more) == if more == [] then [] else [LastPiece(pts, breaks)];
  }

  /** On every path that has a length: the strokes are the lists of the stroked pieces, and those are the dashes of the
      pattern if and only if the offset skips an even number of entries and no dash is lost for being short. */
  lemma StrokesRightIff(pts: seq<PathPoint>, d: seq<real>, offset: real, sw: real, norm: (real, real) -> real,
                        strokes: seq<seq<PathPoint>>, breaks: seq<Break>, off: real, k: nat)
    requires pts != [] && Pattern(d) && sw > 0.0 && Euclidean(norm) && Length(pts, norm, |pts| - 1) > 0.0
    requires CutBy(pts, d, offset, sw, norm, strokes, breaks, off, k)
    ensures strokes == Lists(pts, breaks, Stroked(pts, breaks, |breaks| + 1))
    ensures StrokesAreDashes(pts, norm, d, off, k, sw, breaks) <==> Even(k) && DashesStay(pts, norm, breaks)
  {
    assert |d| > 0;
    StrokesAreLists(pts, d, offset, sw, norm, strokes, breaks, off, k);
    EuclideanIsNorm(norm);
    var m := |breaks|;
    if Even(k) && DashesStay(pts, norm, breaks) {
      DashesStroked(pts, d, off, k, sw, norm, breaks);
    }
    if !Even(k) {
      var u := LastPlace(pts, d, off, k, sw, norm, m);
      WrongPhase(pts, d, off, k, sw, norm, breaks, u);
    } else if i: nat :| i < |breaks| && Even(i) && PolyLength(norm, FullPiece(pts, breaks, i)) > 0.0
                        && !HasVertex(breaks, i) && PolyLength(norm, FullPiece(pts, breaks, i)) < DIST_TOL {
      DashLost(pts, d, off, k, sw, norm, breaks, i);
    }
  }

  lemma DashesStroked(pts: seq<PathPoint>, d: seq<real>, off: real, k: nat, sw: real, norm: (real, real) -> real,
                      breaks: seq<Break>)
    requires |d| > 0 && Pattern(d) && sw > 0.0 && off >= 0.0 && Skipped(d, off, k) && Euclidean(norm) && IsNorm(norm)
    requires pts != [] && Within(pts, breaks) && BreaksOk(pts, norm, breaks, d, off, k, sw)
    requires Length(pts, norm, |pts| - 1) > 0.0
    requires Even(k) && DashesStay(pts, norm, breaks)
    ensures StrokesAreDashes(pts, norm, d, off, k, sw, breaks)
  {
    var m := |breaks|;
    hide Stroked, HasVertex, Within, BreaksOk, Pattern, Skipped, Euclidean, IsNorm, Even, DashedOn, PolyLength,
      FullPiece, Length, InPiece, Stretch;
    forall i: nat, u: real | OnPath(pts, norm, d, off, k, sw, m, i, u)
      ensures i in Stroked(pts, breaks, m + 1) <==> DashedOn(d, u)
    {
      PieceOn(d, off, k, sw, i, u);
      PlaceStroked(pts, norm, breaks, i);
      if i < m {
        PlaceHasLength(pts, norm, breaks, d, off, k, sw, i, u);
      }
    }
  }

  /** After an odd number of entries the last piece is stroked in a gap, or not stroked in a dash. */
  lemma WrongPhase(pts: seq<PathPoint>, d: seq<real>, off: real, k: nat, sw: real, norm: (real, real) -> real,
                   breaks: seq<Break>, u: real)
    requires |d| > 0 && Pattern(d) && sw > 0.0 && off >= 0.0 && Skipped(d, off, k) && Euclidean(norm)
    requires pts != [] && Within(pts, breaks) && Length(pts, norm, |pts| - 1) > 0.0
    requires !Even(k) && OnPath(pts, norm, d, off, k, sw, |breaks|, |breaks|, u)
    ensures !StrokesAreDashes(pts, norm, d, off, k, sw, breaks)
  {
    hide Stroked, HasVertex, Within, Pattern, Skipped, Euclidean, Even, DashedOn, PolyLength, FullPiece, Length,
      InPiece, Stretch;
    PieceOn(d, off, k, sw, |breaks|, u);
    PlaceStroked(pts, norm, breaks, |breaks|);
  }

  lemma DashLost(pts: seq<PathPoint>, d: seq<real>, off: real, k: nat, sw: real, norm: (real, real) -> real,
                 breaks: seq<Break>, i: nat)
    requires |d| > 0 && Pattern(d) && sw > 0.0 && off >= 0.0 && Skipped(d, off, k) && Euclidean(norm) && IsNorm(norm)
    requires pts != [] && Within(pts, breaks) && BreaksOk(pts, norm, breaks, d, off, k, sw)
    requires Length(pts, norm, |pts| - 1) > 0.0
    requires Even(k) && i < |breaks| && Boundary(d, off, k, sw, i) < Length(pts, norm, |pts| - 1)
    requires Even(i) && 0.0 < PolyLength(norm, FullPiece(pts, breaks, i)) < DIST_TOL && !HasVertex(breaks, i)
    ensures !StrokesAreDashes(pts, norm, d, off, k, sw, breaks)
  {
    hide Stroked, HasVertex, Within, BreaksOk, Pattern, Skipped, Euclidean, IsNorm, Even, DashedOn, PolyLength,
      FullPiece, Length, InPiece, Stretch, Boundary;
    var u := PieceHasPlace(pts, norm, breaks, d, off, k, sw, i);
    PieceOn(d, off, k, sw, i, u);
    PlaceStroked(pts, norm, breaks, i);
  }

  /** A line of length one, and the cut behind its first dash. */
  const UNIT_LINE := [PathPoint(Pt(0.0, 0.0), false), PathPoint(Pt(1.0, 0.0), false)]
  const FIRST_CUT := [Break(1, 0.005)]

  predicate ShortPattern(d: seq<real>) {
    d == [0.005, 1.0]
  }

  lemma ShortPatternSums(d: seq<real>)
    requires ShortPattern(d)
    ensures |d| == 2 && Pattern(d) && CycleLength(d) == 1.005
    ensures Prefix(d, 0) == 0.0 && Prefix(d, 1) == 0.005 && Prefix(d, 2) == 1.005
  {
    assert Slot(0, 2) == 0 && Slot(1, 2) == 1;
    assert Prefix(d, 1) == 0.005;
  }

  lemma UnitNorm(norm: (real, real) -> real, x: real)
    requires Euclidean(norm) && x >= 0.0
    ensures norm(x, 0.0) == x
  {
    var n := norm(x, 0.0);
    assert n >= 0.0 && n * n == SquaredLength(x, 0.0);
    SameRoot(n, x);
  }

  lemma UnitLength(norm: (real, real) -> real)
    requires Euclidean(norm)
    ensures |UNIT_LINE| == 2 && Seg(UNIT_LINE, norm, 1) == 1.0
    ensures Length(UNIT_LINE, norm, 0) == 0.0 && Length(UNIT_LINE, norm, 1) == 1.0
  {
    UnitNorm(norm, 1.0);
    assert Seg(UNIT_LINE, norm, 1) == 1.0;
  }

  lemma CutInPlace(norm: (real, real) -> real, d: seq<real>)
    requires Euclidean(norm) && ShortPattern(d)
    ensures |d| > 0 && Within(UNIT_LINE, FIRST_CUT) && BreaksOk(UNIT_LINE, norm, FIRST_CUT, d, 0.0, 0, 1.0)
    ensures Boundary(d, 0.0, 0, 1.0, 0) == 0.005 && Boundary(d, 0.0, 0, 1.0, 1) == 1.005
  {
    ShortPatternSums(d);
    UnitLength(norm);
    hide Prefix, Euclidean, Length, Seg, ShortPattern;
    assert BreakAt(UNIT_LINE, norm, FIRST_CUT[0], 0.005);
  }

  /** A first cut that is near to the start of the path leaves nothing of the first piece. */
  lemma ComesDown(pts: seq<PathPoint>, breaks: seq<Break>)
    requires Within(pts, breaks) && |breaks| == 1 && breaks[0].seg == 1 && Near(pts[0].pt, Where(pts, breaks[0]))
    ensures |Piece(pts, breaks, 0)| <= 1 && !HasVertex(breaks, 0) && Strokes(pts, breaks, 1) == []
  {
    hide Near, Where;
    var q := [StartOf(pts, breaks, 0)] + pts[1..1];
    assert q == [pts[0]];
    PieceSize(q, Where(pts, breaks[0]));
    hide AddPoint, Within;
    assert Strokes(pts, breaks, 0) == [];
  }

  lemma FirstComesDown()
    requires Within(UNIT_LINE, FIRST_CUT)
    ensures !HasVertex(FIRST_CUT, 0) && Strokes(UNIT_LINE, FIRST_CUT, 1) == []
  {
    assert Where(UNIT_LINE, FIRST_CUT[0]) == Pt(0.005, 0.0);
    CutIsNear();
    hide Near, Where, Within, HasVertex, Strokes;
    ComesDown(UNIT_LINE, FIRST_CUT);
  }

  lemma CutIsNear()
    ensures Near(Pt(0.0, 0.0), Pt(0.005, 0.0))
  {
  }

  lemma NothingCut(norm: (real, real) -> real, d: seq<real>)
    requires Euclidean(norm) && ShortPattern(d)
    ensures |d| > 0 && CutBy(UNIT_LINE, d, 0.0, 1.0, norm, [], FIRST_CUT, 0.0, 0)
  {
    ShortPatternSums(d);
    UnitLength(norm);
    CutInPlace(norm, d);
    FirstComesDown();
    assert Reduced(d, 0.0, 0.0) by {
      assert 0.0 == 0.0 - Whole(0, CycleLength(d));
    }
    hide Pattern, Prefix, Euclidean, Length, Seg, BreaksOk, Within, Reduced, Boundary, CycleLength, Piece, Strokes,
      LastPiece;
  }

  lemma FirstPlace(norm: (real, real) -> real, d: seq<real>)
    requires Euclidean(norm) && ShortPattern(d)
    ensures |d| > 0 && OnPath(UNIT_LINE, norm, d, 0.0, 0, 1.0, 1, 0, 0.0025) && DashedOn(d, 0.0025)
  {
    ShortPatternSums(d);
    UnitLength(norm);
    CutInPlace(norm, d);
    hide Prefix, Euclidean, Length, Seg, BreaksOk, Boundary;
    assert Even(0) && InEntry(d, 0.0025, 0);
  }

  lemma FirstLength(norm: (real, real) -> real, d: seq<real>)
    requires Euclidean(norm) && ShortPattern(d)
    ensures Within(UNIT_LINE, FIRST_CUT) && PolyLength(norm, FullPiece(UNIT_LINE, FIRST_CUT, 0)) == 0.005
  {
    ShortPatternSums(d);
    CutInPlace(norm, d);
    EuclideanIsNorm(norm);
    assert Skipped(d, 0.0, 0);
    hide Prefix, Euclidean, IsNorm, BreaksOk, Boundary, Within, PolyLength, FullPiece, Pattern, Skipped;
    PieceLengthIs(UNIT_LINE, norm, FIRST_CUT, d, 0.0, 0, 1.0, 0);
  }

  /** The dashes "0.005 1" on a line of length one: the dash at its beginning comes down to a single point, and so
      nothing at all is stroked. */
  lemma ShortDashLost(norm: (real, real) -> real, d: seq<real>)
    requires Euclidean(norm) && ShortPattern(d)
    ensures |d| > 0 && CutBy(UNIT_LINE, d, 0.0, 1.0, norm, [], FIRST_CUT, 0.0, 0)
    ensures Even(0) && OnPath(UNIT_LINE, norm, d, 0.0, 0, 1.0, 1, 0, 0.0025) && DashedOn(d, 0.0025)
    ensures !DashesStay(UNIT_LINE, norm, FIRST_CUT)
  {
    NothingCut(norm, d);
    FirstPlace(norm, d);
    FirstLength(norm, d);
    FirstComesDown();
    hide Euclidean, CutBy, OnPath, DashedOn, HasVertex, PolyLength, FullPiece, Within;
    assert Even(0);
  }
}
