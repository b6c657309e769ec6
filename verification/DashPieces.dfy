/** How long the pieces are that the dash walk cuts a path into: their lengths are those of the pattern's entries and
    add up to that of the path, and joining near points at a cut loses next to nothing. */
module DashPieces {
  import opened Bezier
  import opened Edges
  import opened Flatten
  import opened Dashes
  import opened DashWalk

  /** Length of the line through the points of a list. */
  function PolyLength(norm: (real, real) -> real, q: seq<PathPoint>): real {
    if |q| <= 1 then 0.0
    else PolyLength(norm, q[..|q| - 1]) + Distance(norm, q[|q| - 2].pt, q[|q| - 1].pt)
  }

  lemma PolyLengthMore(norm: (real, real) -> real, q: seq<PathPoint>, p: PathPoint)
    requires q != []
    ensures PolyLength(norm, q + [p]) == PolyLength(norm, q) + Distance(norm, q[|q| - 1].pt, p.pt)
  {
    hide Distance;
    assert (q + [p])[..|q|] == q;
    assert (q + [p])[|q| - 1] == q[|q| - 1];
  }

  lemma SegIsDistance(pts: seq<PathPoint>, norm: (real, real) -> real, j: nat)
    requires 1 <= j < |pts|
    ensures Seg(pts, norm, j) == Distance(norm, pts[j - 1].pt, pts[j].pt)
  {
  }

  /** From `start`, which lies on the segment to point `from`, along the path to point `end - 1`. */
  lemma {:induction false} RunLength(pts: seq<PathPoint>, norm: (real, real) -> real, start: PathPoint, t: real,
                                     here: real, from: nat, end: nat)
    requires IsNorm(norm) && At(pts, norm, from, t, start.pt, here) && from < end <= |pts|
    ensures PolyLength(norm, [start] + pts[from..end]) == Length(pts, norm, end - 1) - here
    decreases end
  {
    hide At, IsNorm, PolyLength, Distance, Seg;
    var q := [start] + pts[from..end - 1];
    assert [start] + pts[from..end] == q + [pts[end - 1]];
    PolyLengthMore(norm, q, pts[end - 1]);
    if from + 1 == end {
      assert q == [start];
      PolyOfOne(norm, start);
      ToSegmentEnd(pts, norm, from, t, start.pt, here);
    } else {
      RunLength(pts, norm, start, t, here, from, end - 1);
      SegIsDistance(pts, norm, end - 1);
      assert q[|q| - 1] == pts[end - 2];
    }
  }

  lemma PolyOfOne(norm: (real, real) -> real, p: PathPoint)
    ensures PolyLength(norm, [p]) == 0.0
  {
  }

  /** Parameter and distance of the start of piece `i`. */
  function StartParam(breaks: seq<Break>, i: nat): real
    requires i <= |breaks|
  {
    if i == 0 then 0.0 else breaks[i - 1].t
  }

  lemma PieceStarts(pts: seq<PathPoint>, norm: (real, real) -> real, breaks: seq<Break>, d: seq<real>, off: real,
                    k: nat, sw: real, i: nat)
    requires |d| > 0 && Within(pts, breaks) && BreaksOk(pts, norm, breaks, d, off, k, sw) && i <= |breaks|
    ensures At(pts, norm, From(breaks, i), StartParam(breaks, i), StartOf(pts, breaks, i).pt,
               LastBoundary(d, off, k, sw, i))
  {
    hide Boundary, Length, Seg, Along, Stretch;
    if i == 0 {
      AtStart(pts, norm, 1);
      LengthStart(pts, norm);
    } else {
      assert BreakAt(pts, norm, breaks[i - 1], Boundary(d, off, k, sw, i - 1));
    }
  }

  lemma LengthStart(pts: seq<PathPoint>, norm: (real, real) -> real)
    requires pts != []
    ensures Length(pts, norm, 0) == 0.0
  {
  }

  /** A piece with both its ends. */
  function FullPiece(pts: seq<PathPoint>, breaks: seq<Break>, i: nat): seq<PathPoint>
    requires Within(pts, breaks) && i <= |breaks|
  {
    if i == |breaks| then LastPiece(pts, breaks)
    else [StartOf(pts, breaks, i)] + pts[From(breaks, i)..breaks[i].seg] + [PathPoint(Where(pts, breaks[i]), true)]
  }

  /** Two places on one segment. */
  lemma OnOneSegment(pts: seq<PathPoint>, norm: (real, real) -> real, j: nat, t: real, p: Pt, here: real, t': real,
                     p': Pt, there: real)
    requires IsNorm(norm) && j < |pts| && At(pts, norm, j, t, p, here) && At(pts, norm, j, t', p', there) && t <= t'
    ensures Distance(norm, p, p') == there - here
  {
    hide Stretch, IsNorm, Length;
    var dx, dy := pts[j].pt.x - pts[j - 1].pt.x, pts[j].pt.y - pts[j - 1].pt.y;
    StretchBetween(t, t', dx);
    StretchBetween(t, t', dy);
    StretchBetween(t, t', norm(dx, dy));
    NormStretch(norm, t' - t, dx, dy);
  }

  lemma NormStretch(norm: (real, real) -> real, k: real, x: real, y: real)
    requires IsNorm(norm) && k >= 0.0
    ensures norm(Stretch(k, x), Stretch(k, y)) == Stretch(k, norm(x, y))
  {
    hide Stretch;
  }

  lemma StretchBetween(t: real, t': real, x: real)
    ensures Stretch(t', x) - Stretch(t, x) == Stretch(t' - t, x)
  {
  }

  lemma StretchParam(t: real, t': real, x: real)
    requires x > 0.0 && Stretch(t, x) <= Stretch(t', x)
    ensures t <= t'
  {
    if t > t' {
      var p := PositiveProduct(t - t', x);
      StretchBetween(t', t, x);
    }
  }

  /** Cuts on the same segment are in order on it. */
  lemma CutsInOrder(pts: seq<PathPoint>, norm: (real, real) -> real, breaks: seq<Break>, d: seq<real>, off: real,
                    k: nat, sw: real, i: nat)
    requires Pattern(d) && sw > 0.0 && Skipped(d, off, k) && Within(pts, breaks)
    requires BreaksOk(pts, norm, breaks, d, off, k, sw) && i < |breaks| && From(breaks, i) == breaks[i].seg
    ensures StartParam(breaks, i) <= breaks[i].t
  {
    hide Boundary, Seg, Length, Stretch, Pattern;
    assert BreakAt(pts, norm, breaks[i], Boundary(d, off, k, sw, i));
    if i > 0 {
      assert BreakAt(pts, norm, breaks[i - 1], Boundary(d, off, k, sw, i - 1));
      BoundaryGrows(d, off, k, sw, i - 1, i);
      StretchParam(breaks[i - 1].t, breaks[i].t, Seg(pts, norm, breaks[i].seg));
    }
  }

  lemma AtRange(pts: seq<PathPoint>, norm: (real, real) -> real, j: nat, t: real, cur: Pt, here: real)
    requires At(pts, norm, j, t, cur, here)
    ensures 1 <= j <= |pts| && t >= 0.0 && (j == |pts| ==> here == Length(pts, norm, |pts| - 1))
  {
    hide Length, Along, Stretch, Seg;
  }

  /** A piece that ends on the segment it starts on, and one that goes further. */
  lemma ShortLength(pts: seq<PathPoint>, norm: (real, real) -> real, start: PathPoint, t: real, here: real, j: nat,
                    cut: PathPoint, t': real, there: real)
    requires IsNorm(norm) && j < |pts| && t <= t'
    requires At(pts, norm, j, t, start.pt, here) && At(pts, norm, j, t', cut.pt, there)
    ensures PolyLength(norm, [start] + pts[j..j] + [cut]) == there - here
  {
    OnOneSegment(pts, norm, j, t, start.pt, here, t', cut.pt, there);
    PolyLengthMore(norm, [start], cut);
    PolyOfOne(norm, start);
    hide At, IsNorm, PolyLength, Distance;
    assert [start] + pts[j..j] == [start];
  }

  lemma LongLength(pts: seq<PathPoint>, norm: (real, real) -> real, start: PathPoint, t: real, here: real, from: nat,
                   j: nat, cut: PathPoint, t': real, there: real)
    requires IsNorm(norm) && from < j < |pts|
    requires At(pts, norm, from, t, start.pt, here) && At(pts, norm, j, t', cut.pt, there)
    ensures PolyLength(norm, [start] + pts[from..j] + [cut]) == there - here
  {
    hide At, IsNorm, PolyLength, Distance, Length;
    AtRange(pts, norm, j, t', cut.pt, there);
    RunLength(pts, norm, start, t, here, from, j);
    AtStart(pts, norm, j);
    OnOneSegment(pts, norm, j, 0.0, pts[j - 1].pt, Length(pts, norm, j - 1), t', cut.pt, there);
    var q := [start] + pts[from..j];
    PolyLengthMore(norm, q, cut);
    assert q[|q| - 1] == pts[j - 1];
  }

  lemma CutAt(pts: seq<PathPoint>, norm: (real, real) -> real, breaks: seq<Break>, d: seq<real>, off: real, k: nat,
              sw: real, i: nat)
    requires |d| > 0 && Within(pts, breaks) && BreaksOk(pts, norm, breaks, d, off, k, sw) && i < |breaks|
    ensures At(pts, norm, breaks[i].seg, breaks[i].t, Where(pts, breaks[i]), Boundary(d, off, k, sw, i))
  {
    hide Boundary, Length, Seg, Along, Stretch;
    assert BreakAt(pts, norm, breaks[i], Boundary(d, off, k, sw, i));
  }

  lemma FullPieceIs(pts: seq<PathPoint>, breaks: seq<Break>, i: nat)
    requires Within(pts, breaks) && i < |breaks|
    ensures 1 <= From(breaks, i) <= breaks[i].seg < |pts| && (i > 0 ==> 1 <= breaks[i - 1].seg < |pts|)
    ensures FullPiece(pts, breaks, i)
         == [StartOf(pts, breaks, i)] + pts[From(breaks, i)..breaks[i].seg] + [PathPoint(Where(pts, breaks[i]), true)]
  {
    hide Where, StartOf;
  }

  lemma LastPieceIs(pts: seq<PathPoint>, breaks: seq<Break>)
    requires Within(pts, breaks)
    ensures 1 <= From(breaks, |breaks|) <= |pts| && (breaks != [] ==> 1 <= breaks[|breaks| - 1].seg < |pts|)
    ensures LastPiece(pts, breaks) == [StartOf(pts, breaks, |breaks|)] + pts[From(breaks, |breaks|)..|pts|]
  {
    hide Where, StartOf;
  }

  /** The length of a piece between two cuts is what the pattern says. */
  lemma PieceLengthIs(pts: seq<PathPoint>, norm: (real, real) -> real, breaks: seq<Break>, d: seq<real>, off: real,
                      k: nat, sw: real, i: nat)
    requires |d| > 0 && Pattern(d) && sw > 0.0 && Skipped(d, off, k) && IsNorm(norm) && Within(pts, breaks)
    requires BreaksOk(pts, norm, breaks, d, off, k, sw) && i < |breaks|
    ensures PolyLength(norm, FullPiece(pts, breaks, i)) == Boundary(d, off, k, sw, i) - LastBoundary(d, off, k, sw, i)
  {
    hide *;
    FullPieceIs(pts, breaks, i);
    PieceStarts(pts, norm, breaks, d, off, k, sw, i);
    CutAt(pts, norm, breaks, d, off, k, sw, i);
    var b, from, start := breaks[i], From(breaks, i), StartOf(pts, breaks, i);
    var here, there := LastBoundary(d, off, k, sw, i), Boundary(d, off, k, sw, i);
    var cut := PathPoint(Where(pts, b), true);
    if from == b.seg {
      CutsInOrder(pts, norm, breaks, d, off, k, sw, i);
      ShortLength(pts, norm, start, StartParam(breaks, i), here, from, cut, b.t, there);
    } else {
      LongLength(pts, norm, start, StartParam(breaks, i), here, from, b.seg, cut, b.t, there);
    }
  }

  lemma LastPieceLengthIs(pts: seq<PathPoint>, norm: (real, real) -> real, breaks: seq<Break>, d: seq<real>, off: real,
                          k: nat, sw: real)
    requires |d| > 0 && IsNorm(norm) && Within(pts, breaks) && BreaksOk(pts, norm, breaks, d, off, k, sw)
    ensures PolyLength(norm, LastPiece(pts, breaks))
         == Length(pts, norm, |pts| - 1) - LastBoundary(d, off, k, sw, |breaks|)
  {
    hide *;
    var m := |breaks|;
    LastPieceIs(pts, breaks);
    var from, start := From(breaks, m), StartOf(pts, breaks, m);
    var t, here := StartParam(breaks, m), LastBoundary(d, off, k, sw, m);
    PieceStarts(pts, norm, breaks, d, off, k, sw, m);
    AtRange(pts, norm, from, t, start.pt, here);
    if from < |pts| {
      RunLength(pts, norm, start, t, here, from, |pts|);
    } else {
      assert [start] + pts[from..|pts|] == [start];
      PolyOfOne(norm, start);
    }
  }

  function SumOfPieces(pts: seq<PathPoint>, norm: (real, real) -> real, breaks: seq<Break>, n: nat): real
    requires Within(pts, breaks) && n <= |breaks| + 1
  {
    if n == 0 then 0.0
    else SumOfPieces(pts, norm, breaks, n - 1) + PolyLength(norm, FullPiece(pts, breaks, n - 1))
  }

  lemma {:induction false} SumOfFirst(pts: seq<PathPoint>, norm: (real, real) -> real, breaks: seq<Break>, d: seq<real>,
                                      off: real, k: nat, sw: real, n: nat)
    requires |d| > 0 && Pattern(d) && sw > 0.0 && Skipped(d, off, k) && IsNorm(norm) && Within(pts, breaks)
    requires BreaksOk(pts, norm, breaks, d, off, k, sw) && n <= |breaks|
    ensures SumOfPieces(pts, norm, breaks, n) == LastBoundary(d, off, k, sw, n)
  {
    hide Boundary, Pattern, Skipped, IsNorm, Within, BreaksOk, FullPiece, PolyLength;
    if n > 0 {
      SumOfFirst(pts, norm, breaks, d, off, k, sw, n - 1);
      PieceLengthIs(pts, norm, breaks, d, off, k, sw, n - 1);
    }
  }

  /** The pieces that the walk cuts are together as long as the path. */
  lemma PiecesFillPath(pts: seq<PathPoint>, norm: (real, real) -> real, breaks: seq<Break>, d: seq<real>, off: real,
                       k: nat, sw: real)
    requires |d| > 0 && Pattern(d) && sw > 0.0 && Skipped(d, off, k) && IsNorm(norm) && Within(pts, breaks)
    requires BreaksOk(pts, norm, breaks, d, off, k, sw)
    ensures SumOfPieces(pts, norm, breaks, |breaks| + 1) == Length(pts, norm, |pts| - 1)
  {
    SumOfFirst(pts, norm, breaks, d, off, k, sw, |breaks|);
    assert |d| > 0;
    LastPieceLengthIs(pts, norm, breaks, d, off, k, sw);
    hide Boundary, Pattern, Skipped, IsNorm, BreaksOk, LastPiece, PolyLength;
  }

  /** A dash or gap between two cuts is as long as its entry of the pattern, in stroke widths; the first one is
      shortened by the offset. */
  lemma EntryLength(pts: seq<PathPoint>, norm: (real, real) -> real, breaks: seq<Break>, d: seq<real>, off: real,
                    k: nat, sw: real, i: nat)
    requires |d| > 0 && Pattern(d) && sw > 0.0 && Skipped(d, off, k) && IsNorm(norm) && Within(pts, breaks)
    requires BreaksOk(pts, norm, breaks, d, off, k, sw) && i < |breaks|
    ensures PolyLength(norm, FullPiece(pts, breaks, i))
         == Stretch(sw, d[Slot(k + i, |d|)] - if i == 0 then off - Prefix(d, k) else 0.0)
  {
    hide Boundary, Pattern, Skipped, IsNorm, BreaksOk, FullPiece, PolyLength, Slot, Prefix, Stretch, Within;
    PieceLengthIs(pts, norm, breaks, d, off, k, sw, i);
    if i == 0 {
      BoundaryFirst(d, off, k, sw);
    } else {
      BoundaryStep(d, off, k, sw, i - 1);
    }
  }

  /** What `sqrtf` is for. */
  ghost predicate Euclidean(norm: (real, real) -> real) {
    forall x, y :: norm(x, y) >= 0.0 && norm(x, y) * norm(x, y) == SquaredLength(x, y)
  }

  lemma RootBelow(r: real, s: real)
    requires s >= 0.0 && r * r < s * s
    ensures r < s
  {
    if r >= s {
      ProductSign(r - s, r + s);
    }
  }

  /** It is a norm as the walk needs it. */
  lemma EuclideanIsNorm(norm: (real, real) -> real)
    requires Euclidean(norm)
    ensures IsNorm(norm)
  {
    forall k: real, x: real, y: real | k >= 0.0
      ensures norm(Stretch(k, x), Stretch(k, y)) == Stretch(k, norm(x, y))
    {
      var n, n' := norm(x, y), norm(Stretch(k, x), Stretch(k, y));
      assert n >= 0.0 && n * n == SquaredLength(x, y);
      assert n' >= 0.0 && n' * n' == SquaredLength(Stretch(k, x), Stretch(k, y));
      StretchSquared(k, x, y, n);
      ProductSign(k, n);
      SameRoot(n', Stretch(k, n));
    }
  }

  lemma StretchSquared(k: real, x: real, y: real, n: real)
    requires n * n == SquaredLength(x, y)
    ensures Stretch(k, n) * Stretch(k, n) == SquaredLength(Stretch(k, x), Stretch(k, y))
  {
    SquareOfStretch(k, n);
    SquareOfStretch(k, x);
    SquareOfStretch(k, y);
    assert k * k * (x * x + y * y) == k * k * (x * x) + k * k * (y * y);
  }

  lemma SquareOfStretch(k: real, x: real)
    ensures Stretch(k, x) * Stretch(k, x) == k * k * (x * x)
  {
  }

  lemma SameRoot(a: real, b: real)
    requires a >= 0.0 && b >= 0.0 && a * a == b * b
    ensures a == b
  {
    var p, q;
    if a < b {
      p := PositiveProduct(b - a, b + a);
    } else if b < a {
      q := PositiveProduct(a - b, a + b);
    }
  }

  lemma NearDistance(norm: (real, real) -> real, a: Pt, b: Pt)
    requires Euclidean(norm) && Near(a, b)
    ensures 0.0 <= Distance(norm, a, b) < DIST_TOL
  {
    var x, y := b.x - a.x, b.y - a.y;
    assert norm(x, y) >= 0.0 && norm(x, y) * norm(x, y) == SquaredLength(x, y);
    RootBelow(norm(x, y), DIST_TOL);
  }

  lemma FlagsDoNotCount(norm: (real, real) -> real, q: seq<PathPoint>, p: PathPoint)
    requires q != [] && p.pt == q[|q| - 1].pt
    ensures PolyLength(norm, q[..|q| - 1] + [p]) == PolyLength(norm, q)
  {
    hide Distance;
    assert (q[..|q| - 1] + [p])[..|q| - 1] == q[..|q| - 1];
    if |q| > 1 {
      assert (q[..|q| - 1] + [p])[|q| - 2] == q[|q| - 2];
    }
  }

  /** Dropping an end that is near to the point before it shortens a list by less than the tolerance. */
  lemma AddPointLoss(norm: (real, real) -> real, q: seq<PathPoint>, p: Pt, corner: bool)
    requires Euclidean(norm) && q != []
    ensures 0.0 <= PolyLength(norm, q + [PathPoint(p, corner)]) - PolyLength(norm, AddPoint(q, p, corner)) < DIST_TOL
  {
    var last := q[|q| - 1];
    PolyLengthMore(norm, q, PathPoint(p, corner));
    if Near(last.pt, p) {
      NearDistance(norm, last.pt, p);
      FlagsDoNotCount(norm, q, last.(corner := last.corner || corner));
      hide Near, PolyLength, Distance, Euclidean;
    } else {
      hide Near, PolyLength, Distance, Euclidean;
    }
  }

  /** The point list given to the stroker falls short of the piece by less than the tolerance. */
  lemma StrokedLength(pts: seq<PathPoint>, norm: (real, real) -> real, breaks: seq<Break>, i: nat)
    requires Euclidean(norm) && Within(pts, breaks) && i < |breaks|
    ensures 0.0 <= PolyLength(norm, FullPiece(pts, breaks, i)) - PolyLength(norm, Piece(pts, breaks, i)) < DIST_TOL
  {
    hide Euclidean, PolyLength, AddPoint, Where;
    AddPointLoss(norm, [StartOf(pts, breaks, i)] + pts[From(breaks, i)..breaks[i].seg], Where(pts, breaks[i]), true);
  }

  /** Position `u` of the pattern comes to lie strictly inside piece `i` of the path of the walk. */
  ghost predicate OnPath(pts: seq<PathPoint>, norm: (real, real) -> real, d: seq<real>, off: real, k: nat, sw: real,
                         m: nat, i: nat, u: real)
    requires |d| > 0 && pts != []
  {
    i <= m && InPiece(d, off, k, sw, i, u) && Stretch(sw, u - off) < Length(pts, norm, |pts| - 1)
  }

  lemma LastPlace(pts: seq<PathPoint>, d: seq<real>, off: real, k: nat, sw: real, norm: (real, real) -> real, m: nat)
    returns (u: real)
    requires pts != [] && |d| > 0 && sw > 0.0 && Length(pts, norm, |pts| - 1) > 0.0
    requires Boundary(d, off, k, sw, m) >= Length(pts, norm, |pts| - 1)
    requires m > 0 ==> Boundary(d, off, k, sw, m - 1) < Length(pts, norm, |pts| - 1)
    ensures OnPath(pts, norm, d, off, k, sw, m, m, u)
  {
    var x := (LastBoundary(d, off, k, sw, m) + Length(pts, norm, |pts| - 1)) / 2.0;
    u := off + x / sw;
    assert Stretch(sw, u - off) == x by {
      Undone(x, sw);
    }
    hide Boundary, Stretch;
  }

  lemma Undone(x: real, sw: real)
    requires sw > 0.0
    ensures Stretch(sw, x / sw) == x
  {
  }
}
