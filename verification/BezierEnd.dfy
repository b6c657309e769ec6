/** When the recursion of `nsvg__flattenCubicBez` emits the end point of a curve: the pieces on its right-hand side
    must become flat within ten halvings, which large or degenerate curves do not. */
module BezierEnd {
  import opened Edges
  import opened Bezier

  /** The part of the curve that is left in front of its end after `k` halvings. */
  function RightHalves(c: Cubic, k: nat): Cubic
    decreases k
  {
    if k == 0 then c else RightHalves(RightHalf(c), k - 1)
  }

  predicate FlatAfter(c: Cubic, k: nat) {
    Flat(RightHalves(c, k))
  }

  lemma FlatAfterMore(c: Cubic, k: nat)
    ensures FlatAfter(c, 0) <==> Flat(c)
    ensures k > 0 ==> (FlatAfter(c, k) <==> FlatAfter(RightHalf(c), k - 1))
  {
    hide Flat, RightHalf;
  }

  lemma {:induction false} EndSettlesIff(c: Cubic, level: nat)
    requires level <= MAX_LEVEL + 1
    ensures EndSettles(c, level) <==> exists k: nat :: k <= MAX_LEVEL - level && FlatAfter(c, k)
    decreases MAX_LEVEL + 1 - level
  {
    hide Flat, RightHalf, FlatAfter;
    FlatAfterMore(c, 0);
    if level <= MAX_LEVEL {
      EndSettlesIff(RightHalf(c), level + 1);
      if EndSettles(c, level) && !Flat(c) {
        var k: nat :| k <= MAX_LEVEL - (level + 1) && FlatAfter(RightHalf(c), k);
        FlatAfterMore(c, k + 1);
        assert FlatAfter(c, k + 1);
      }
      if k: nat :| k <= MAX_LEVEL - level && FlatAfter(c, k) {
        FlatAfterMore(c, k);
        assert k > 0 ==> FlatAfter(RightHalf(c), k - 1);
      }
    }
  }

  /** The end of the curve is emitted if and only if within ten halvings the part in front of it becomes flat. */
  lemma EndEmittedWhen(c: Cubic, corner: bool)
    ensures var ls := Leaves(c, 0, corner, 0, 1024);
            (ls != [] && ls[|ls| - 1].at + ls[|ls| - 1].width == 1024)
            <==> exists k: nat :: k <= MAX_LEVEL && FlatAfter(c, k)
  {
    hide Eval, FlatAfter, PieceOf, Leaves, EndSettles;
    WholePiece(c);
    EndEmittedIff(c, 0, corner, 0, c);
    EndSettlesIff(c, 0);
  }

  function Power(base: real, n: nat): real {
    if n == 0 then 1.0 else base * Power(base, n - 1)
  }

  /** A curve that arrives at the origin from the side. */
  function Arriving(a: real, b: real, c: real): Cubic {
    Cubic(Pt(a, b), Pt(0.0, c), Pt(0.0, 0.0), Pt(0.0, 0.0))
  }

  lemma ArrivingHalf(a: real, b: real, c: real)
    ensures RightHalf(Arriving(a, b, c)) == Arriving(a / 8.0, (b + 3.0 * c) / 8.0, c / 4.0)
  {
  }

  lemma ArrivingNotFlat(a: real, b: real, c: real)
    requires a >= 2.0 && c >= 1.0 && 0.0 <= b <= 3.0 * c
    ensures !Flat(Arriving(a, b, c))
  {
    var f := Arriving(a, b, c);
    ArrivingOffChord(a, b, c);
    SteepProduct(a, b, c);
    hide OffChord, ChordSquared;
  }

  lemma ArrivingOffChord(a: real, b: real, c: real)
    requires a >= 0.0 && c >= 0.0
    ensures var f := Arriving(a, b, c);
            && Abs(OffChord(f, f.p2)) == c * a && Abs(OffChord(f, f.p3)) == 0.0 && ChordSquared(f) == a * a + b * b
  {
    ProductSign(c, a);
    assert -c * -a == c * a;
    assert -a * -a == a * a && -b * -b == b * b;
  }

  lemma SteepProduct(a: real, b: real, c: real)
    requires a >= 2.0 && c >= 1.0 && 0.0 <= b <= 3.0 * c
    ensures c * a * (c * a) >= 0.25 * (a * a + b * b)
  {
    SquareMonotone(b, 3.0 * c);
    SquareMonotone(2.0 * c, c * a) by {
      ProductSign(c, a - 2.0);
    }
    SquareMonotone(a, c * a) by {
      ProductSign(c - 1.0, a);
    }
  }

  lemma {:induction false} NeverFlatEnough(a: real, b: real, c: real, n: nat)
    requires n <= MAX_LEVEL && a >= 2.0 * Power(8.0, n) && c >= Power(4.0, n) && 0.0 <= b <= 3.0 * c
    ensures !EndSettles(Arriving(a, b, c), MAX_LEVEL - n)
    decreases n
  {
    PowerAtLeastOne(8.0, n);
    PowerAtLeastOne(4.0, n);
    ArrivingNotFlat(a, b, c);
    hide Flat;
    if n > 0 {
      ArrivingHalf(a, b, c);
      hide RightHalf;
      NeverFlatEnough(a / 8.0, (b + 3.0 * c) / 8.0, c / 4.0, n - 1);
    }
  }

  lemma {:induction false} PowerAtLeastOne(base: real, n: nat)
    requires base >= 1.0
    ensures Power(base, n) >= 1.0
  {
    if n > 0 {
      PowerAtLeastOne(base, n - 1);
      ProductSign(base - 1.0, Power(base, n - 1));
    }
  }

  lemma TenPowers()
    ensures Power(8.0, 10) == 1073741824.0 && Power(4.0, 10) == 1048576.0
  {
    assert Power(8.0, 5) == 32768.0 && Power(4.0, 5) == 1024.0;
  }

  /** Two billion units away, control point a million units above: the end point of the curve is never emitted. */
  lemma EndCanBeMissing(corner: bool)
    ensures var c := Cubic(Pt(2147483648.0, 0.0), Pt(0.0, 1048576.0), Pt(0.0, 0.0), Pt(0.0, 0.0));
            var ls := Leaves(c, 0, corner, 0, 1024);
            !(ls != [] && ls[|ls| - 1].at + ls[|ls| - 1].width == 1024)
  {
    hide Eval, Flat, PieceOf, Leaves, EndSettles;
    var c := Arriving(2147483648.0, 0.0, 1048576.0);
    TenPowers();
    NeverFlatEnough(2147483648.0, 0.0, 1048576.0, 10);
    WholePiece(c);
    EndEmittedIff(c, 0, corner, 0, c);
  }

  /** A curve of four equal points emits nothing at all: its pieces have no length and so are never flat. */
  lemma {:induction false} PointHasNoLeaf(c: Cubic, level: nat, corner: bool, at: nat, width: nat)
    requires level <= MAX_LEVEL + 1 && c.p1 == c.p2 == c.p3 == c.p4
    ensures Leaves(c, level, corner, at, width) == []
    decreases MAX_LEVEL + 1 - level
  {
    hide Flat, LeftHalf, RightHalf, Leaves;
    if level > MAX_LEVEL {
      LeavesEnd(c, level, corner, at, width);
    } else {
      PointNotFlat(c);
      HalvesOfPoint(c);
      LeavesUnfold(c, level, corner, at, width);
      PointHasNoLeaf(LeftHalf(c), level + 1, false, at, width / 2);
      PointHasNoLeaf(RightHalf(c), level + 1, corner, at + width / 2, width / 2);
    }
  }

  lemma HalvesOfPoint(c: Cubic)
    requires c.p1 == c.p2 == c.p3 == c.p4
    ensures LeftHalf(c) == c && RightHalf(c) == c
  {
  }

  lemma PointNotFlat(c: Cubic)
    requires c.p1 == c.p2 == c.p3 == c.p4
    ensures !Flat(c)
  {
  }
}
