/** How far the curve is from the chord of an accepted piece, and not only from the line through it: that depends on
    whether the curve stays between the perpendiculars at the ends of the chord. */
module Chords {
  import opened Edges
  import opened Bezier

  function Dot(ax: real, ay: real, dx: real, dy: real): real {
    ax * dx + ay * dy
  }

  /** How far `p` is along the chord of `c`, times the length of the chord. */
  function Progress(c: Cubic, p: Pt): real {
    Dot(p.x - c.p1.x, p.y - c.p1.y, c.p4.x - c.p1.x, c.p4.y - c.p1.y)
  }

  /** `p` lies between the perpendiculars at the two ends of the chord. */
  predicate Beside(c: Cubic, p: Pt) {
    0.0 <= Progress(c, p) <= ChordSquared(c)
  }

  lemma DotSum(x: real, y: real, x': real, y': real, dx: real, dy: real)
    ensures Dot(x + x', y + y', dx, dy) == Dot(x, y, dx, dy) + Dot(x', y', dx, dy)
  {
  }

  lemma DotScaled(w: real, x: real, y: real, dx: real, dy: real)
    ensures Dot(w * x, w * y, dx, dy) == w * Dot(x, y, dx, dy)
  {
    Moved(w, x, dx);
    Moved(w, y, dy);
    assert w * (x * dx) + w * (y * dy) == w * (x * dx + y * dy);
  }

  lemma DotOfMean(w2: real, w3: real, w4: real, x2: real, y2: real, x3: real, y3: real, dx: real, dy: real)
    ensures Dot(w2 * x2 + w3 * x3 + w4 * dx, w2 * y2 + w3 * y3 + w4 * dy, dx, dy)
         == w2 * Dot(x2, y2, dx, dy) + w3 * Dot(x3, y3, dx, dy) + w4 * Dot(dx, dy, dx, dy)
  {
    hide Dot;
    DotSum(w2 * x2 + w3 * x3, w2 * y2 + w3 * y3, w4 * dx, w4 * dy, dx, dy);
    DotSum(w2 * x2, w2 * y2, w3 * x3, w3 * y3, dx, dy);
    DotScaled(w2, x2, y2, dx, dy);
    DotScaled(w3, x3, y3, dx, dy);
    DotScaled(w4, dx, dy, dx, dy);
  }

  lemma FromStart(w1: real, w2: real, w3: real, w4: real, a: real, b: real, c: real, d: real)
    requires w1 + w2 + w3 + w4 == 1.0
    ensures w1 * a + w2 * b + w3 * c + w4 * d - a == w2 * (b - a) + w3 * (c - a) + w4 * (d - a)
  {
    assert w1 * a == (1.0 - w2 - w3 - w4) * a;
  }

  lemma ProgressOfMean(w1: real, w2: real, w3: real, w4: real, c: Cubic, p: Pt)
    requires w1 + w2 + w3 + w4 == 1.0
    requires p.x == w1 * c.p1.x + w2 * c.p2.x + w3 * c.p3.x + w4 * c.p4.x
    requires p.y == w1 * c.p1.y + w2 * c.p2.y + w3 * c.p3.y + w4 * c.p4.y
    ensures Progress(c, p) == w2 * Progress(c, c.p2) + w3 * Progress(c, c.p3) + w4 * ChordSquared(c)
  {
    var dx, dy := c.p4.x - c.p1.x, c.p4.y - c.p1.y;
    FromStart(w1, w2, w3, w4, c.p1.x, c.p2.x, c.p3.x, c.p4.x);
    FromStart(w1, w2, w3, w4, c.p1.y, c.p2.y, c.p3.y, c.p4.y);
    DotOfMean(w2, w3, w4, c.p2.x - c.p1.x, c.p2.y - c.p1.y, c.p3.x - c.p1.x, c.p3.y - c.p1.y, dx, dy);
    DotSelf(dx, dy);
    hide Dot;
    assert p.x - c.p1.x == w2 * (c.p2.x - c.p1.x) + w3 * (c.p3.x - c.p1.x) + w4 * dx;
    assert p.y - c.p1.y == w2 * (c.p2.y - c.p1.y) + w3 * (c.p3.y - c.p1.y) + w4 * dy;
  }

  lemma DotSelf(dx: real, dy: real)
    ensures Dot(dx, dy, dx, dy) == SquaredLength(dx, dy)
  {
  }

  /** The progress of a curve point is the weighted mean of those of the control points and of the end. */
  lemma ProgressOfCurve(c: Cubic, t: real)
    requires 0.0 <= t <= 1.0
    ensures Progress(c, Eval(c, t)) == ControlWeight(t) * Progress(c, c.p2) + ControlWeight(1.0 - t) * Progress(c, c.p3)
                                       + EndWeight(1.0 - t) * ChordSquared(c)
  {
    hide Progress, ChordSquared, EndWeight, ControlWeight;
    Weights(t);
    ProgressOfMean(EndWeight(t), ControlWeight(t), ControlWeight(1.0 - t), EndWeight(1.0 - t), c, Eval(c, t));
  }

  /** A quadratic form in two variables. */
  function Form(p: real, q: real, r: real, u: real, t: real): real {
    p * (u * u) + q * (u * t) + r * (t * t)
  }

  lemma ProgressForm(a: real, b: real, l: real, t: real)
    ensures ControlWeight(t) * a + ControlWeight(1.0 - t) * b + EndWeight(1.0 - t) * l
         == t * Form(3.0 * a, 3.0 * b, l, 1.0 - t, t)
  {
    var u := 1.0 - t;
    assert ControlWeight(t) == 3.0 * (t * (u * u));
    assert ControlWeight(u) == 3.0 * (t * (u * t)) by {
      assert 1.0 - u == t;
    }
    assert EndWeight(u) == t * (t * t) by {
      assert 1.0 - u == t;
    }
    hide ControlWeight, EndWeight;
    Spread(t, u * u, u * t, t * t, a, b, l);
  }

  lemma Spread(t: real, x: real, y: real, z: real, a: real, b: real, l: real)
    ensures 3.0 * (t * x) * a + 3.0 * (t * y) * b + t * z * l == t * (3.0 * a * x + 3.0 * b * y + l * z)
  {
    assert 3.0 * (t * x) * a == t * (3.0 * a * x);
    assert 3.0 * (t * y) * b == t * (3.0 * b * y);
    assert t * z * l == t * (l * z);
  }

  /** Four times the last coefficient makes a form a sum of two squares. */
  lemma FormSquares(p: real, q: real, r: real, u: real, t: real)
    ensures 4.0 * r * Form(p, q, r, u, t)
         == (2.0 * r * t + q * u) * (2.0 * r * t + q * u) + (4.0 * p * r - q * q) * (u * u)
  {
    var x, y, z := u * u, u * t, t * t;
    assert (2.0 * r * t + q * u) * (2.0 * r * t + q * u) == 4.0 * r * r * z + 4.0 * r * q * y + q * q * x;
    assert 4.0 * r * (p * x + q * y + r * z) == 4.0 * p * r * x + 4.0 * r * q * y + 4.0 * r * r * z;
    assert (4.0 * p * r - q * q) * x == 4.0 * p * r * x - q * q * x;
  }

  /** The start side: the curve never goes back behind the start of its chord. `a` and `b` are the progress of the two
      control points and `l` the squared length of the chord. */
  predicate Forward(a: real, b: real, l: real) {
    a >= 0.0 && (b >= 0.0 || 3.0 * (b * b) <= 4.0 * (a * l))
  }

  lemma ForwardForm(a: real, b: real, l: real, u: real, t: real)
    requires l > 0.0 && u >= 0.0 && t >= 0.0 && Forward(a, b, l)
    ensures Form(3.0 * a, 3.0 * b, l, u, t) >= 0.0
  {
    var f := Form(3.0 * a, 3.0 * b, l, u, t);
    ProductSign(u, u);
    ProductSign(u, t);
    ProductSign(t, t);
    if b >= 0.0 {
      ProductSign(3.0 * a, u * u);
      ProductSign(3.0 * b, u * t);
      ProductSign(l, t * t);
    } else {
      FormSquares(3.0 * a, 3.0 * b, l, u, t);
      Discriminant(a, b, l);
      ProductSign(4.0 * (3.0 * a) * l - 3.0 * b * (3.0 * b), u * u);
      Squared(2.0 * l * t + 3.0 * b * u);
      hide Form;
      SignOf(4.0 * l, f);
    }
  }

  lemma Discriminant(a: real, b: real, l: real)
    ensures 4.0 * (3.0 * a) * l - 3.0 * b * (3.0 * b) == 3.0 * (4.0 * (a * l) - 3.0 * (b * b))
  {
  }

  lemma Squared(v: real)
    ensures v * v >= 0.0
  {
    if v >= 0.0 {
      ProductSign(v, v);
    } else {
      ProductSign(-v, -v);
    }
  }

  lemma SignOf(m: real, v: real)
    requires m > 0.0
    ensures m * v >= 0.0 <==> v >= 0.0
  {
    if v < 0.0 {
      var p := ProductBelow(m, -v);
    } else {
      ProductSign(m, v);
    }
  }

  /** Where the form is negative if the condition fails. */
  lemma BackwardAt(a: real, b: real, l: real) returns (t: real)
    requires l > 0.0 && !Forward(a, b, l)
    ensures 0.0 < t < 1.0 && Form(3.0 * a, 3.0 * b, l, 1.0 - t, t) < 0.0
  {
    if a < 0.0 {
      t := BackAtStart(a, b, l);
    } else {
      t := BackLater(a, b, l);
    }
  }

  lemma BackAtStart(a: real, b: real, l: real) returns (t: real)
    requires l > 0.0 && a < 0.0
    ensures 0.0 < t < 1.0 && Form(3.0 * a, 3.0 * b, l, 1.0 - t, t) < 0.0
  {
    var d := 3.0 * Abs(b) + l;
    t := SmallRatio(-a, d);
    var u := 1.0 - t;
    FormBelow(a, b, l, u, t);
  }

  lemma SmallRatio(a: real, d: real) returns (t: real)
    requires a > 0.0 && d > 0.0
    ensures 0.0 < t <= 0.5 && d * t <= 0.5 * a
  {
    t := a / (2.0 * (d + a));
    assert t * (2.0 * (d + a)) == a;
    var p := Factors(t, 2.0 * (d + a), a);
    var q := ProductBelow(t, d);
    var r := ProductBelow(t, a);
    assert 2.0 * (t * d) + 2.0 * (t * a) == a;
    if t > 0.5 {
      var e := ProductBelow(t - 0.5, a);
      assert (t - 0.5) * a == t * a - 0.5 * a;
    }
  }

  lemma Factors(t: real, m: real, a: real) returns (p: real)
    requires m > 0.0 && a > 0.0 && t * m == a
    ensures t > 0.0
  {
    p := a;
    if t <= 0.0 {
      ProductSign(-t, m);
    }
  }

  lemma FormBelow(a: real, b: real, l: real, u: real, t: real)
    requires a < 0.0 && l > 0.0 && 0.0 < t <= 0.5 && u == 1.0 - t && (3.0 * Abs(b) + l) * t <= -0.5 * a
    ensures Form(3.0 * a, 3.0 * b, l, u, t) < 0.0
  {
    ATerm(a, u);
    BTerm(b, u, t);
    LTerm(l, t);
    var e := Abs(b);
    hide Abs;
    Distributed(e, l, t);
    AddUp(a, 3.0 * a * (u * u), 3.0 * b * (u * t), l * (t * t), e * t, l * t);
  }

  lemma AddUp(a: real, x: real, y: real, z: real, et: real, lt: real)
    requires a < 0.0 && x <= 0.75 * a && y <= 3.0 * et && z <= lt && 3.0 * et + lt <= -0.5 * a
    ensures x + y + z < 0.0
  {
  }

  lemma ATerm(a: real, u: real)
    requires a < 0.0 && u >= 0.5
    ensures 3.0 * a * (u * u) <= 0.75 * a
  {
    ProductSign(u - 0.5, u + 0.5);
    ProductSign(-3.0 * a, u * u - 0.25);
  }

  lemma LTerm(l: real, t: real)
    requires l > 0.0 && 0.0 <= t <= 1.0
    ensures l * (t * t) <= l * t
  {
    ProductSign(t, 1.0 - t);
    ProductSign(l, t - t * t);
  }

  lemma Distributed(b: real, l: real, t: real)
    ensures (3.0 * b + l) * t == 3.0 * (b * t) + l * t
  {
  }

  lemma BTerm(b: real, u: real, t: real)
    requires 0.0 <= u <= 1.0 && t >= 0.0
    ensures 3.0 * b * (u * t) <= 3.0 * (Abs(b) * t)
  {
    ProductSign(u, t);
    ProductSign(1.0 - u, t);
    var e := Abs(b);
    ProductSign(e, t - u * t);
    ProductSign(e - b, u * t);
    assert 3.0 * b * (u * t) == 3.0 * (b * (u * t));
  }

  lemma BackLater(a: real, b: real, l: real) returns (t: real)
    requires l > 0.0 && b < 0.0 && 3.0 * (b * b) > 4.0 * (a * l)
    ensures 0.0 < t < 1.0 && Form(3.0 * a, 3.0 * b, l, 1.0 - t, t) < 0.0
  {
    var m := 2.0 * l - 3.0 * b;
    t := -3.0 * b / m;
    var u := 1.0 - t;
    assert t * m == -3.0 * b;
    var p := Factors(t, m, -3.0 * b);
    assert u * m == 2.0 * l by {
      assert (1.0 - t) * m == m - t * m;
    }
    p := Factors(u, m, 2.0 * l);
    assert 2.0 * l * t + 3.0 * b * u == 0.0 by {
      assert t * m == t * (2.0 * l) - t * (3.0 * b);
      assert (1.0 - t) * (3.0 * b) == 3.0 * b - t * (3.0 * b);
    }
    FormSquares(3.0 * a, 3.0 * b, l, u, t);
    Discriminant(a, b, l);
    var sq := ProductBelow(u, u);
    var low := ProductBelow(3.0 * (3.0 * (b * b) - 4.0 * (a * l)), u * u);
    var f := Form(3.0 * a, 3.0 * b, l, u, t);
    hide Form;
    SignOf(4.0 * l, f);
  }

  /** The curve never goes back behind the start of its chord. */
  lemma ForwardIff(c: Cubic)
    requires ChordSquared(c) > 0.0
    ensures Forward(Progress(c, c.p2), Progress(c, c.p3), ChordSquared(c))
            <==> forall t: real :: 0.0 <= t <= 1.0 ==> Progress(c, Eval(c, t)) >= 0.0
  {
    var a, b, l := Progress(c, c.p2), Progress(c, c.p3), ChordSquared(c);
    hide Progress, ChordSquared, Eval, Form, Forward;
    if Forward(a, b, l) {
      forall t: real | 0.0 <= t <= 1.0 ensures Progress(c, Eval(c, t)) >= 0.0 {
        ProgressIsForm(c, t);
        ForwardForm(a, b, l, 1.0 - t, t);
        ProductSign(t, Form(3.0 * a, 3.0 * b, l, 1.0 - t, t));
      }
    } else {
      var t := BackwardAt(a, b, l);
      ProgressIsForm(c, t);
      SignOf(t, Form(3.0 * a, 3.0 * b, l, 1.0 - t, t));
      assert Progress(c, Eval(c, t)) < 0.0;
    }
  }

  lemma ProgressIsForm(c: Cubic, t: real)
    requires 0.0 <= t <= 1.0
    ensures Progress(c, Eval(c, t))
         == t * Form(3.0 * Progress(c, c.p2), 3.0 * Progress(c, c.p3), ChordSquared(c), 1.0 - t, t)
  {
    hide Progress, ChordSquared, Eval, Form, ControlWeight, EndWeight;
    ProgressOfCurve(c, t);
    ProgressForm(Progress(c, c.p2), Progress(c, c.p3), ChordSquared(c), t);
  }

  function Reversed(c: Cubic): Cubic {
    Cubic(c.p4, c.p3, c.p2, c.p1)
  }

  lemma ReversedCurve(c: Cubic, t: real)
    ensures Eval(Reversed(c), t) == Eval(c, 1.0 - t)
  {
    CoordinateReversed(c.p4.x, c.p3.x, c.p2.x, c.p1.x, t);
    CoordinateReversed(c.p4.y, c.p3.y, c.p2.y, c.p1.y, t);
  }

  lemma ReversedProgress(c: Cubic, p: Pt)
    ensures Progress(Reversed(c), p) == ChordSquared(c) - Progress(c, p)
    ensures ChordSquared(Reversed(c)) == ChordSquared(c)
  {
    OppositeDot(p.x - c.p1.x, c.p4.x - c.p1.x);
    OppositeDot(p.y - c.p1.y, c.p4.y - c.p1.y);
    SameSquare(c.p4.x - c.p1.x);
    SameSquare(c.p4.y - c.p1.y);
    assert p.x - c.p4.x == (p.x - c.p1.x) - (c.p4.x - c.p1.x) && c.p1.x - c.p4.x == -(c.p4.x - c.p1.x);
    assert p.y - c.p4.y == (p.y - c.p1.y) - (c.p4.y - c.p1.y) && c.p1.y - c.p4.y == -(c.p4.y - c.p1.y);
  }

  lemma OppositeDot(v: real, d: real)
    ensures (v - d) * -d == d * d - v * d
  {
  }

  lemma SameSquare(d: real)
    ensures -d * -d == d * d
  {
  }

  /** The condition on the four points of a piece, with the progress `a` and `b` of its control points. */
  predicate StaysBeside(c: Cubic) {
    var a, b, l := Progress(c, c.p2), Progress(c, c.p3), ChordSquared(c);
    && a >= 0.0 && b <= l
    && (b >= 0.0 || 3.0 * (b * b) <= 4.0 * (a * l))
    && (a <= l || 3.0 * ((l - a) * (l - a)) <= 4.0 * ((l - b) * l))
  }

  ghost predicate AlwaysBeside(c: Cubic) {
    forall t: real :: 0.0 <= t <= 1.0 ==> Beside(c, Eval(c, t))
  }

  /** The curve stays between the perpendiculars at the ends of its chord if and only if its points meet the
      condition. */
  lemma StaysBesideIff(c: Cubic)
    requires ChordSquared(c) > 0.0
    ensures AlwaysBeside(c) <==> StaysBeside(c)
  {
    var r := Reversed(c);
    ReversedProgress(c, c.p2);
    ReversedProgress(c, c.p3);
    hide Progress, ChordSquared, Eval;
    ForwardIff(c);
    ForwardIff(r);
    forall t: real ensures Progress(r, Eval(r, t)) == ChordSquared(c) - Progress(c, Eval(c, 1.0 - t)) {
      ReversedCurve(c, t);
      ReversedProgress(c, Eval(c, 1.0 - t));
    }
    BesideBoth(c);
  }

  lemma BesideBoth(c: Cubic)
    requires forall t: real ::
               Progress(Reversed(c), Eval(Reversed(c), t)) == ChordSquared(c) - Progress(c, Eval(c, 1.0 - t))
    ensures AlwaysBeside(c)
            <==> (forall t: real :: 0.0 <= t <= 1.0 ==> Progress(c, Eval(c, t)) >= 0.0)
                 && (forall t: real :: 0.0 <= t <= 1.0 ==> Progress(Reversed(c), Eval(Reversed(c), t)) >= 0.0)
  {
    hide Progress, ChordSquared, Eval, Reversed;
    if forall t: real :: 0.0 <= t <= 1.0 ==> Progress(Reversed(c), Eval(Reversed(c), t)) >= 0.0 {
      forall t: real | 0.0 <= t <= 1.0 ensures Progress(c, Eval(c, t)) <= ChordSquared(c) {
        assert Progress(Reversed(c), Eval(Reversed(c), 1.0 - t)) >= 0.0;
        assert 1.0 - (1.0 - t) == t;
      }
    }
    if AlwaysBeside(c) {
      forall t: real | 0.0 <= t <= 1.0 ensures Progress(Reversed(c), Eval(Reversed(c), t)) >= 0.0 {
        assert Beside(c, Eval(c, 1.0 - t));
      }
      forall t: real | 0.0 <= t <= 1.0 ensures Progress(c, Eval(c, t)) >= 0.0 {
        assert Beside(c, Eval(c, t));
      }
    }
  }

  /** The point of the straight segment from `a` to `b` at parameter `s`. */
  function OnSegment(a: Pt, b: Pt, s: real): Pt {
    Pt(a.x + s * (b.x - a.x), a.y + s * (b.y - a.y))
  }

  function SquaredDistance(p: Pt, q: Pt): real {
    SquaredLength(p.x - q.x, p.y - q.y)
  }

  /** Some point of the segment from `a` to `b`, ends included, is nearer to `p` than `limit`. */
  ghost predicate WithinOf(a: Pt, b: Pt, p: Pt, limit: real) {
    exists s: real :: 0.0 <= s <= 1.0 && SquaredDistance(p, OnSegment(a, b, s)) < limit * limit
  }

  const CURVE_TOL := 2.0 / 9.0

  /** A point of an accepted piece that lies between the perpendiculars is within 2/9 of the chord itself. */
  lemma BesideIsClose(c: Cubic, t: real)
    requires Flat(c) && 0.0 <= t <= 1.0 && Beside(c, Eval(c, t))
    ensures WithinOf(c.p1, c.p4, Eval(c, t), CURVE_TOL)
  {
    FlatIsClose(c, t);
    FlatHasChord(c);
    var p := Eval(c, t);
    var l := ChordSquared(c);
    hide Eval, Flat, Progress, OffChord, ChordSquared, OnSegment, SquaredDistance;
    var s := FootDistance(c, p);
  }

  lemma ScaledFactors(a: real, b: real, c: real, d: real)
    ensures a * b * (c * d) == a * c * (b * d)
  {
  }

  /** The squared lengths of two vectors multiply to the squares of their two products. */
  lemma LengthsMultiply(x: real, y: real, dx: real, dy: real)
    ensures SquaredLength(x, y) * SquaredLength(dx, dy)
         == Dot(x, y, dx, dy) * Dot(x, y, dx, dy) + Cross(x, y, dx, dy) * Cross(x, y, dx, dy)
  {
    var a, b, p, q := x * dx, y * dy, x * dy, y * dx;
    ScaledFactors(x, x, dx, dx);
    ScaledFactors(y, y, dy, dy);
    ScaledFactors(x, x, dy, dy);
    ScaledFactors(y, y, dx, dx);
    assert a * b == p * q by {
      SameFour(x, y, dx, dy);
    }
    SumOfSquares(a, b, p, q);
    Expanded(x * x, y * y, dx * dx, dy * dy);
  }

  lemma SameFour(x: real, y: real, dx: real, dy: real)
    ensures x * dx * (y * dy) == x * dy * (y * dx)
  {
  }

  lemma SumOfSquares(a: real, b: real, p: real, q: real)
    requires a * b == p * q
    ensures (a + b) * (a + b) + (p - q) * (p - q) == a * a + b * b + p * p + q * q
  {
  }

  lemma Expanded(a: real, b: real, c: real, d: real)
    ensures (a + b) * (c + d) == a * c + b * d + a * d + b * c
  {
  }

  /** The foot of the perpendicular on the chord, for vectors. */
  lemma Foot(x: real, y: real, dx: real, dy: real) returns (s: real)
    requires var l := SquaredLength(dx, dy);
             && l > 0.0 && 0.0 <= Dot(x, y, dx, dy) <= l
             && 81.0 * (Cross(x, y, dx, dy) * Cross(x, y, dx, dy)) < 16.0 * (TESS_TOL * l)
    ensures 0.0 <= s <= 1.0 && SquaredLength(x - s * dx, y - s * dy) < CURVE_TOL * CURVE_TOL
  {
    hide Dot, Cross, SquaredLength;
    var q, l := Dot(x, y, dx, dy), SquaredLength(dx, dy);
    s := Ratio(q, l);
    Perpendicular(x, y, dx, dy, s);
    LengthsMultiply(x - s * dx, y - s * dy, dx, dy);
    FootBound(SquaredLength(x - s * dx, y - s * dy), l, Cross(x, y, dx, dy));
  }

  lemma Ratio(q: real, l: real) returns (s: real)
    requires l > 0.0 && 0.0 <= q <= l
    ensures s * l == q && 0.0 <= s <= 1.0
  {
    s := q / l;
    RatioInUnit(q, l);
  }

  lemma FootDistance(c: Cubic, p: Pt) returns (s: real)
    requires ChordSquared(c) > 0.0 && Beside(c, p) && CloseToChordLine(c, p)
    ensures 0.0 <= s <= 1.0 && SquaredDistance(p, OnSegment(c.p1, c.p4, s)) < CURVE_TOL * CURVE_TOL
  {
    OffChordFromStart(c, p);
    hide Dot, Cross, SquaredLength, OffChord;
    assert ChordSquared(c) == SquaredLength(c.p4.x - c.p1.x, c.p4.y - c.p1.y);
    var dx, dy := c.p4.x - c.p1.x, c.p4.y - c.p1.y;
    s := Foot(p.x - c.p1.x, p.y - c.p1.y, dx, dy);
    var f := OnSegment(c.p1, c.p4, s);
    assert p.x - f.x == p.x - c.p1.x - s * dx;
    assert p.y - f.y == p.y - c.p1.y - s * dy;
  }

  lemma OffChordFromStart(c: Cubic, p: Pt)
    ensures OffChord(c, p) == Cross(p.x - c.p1.x, p.y - c.p1.y, c.p4.x - c.p1.x, c.p4.y - c.p1.y)
  {
    var x, y, dx, dy := p.x - c.p1.x, p.y - c.p1.y, c.p4.x - c.p1.x, c.p4.y - c.p1.y;
    assert p.x - c.p4.x == x - dx && p.y - c.p4.y == y - dy;
    assert (x - dx) * dy - (y - dy) * dx == x * dy - y * dx;
  }

  lemma Perpendicular(x: real, y: real, dx: real, dy: real, s: real)
    requires s * SquaredLength(dx, dy) == Dot(x, y, dx, dy)
    ensures Dot(x - s * dx, y - s * dy, dx, dy) == 0.0
    ensures Cross(x - s * dx, y - s * dy, dx, dy) == Cross(x, y, dx, dy)
  {
    assert (x - s * dx) * dx == x * dx - s * (dx * dx);
    assert (y - s * dy) * dy == y * dy - s * (dy * dy);
    assert s * (dx * dx + dy * dy) == s * (dx * dx) + s * (dy * dy);
    assert (x - s * dx) * dy == x * dy - s * (dx * dy);
    assert (y - s * dy) * dx == y * dx - s * (dx * dy);
  }

  lemma FootBound(r: real, l: real, o: real)
    requires l > 0.0 && r * l == o * o && 81.0 * (o * o) < 16.0 * (TESS_TOL * l)
    ensures r < CURVE_TOL * CURVE_TOL
  {
    var limit := CURVE_TOL * CURVE_TOL;
    assert limit == 4.0 / 81.0;
    if r >= limit {
      ProductSign(r - limit, l);
    }
  }

  lemma FlatHasChord(c: Cubic)
    requires Flat(c)
    ensures ChordSquared(c) > 0.0
  {
    Squared(Abs(OffChord(c, c.p2)) + Abs(OffChord(c, c.p3)));
    hide OffChord, ChordSquared;
  }

  /** If its points meet the condition, a whole accepted piece is within 2/9 of its chord. */
  lemma FlatIsCloseToChord(c: Cubic, t: real)
    requires Flat(c) && StaysBeside(c) && 0.0 <= t <= 1.0
    ensures WithinOf(c.p1, c.p4, Eval(c, t), CURVE_TOL)
  {
    FlatHasChord(c);
    hide Flat, StaysBeside, ChordSquared, Eval, Beside, WithinOf;
    StaysBesideIff(c);
    assert Beside(c, Eval(c, t));
    BesideIsClose(c, t);
  }

  /** If every piece settles, every curve point lies on a piece and is within 2/9 of its chord, unless that piece leaves
      the strip over its chord. */
  lemma FlatteningFollowsChords(c: Cubic, corner: bool, t: real) returns (i: nat, s: real)
    requires Settles(c, 0) && 0.0 <= t <= 1.0
    ensures var ls := Leaves(c, 0, corner, 0, 1024);
            && i < |ls| && 0.0 <= s <= 1.0 && Eval(ls[i].piece, s) == Eval(c, t)
            && ls[i].piece.p1 == Eval(c, Param(ls[i].at))
            && ls[i].piece.p4 == Eval(c, Param(ls[i].at + ls[i].width))
            && (StaysBeside(ls[i].piece) ==> WithinOf(ls[i].piece.p1, ls[i].piece.p4, Eval(c, t), CURVE_TOL))
  {
    hide Eval, Flat, Leaves, Settles, CloseToChordLine, StaysBeside, WithinOf;
    i, s := FlatteningFollowsCurve(c, corner, t);
    var piece := Leaves(c, 0, corner, 0, 1024)[i].piece;
    if StaysBeside(piece) {
      FlatIsCloseToChord(piece, s);
    }
  }

  function Square(v: real): real {
    v * v
  }

  lemma LengthSquares(x: real, y: real)
    ensures SquaredLength(x, y) == Square(x) + Square(y)
  {
  }

  /** The square is convex. */
  lemma MixSquare(a: real, b: real, s: real, m: real)
    requires 0.0 <= s <= 1.0 && m == a + s * (b - a)
    ensures Square(m) <= Square(a) + s * (Square(b) - Square(a))
  {
    ProductSign(s, 1.0 - s);
    Squared(b - a);
    ProductSign(s * (1.0 - s), (b - a) * (b - a));
    MixDifference(a, b, s);
  }

  lemma MixDifference(a: real, b: real, s: real)
    ensures a * a + s * (b * b - a * a) - (a + s * (b - a)) * (a + s * (b - a)) == s * (1.0 - s) * ((b - a) * (b - a))
  {
    var d := b - a;
    var v, w := s * d, a * d;
    assert (a + s * d) * (a + s * d) == a * a + 2.0 * (s * w) + v * v;
    assert b * b - a * a == d * d + 2.0 * w;
    assert s * (d * d + 2.0 * w) == s * (d * d) + 2.0 * (s * w);
    assert v * v == s * s * (d * d);
    assert s * (1.0 - s) * (d * d) == s * (d * d) - s * s * (d * d);
  }

  /** Between two vectors that are shorter than a limit every vector is. */
  lemma MixShort(x: real, y: real, x': real, y': real, s: real, mx: real, my: real, limit: real)
    requires 0.0 <= s <= 1.0 && mx == x + s * (x' - x) && my == y + s * (y' - y)
    requires SquaredLength(x, y) < limit && SquaredLength(x', y') < limit
    ensures SquaredLength(mx, my) < limit
  {
    hide Square, SquaredLength;
    LengthSquares(x, y);
    LengthSquares(x', y');
    LengthSquares(mx, my);
    MixSquare(x, x', s, mx);
    MixSquare(y, y', s, my);
    ScaledSum(s, Square(x') - Square(x), Square(y') - Square(y), SquaredLength(x', y') - SquaredLength(x, y));
    Mixture(SquaredLength(x, y), SquaredLength(x', y'), s, limit);
  }

  lemma ScaledSum(s: real, a: real, b: real, c: real)
    requires a + b == c
    ensures s * a + s * b == s * c
  {
  }

  lemma Mixture(m: real, m': real, s: real, limit: real)
    requires 0.0 <= s <= 1.0 && m < limit && m' < limit
    ensures m + s * (m' - m) < limit
  {
    if m' >= m {
      ProductSign(1.0 - s, m' - m);
    } else {
      ProductSign(s, m - m');
    }
  }

  lemma SumSquare(a: real, b: real)
    ensures (a + b) * (a + b) <= 209.0 / 200.0 * (a * a) + 209.0 / 9.0 * (b * b)
  {
    var d := 9.0 / 200.0 * a - b;
    Squared(d);
    assert d * d == 81.0 / 40000.0 * (a * a) - 9.0 / 100.0 * (a * b) + b * b;
    assert (a + b) * (a + b) == a * a + 2.0 * (a * b) + b * b;
  }

  /** The two tolerances add up. */
  lemma SumShort(x: real, y: real, x': real, y': real)
    requires SquaredLength(x, y) < CURVE_TOL * CURVE_TOL && SquaredLength(x', y') < DIST_TOL * DIST_TOL
    ensures SquaredLength(x + x', y + y') < (CURVE_TOL + DIST_TOL) * (CURVE_TOL + DIST_TOL)
  {
    SumSquare(x, x');
    SumSquare(y, y');
    assert CURVE_TOL * CURVE_TOL == 4.0 / 81.0;
    assert (CURVE_TOL + DIST_TOL) * (CURVE_TOL + DIST_TOL) == 43681.0 / 810000.0;
  }

  /** Moving the ends of a segment by less than the distance tolerance moves it by less than that. */
  lemma WithinMoved(a: Pt, b: Pt, a': Pt, b': Pt, p: Pt)
    requires WithinOf(a, b, p, CURVE_TOL)
    requires SquaredDistance(a, a') < DIST_TOL * DIST_TOL && SquaredDistance(b, b') < DIST_TOL * DIST_TOL
    ensures WithinOf(a', b', p, CURVE_TOL + DIST_TOL)
  {
    hide SquaredDistance, OnSegment;
    var s: real :| 0.0 <= s <= 1.0 && SquaredDistance(p, OnSegment(a, b, s)) < CURVE_TOL * CURVE_TOL;
    PointMoved(a, b, a', b', p, s);
  }

  lemma PointMoved(a: Pt, b: Pt, a': Pt, b': Pt, p: Pt, s: real)
    requires 0.0 <= s <= 1.0 && SquaredDistance(p, OnSegment(a, b, s)) < CURVE_TOL * CURVE_TOL
    requires SquaredDistance(a, a') < DIST_TOL * DIST_TOL && SquaredDistance(b, b') < DIST_TOL * DIST_TOL
    ensures SquaredDistance(p, OnSegment(a', b', s)) < (CURVE_TOL + DIST_TOL) * (CURVE_TOL + DIST_TOL)
  {
    hide SquaredLength;
    var f, f' := OnSegment(a, b, s), OnSegment(a', b', s);
    MovedPoint(a.x, b.x, a'.x, b'.x, s);
    MovedPoint(a.y, b.y, a'.y, b'.y, s);
    MixShort(a.x - a'.x, a.y - a'.y, b.x - b'.x, b.y - b'.y, s, f.x - f'.x, f.y - f'.y,
             DIST_TOL * DIST_TOL);
    hide OnSegment;
    assert SquaredLength(p.x - f.x, p.y - f.y) < CURVE_TOL * CURVE_TOL;
    SumShort(p.x - f.x, p.y - f.y, f.x - f'.x, f.y - f'.y);
    assert p.x - f.x + (f.x - f'.x) == p.x - f'.x;
    assert p.y - f.y + (f.y - f'.y) == p.y - f'.y;
  }

  lemma MovedPoint(a: real, b: real, a': real, b': real, s: real)
    ensures a - a' + s * (b - b' - (a - a')) == a + s * (b - a) - (a' + s * (b' - a'))
  {
  }

  /** Control points a hundred units before and behind a chord of length one. */
  const OVERSHOOTING := Cubic(Pt(0.0, 0.0), Pt(-100.0, 0.0), Pt(100.0, 0.0), Pt(1.0, 0.0))

  /** The curve is accepted as one piece because it keeps to the line through its chord, and yet comes to lie more than
      28 units away from the chord. */
  lemma Overshoots(corner: bool)
    ensures Settles(OVERSHOOTING, 0)
    ensures Leaves(OVERSHOOTING, 0, corner, 0, 1024) == [Leaf(OVERSHOOTING, corner, 0, 1024)]
    ensures Eval(OVERSHOOTING, 0.2) == Pt(-28.792, 0.0) && CloseToChordLine(OVERSHOOTING, Pt(-28.792, 0.0))
    ensures !WithinOf(OVERSHOOTING.p1, OVERSHOOTING.p4, Pt(-28.792, 0.0), 28.0)
    ensures !StaysBeside(OVERSHOOTING)
  {
    OvershootFlat();
    OvershootAt();
    OvershootAway();
    hide Flat, Eval, CloseToChordLine, WithinOf, StaysBeside;
    LeavesFlat(OVERSHOOTING, 0, corner, 0, 1024);
  }

  lemma OvershootFlat()
    ensures Flat(OVERSHOOTING) && !StaysBeside(OVERSHOOTING)
  {
    hide Flat, StaysBeside;
    OvershootOffsets();
    FlatIfOnChord(OVERSHOOTING);
    BehindStart(OVERSHOOTING);
  }

  lemma OvershootOffsets()
    ensures var c := OVERSHOOTING;
            OffChord(c, c.p2) == OffChord(c, c.p3) == 0.0 && ChordSquared(c) == 1.0 && Progress(c, c.p2) == -100.0
  {
    var c := OVERSHOOTING;
    hide OffChord, ChordSquared, Progress;
    OnAxis(c, c.p2);
    OnAxis(c, c.p3);
  }

  lemma OnAxis(c: Cubic, p: Pt)
    requires c.p1 == Pt(0.0, 0.0) && c.p4 == Pt(1.0, 0.0) && p.y == 0.0
    ensures OffChord(c, p) == 0.0 && ChordSquared(c) == 1.0 && Progress(c, p) == p.x
  {
  }

  lemma BehindStart(c: Cubic)
    requires Progress(c, c.p2) < 0.0
    ensures !StaysBeside(c)
  {
    hide Progress;
  }

  lemma OvershootAt()
    ensures Eval(OVERSHOOTING, 0.2) == Pt(-28.792, 0.0) && CloseToChordLine(OVERSHOOTING, Pt(-28.792, 0.0))
  {
    assert EndWeight(0.2) == 0.512 && ControlWeight(0.2) == 0.384;
    assert ControlWeight(0.8) == 0.096 && EndWeight(0.8) == 0.008;
  }

  lemma OvershootAway()
    ensures !WithinOf(OVERSHOOTING.p1, OVERSHOOTING.p4, Pt(-28.792, 0.0), 28.0)
  {
    var p := Pt(-28.792, 0.0);
    forall s: real | 0.0 <= s <= 1.0
      ensures SquaredDistance(p, OnSegment(OVERSHOOTING.p1, OVERSHOOTING.p4, s)) >= 28.0 * 28.0
    {
      assert OnSegment(OVERSHOOTING.p1, OVERSHOOTING.p4, s) == Pt(s, 0.0);
      ProductSign(0.792 + s, 56.792 + s);
      assert (-28.792 - s) * (-28.792 - s) == 28.0 * 28.0 + (0.792 + s) * (56.792 + s);
    }
  }
}
