/** What a paint lays over a place of the user space, over the reals: the colour with its alpha faded by the opacity, or
    the mixture of the two stops around the place on the gradient vector. The cached paint is never far from it. */
module PaintColors {
  import opened Images
  import opened Blend
  import opened Gradients
  import opened Paints

  function Between01(u: real): real {
    if u < 0.0 then 0.0 else if u > 1.0 then 1.0 else u
  }

  /** The colour under an opacity: the same but for alpha, which is short by less than two units and never too large,
      and exact under full opacity. */
  predicate Faded(c: Color, u: real, f: Color) {
    && f.r == c.r && f.g == c.g && f.b == c.b
    && c.a as real * Between01(u) - 2.0 < f.a as real <= c.a as real * Between01(u) && (u >= 1.0 ==> f.a == c.a)
  }

  /** Table entry `k` stands for offset `g`. */
  predicate StandsFor(k: nat, g: real) {
    var v := 255.0 * Between01(g);
    k <= 255 && k as real <= v < k as real + 1.0
  }

  /** Entry `k` lies in front of offset `g`. */
  predicate InFrontOf(k: nat, g: real) {
    k as real + 1.0 <= 255.0 * Between01(g)
  }

  /** One channel between two, `w` of the way. */
  predicate MixedChannel(a: byte, b: byte, w: real, c: byte) {
    var exact := a as real + (b as real - a as real) * w;
    exact - 2.0 < c as real < exact + 1.0
  }

  predicate Mixed(a: Color, b: Color, w: real, c: Color) {
    && MixedChannel(a.r, b.r, w, c.r) && MixedChannel(a.g, b.g, w, c.g)
    && MixedChannel(a.b, b.b, w, c.b) && MixedChannel(a.a, b.a, w, c.a)
  }

  /** Entry `k` lies between stops `i` and `i + 1`, and `c` mixes their faded colours. */
  predicate BetweenStops(stops: seq<Stop>, u: real, k: nat, c: Color, i: nat, k0: nat, k1: nat, c0: Color, c1: Color) {
    && i + 1 < |stops|
    && StandsFor(k0, stops[i].offset) && StandsFor(k1, stops[i + 1].offset) && k0 <= k < k1
    && Faded(stops[i].color, u, c0) && Faded(stops[i + 1].color, u, c1)
    && Mixed(c0, c1, (k - k0) as real / (k1 - k0) as real, c)
  }

  /** The colour of entry `k` of a gradient: that of the first stop before it, of the last one behind it, and in between
      the mixture of the stops around it. */
  ghost predicate EntryColor(stops: seq<Stop>, u: real, k: nat, c: Color)
    requires stops != []
  {
    || (InFrontOf(k, stops[0].offset) && Faded(stops[0].color, u, c))
    || (!InFrontOf(k, stops[|stops| - 1].offset) && Faded(stops[|stops| - 1].color, u, c))
    || exists i: nat, k0: nat, k1: nat, c0, c1 :: BetweenStops(stops, u, k, c, i, k0, k1, c0, c1)
  }

  /** The colour at place `g` of the gradient vector; beyond its ends that of the end. */
  ghost predicate GradientColor(stops: seq<Stop>, u: real, g: real, c: Color)
    requires stops != []
  {
    exists k: nat :: StandsFor(k, g) && EntryColor(stops, u, k, c)
  }

  /** An affine coordinate of (x, y). */
  predicate Coordinate(a: real, b: real, c: real, x: real, y: real, g: real) {
    g == a * x + b * y + c
  }

  /** What a paint lays over (x, y) of the user space: a linear gradient by its second transformed coordinate, a radial
      one by the distance from the transformed origin. */
  ghost predicate PaintedAs(paint: ShapePaint, u: real, x: real, y: real, c: Color)
    requires paint.Drawable()
  {
    match paint
    case SolidColor(color) => Faded(color, u, c)
    case LinearGradient(t, stops) =>
      exists g :: Coordinate(t.t1, t.t3, t.t5, x, y, g) && GradientColor(stops, u, g, c)
    case RadialGradient(t, stops, norm) =>
      exists gx, gy ::
        Coordinate(t.t0, t.t2, t.t4, x, y, gx) && Coordinate(t.t1, t.t3, t.t5, x, y, gy)
        && GradientColor(stops, u, norm(gx, gy), c)
  }

  lemma Floored(v: real) returns (k: int)
    ensures k == v.Floor && k as real <= v < k as real + 1.0
  {
    k := v.Floor;
  }

  lemma PartsNear(u: real) returns (iu: nat)
    ensures iu == Parts256(u) && iu <= 256 && iu as real <= 256.0 * Between01(u) < iu as real + 1.0
  {
    iu := Floored(Clamp(u, 0.0, 1.0) * 256.0);
  }

  lemma CastProduct(u: int, v: int)
    ensures (u * v) as real == u as real * v as real
  {
  }

  lemma NonNegative(a: real, b: real) returns (p: real)
    requires a >= 0.0 && b >= 0.0
    ensures p == a * b && p >= 0.0
  {
    p := a * b;
  }

  /** A product with a factor below 1/256 of a byte. */
  lemma SmallPart(m: real, e: real) returns (p: real)
    requires -255.0 <= m <= 255.0 && 0.0 <= e < 1.0
    ensures p == m * e && -255.0 < p < 255.0 && (m >= 0.0 ==> p >= 0.0)
  {
    p := m * e;
    var u := NonNegative(255.0 - m, e);
    var v := NonNegative(255.0 + m, e);
    assert u == 255.0 * e - p && v == 255.0 * e + p;
    if m >= 0.0 {
      var w := NonNegative(m, e);
    }
  }

  lemma FloorDivision(n: int) returns (q: int)
    requires 0 <= n
    ensures q == n / 256 && q as real <= n as real / 256.0 < q as real + 1.0
  {
    q := n / 256;
  }

  lemma OpacityFades(c: Color, u: real)
    ensures Faded(c, u, ApplyOpacity(c, u))
  {
    var iu := PartsNear(u);
    var b, a := Between01(u), c.a as real;
    ByteTimes(c.a, iu);
    var q := FloorDivision(c.a * iu);
    CastProduct(c.a, iu);
    var e := 256.0 * b - iu as real;
    var p := SmallPart(a, e);
    assert a * (256.0 * b - iu as real) == 256.0 * (a * b) - a * iu as real;
    OpacityOnlyFades(c, u);
    assert q <= 255 by {
      FadedSmall(c.a, iu);
    }
  }

  lemma ByteTimes(a: byte, iu: nat)
    requires iu <= 256
    ensures 0 <= a * iu <= 255 * 256
  {
    assert a * iu <= 255 * iu;
  }

  lemma FadedSmall(a: byte, iu: nat)
    requires iu <= 256
    ensures 0 <= a * iu / 256 <= 255
  {
    ByteTimes(a, iu);
  }

  lemma MixNear(a: byte, b: byte, u: real)
    requires 0.0 <= u <= 1.0
    ensures MixedChannel(a, b, u, TruncByte(Mix(a, b, Parts256(u))))
  {
    var iu := PartsNear(u);
    MixBetween(a, b, iu);
    var x, y, d := a as real, b as real, b as real - a as real;
    MixNumerator(a, b, iu);
    var q := FloorDivision(a * (256 - iu) + b * iu);
    var e := 256.0 * u - iu as real;
    var p := SmallPart(d, e);
    assert d * (256.0 * u - iu as real) == 256.0 * (d * u) - d * iu as real;
    assert q == Mix(a, b, iu);
    KeptByte(q);
  }

  lemma KeptByte(q: int)
    requires 0 <= q <= 255
    ensures TruncByte(q) == q
  {
  }

  lemma MixNumerator(a: byte, b: byte, iu: nat)
    requires iu <= 256
    ensures 0 <= a * (256 - iu) + b * iu
    ensures (a * (256 - iu) + b * iu) as real == 256.0 * a as real + (b as real - a as real) * iu as real
  {
    CastProduct(a, 256 - iu);
    CastProduct(b, iu);
    ByteTimes(a, 256 - iu);
    ByteTimes(b, iu);
  }

  lemma LerpMixes(a: Color, b: Color, u: real)
    requires 0.0 <= u <= 1.0
    ensures Mixed(a, b, u, LerpRGBA(a, b, u))
  {
    hide MixedChannel, Mix, Parts256, TruncByte;
    MixNear(a.r, b.r, u);
    MixNear(a.g, b.g, u);
    MixNear(a.b, b.b, u);
    MixNear(a.a, b.a, u);
  }

  lemma PositionStands(offset: real)
    ensures StandsFor(Position(offset), offset)
  {
    var k := Floored(Clamp(offset, 0.0, 1.0) * 255.0);
  }

  lemma PositionInFront(k: nat, offset: real)
    ensures InFrontOf(k, offset) <==> k < Position(offset)
  {
    var p := Floored(Clamp(offset, 0.0, 1.0) * 255.0);
  }

  lemma IndexStands(g: real)
    ensures StandsFor(TableIndex(g), g)
  {
    var k := Floored(g * 255.0);
  }

  /** The stops around an entry. */
  lemma {:induction false} FindStops(stops: seq<Stop>, k: nat, n: nat) returns (i: nat)
    requires 1 <= n < |stops| && PosAt(stops, 0) <= k < PosAt(stops, n)
    ensures i + 1 < |stops| && PosAt(stops, i) <= k < PosAt(stops, i + 1)
  {
    hide Position;
    if PosAt(stops, n - 1) <= k {
      i := n - 1;
    } else {
      i := FindStops(stops, k, n - 1);
    }
  }

  lemma RatioIn(j: nat, count: nat)
    requires j < count
    ensures 0.0 <= Ratio(j, count) <= 1.0
  {
  }

  lemma InSegment(stops: seq<Stop>, u: real, i: nat, k: nat)
    requires SortedStops(stops) && i + 1 < |stops| && PosAt(stops, i) <= k < PosAt(stops, i + 1)
    ensures BetweenStops(stops, u, k, Entry(stops, u, |stops|, k), i, PosAt(stops, i), PosAt(stops, i + 1),
                         ColorOf(stops, u, i), ColorOf(stops, u, i + 1))
  {
    EntryInSegment(stops, u, |stops|, i, k);
    PositionStands(stops[i].offset);
    PositionStands(stops[i + 1].offset);
    OpacityFades(stops[i].color, u);
    OpacityFades(stops[i + 1].color, u);
    RatioIn(k - PosAt(stops, i), PosAt(stops, i + 1) - PosAt(stops, i));
    LerpMixes(ColorOf(stops, u, i), ColorOf(stops, u, i + 1),
              Ratio(k - PosAt(stops, i), PosAt(stops, i + 1) - PosAt(stops, i)));
    hide Entry, Mixed, LerpRGBA, ApplyOpacity, Faded, Position, StandsFor, SortedStops;
  }

  /** Every entry of the table has the colour of its place between the stops. */
  lemma EntryHasColor(stops: seq<Stop>, u: real, k: nat)
    requires SortedStops(stops) && stops != []
    ensures EntryColor(stops, u, k, Entry(stops, u, |stops|, k))
  {
    hide Entry, Mixed, LerpRGBA, ApplyOpacity, Faded, Position, InFrontOf, SortedStops, BetweenStops;
    PositionInFront(k, stops[0].offset);
    PositionInFront(k, stops[|stops| - 1].offset);
    OpacityFades(stops[0].color, u);
    OpacityFades(stops[|stops| - 1].color, u);
    if k < PosAt(stops, 0) {
      EntryBefore(stops, u, |stops|, k);
    } else if k >= PosAt(stops, |stops| - 1) {
      LastEntry(stops, u, k);
    } else {
      var i := FindStops(stops, k, |stops| - 1);
      InSegment(stops, u, i, k);
    }
  }

  lemma LastEntry(stops: seq<Stop>, u: real, k: nat)
    requires stops != [] && k >= PosAt(stops, |stops| - 1)
    ensures Entry(stops, u, |stops|, k) == ColorOf(stops, u, |stops| - 1)
  {
    hide Position, LerpRGBA, ApplyOpacity;
  }

  lemma TableHasColor(stops: seq<Stop>, u: real, g: real)
    requires SortedStops(stops) && stops != []
    ensures GradientColor(stops, u, g, GradientTable(stops, u)[TableIndex(g)])
  {
    hide Entry, EntryColor, StandsFor, TableIndex, SortedStops;
    IndexStands(g);
    EntryHasColor(stops, u, TableIndex(g));
  }

  lemma LinearPaints(t: Xform, stops: seq<Stop>, u: real, x: real, y: real)
    requires SortedStops(stops) && stops != []
    ensures Coordinate(t.t1, t.t3, t.t5, x, y, GradientY(t, x, y))
    ensures GradientColor(stops, u, GradientY(t, x, y), ColorAt(Linear(t, GradientTable(stops, u)), x, y))
  {
    TableHasColor(stops, u, GradientY(t, x, y));
    assert Coordinate(t.t1, t.t3, t.t5, x, y, GradientY(t, x, y));
    hide GradientColor, TableIndex, SortedStops, GradientY;
  }

  lemma RadialPaints(t: Xform, stops: seq<Stop>, norm: (real, real) -> real, u: real, x: real, y: real)
    requires SortedStops(stops) && stops != []
    ensures Coordinate(t.t0, t.t2, t.t4, x, y, GradientX(t, x, y))
    ensures Coordinate(t.t1, t.t3, t.t5, x, y, GradientY(t, x, y))
    ensures GradientColor(stops, u, norm(GradientX(t, x, y), GradientY(t, x, y)),
                          ColorAt(Radial(t, GradientTable(stops, u), norm), x, y))
  {
    TableHasColor(stops, u, norm(GradientX(t, x, y), GradientY(t, x, y)));
    assert Coordinate(t.t0, t.t2, t.t4, x, y, GradientX(t, x, y));
    assert Coordinate(t.t1, t.t3, t.t5, x, y, GradientY(t, x, y));
    hide GradientColor, TableIndex, SortedStops, GradientX, GradientY;
  }

  /** What the cache of `nsvg__initPaint` gives for a place of the user space is what the paint is there. */
  lemma CachedPaints(paint: ShapePaint, u: real, x: real, y: real)
    requires paint.Drawable() && paint.Ordered()
    ensures PaintedAs(paint, u, x, y, ColorAt(Cached(paint, u), x, y))
  {
    if paint.SolidColor? {
      OpacityFades(paint.color, u);
      hide Faded, ApplyOpacity;
    } else if paint.LinearGradient? {
      LinearPaints(paint.xform, paint.stops, u, x, y);
      hide GradientColor, ColorAt, GradientY, SortedStops, Coordinate;
    } else {
      RadialPaints(paint.xform, paint.stops, paint.norm, u, x, y);
      hide GradientColor, ColorAt, GradientX, GradientY, SortedStops, Coordinate;
    }
  }
}
