/** `nsvg__initPaint`: turns a paint into the cached form the blitter reads, a gradient into a table of 256
    colours. */
module Paints {
  import opened Images
  import opened Blend
  import opened Gradients

  function Clamp(a: real, lo: real, hi: real): real {
    if a < lo then lo else if a > hi then hi else a
  }

  /** `(int)(nsvg__clampf(u, 0.0f, 1.0f) * 256.0f)`. */
  function Parts256(u: real): (iu: nat)
    ensures iu <= 256
  {
    (Clamp(u, 0.0, 1.0) * 256.0).Floor
  }

  function Mix(c0: byte, c1: byte, iu: nat): int
    requires iu <= 256
  {
    (c0 * (256 - iu) + c1 * iu) / 256
  }

  lemma MixUpwards(c0: byte, c1: byte, iu: nat)
    requires iu <= 256 && c0 <= c1
    ensures c0 <= Mix(c0, c1, iu) <= c1 && c0 <= Mix(c1, c0, iu) <= c1
  {
    var d, rest := c1 - c0, 256 - iu;
    assert c0 * rest + c1 * iu == 256 * c0 + d * iu && 0 <= d * iu <= d * 256;
    assert c1 * rest + c0 * iu == 256 * c0 + d * rest && 0 <= d * rest <= d * 256;
  }

  lemma MixBetween(c0: byte, c1: byte, iu: nat)
    requires iu <= 256
    ensures c0 <= Mix(c0, c1, iu) <= c1 || c1 <= Mix(c0, c1, iu) <= c0
  {
    hide Mix;
    if c0 <= c1 {
      MixUpwards(c0, c1, iu);
    } else {
      MixUpwards(c1, c0, iu);
    }
  }

  /** `nsvg__lerpRGBA`. */
  function LerpRGBA(c0: Color, c1: Color, u: real): Color {
    var iu := Parts256(u);
    Color(TruncByte(Mix(c0.r, c1.r, iu)), TruncByte(Mix(c0.g, c1.g, iu)),
          TruncByte(Mix(c0.b, c1.b, iu)), TruncByte(Mix(c0.a, c1.a, iu)))
  }

  /** `nsvg__applyOpacity`. */
  function ApplyOpacity(c: Color, u: real): Color {
    c.(a := TruncByte(c.a * Parts256(u) / 256))
  }

  predicate BetweenBytes(a: byte, c: byte, b: byte) {
    a <= c <= b || b <= c <= a
  }

  predicate Between(a: Color, c: Color, b: Color) {
    BetweenBytes(a.r, c.r, b.r) && BetweenBytes(a.g, c.g, b.g) && BetweenBytes(a.b, c.b, b.b)
    && BetweenBytes(a.a, c.a, b.a)
  }

  lemma LerpBetween(c0: Color, c1: Color, u: real)
    ensures Between(c0, LerpRGBA(c0, c1, u), c1)
  {
    hide Mix;
    MixBetween(c0.r, c1.r, Parts256(u));
    MixBetween(c0.g, c1.g, Parts256(u));
    MixBetween(c0.b, c1.b, Parts256(u));
    MixBetween(c0.a, c1.a, Parts256(u));
  }

  lemma LerpStart(c0: Color, c1: Color)
    ensures LerpRGBA(c0, c1, 0.0) == c0
  {
    MixNone(c0.r, c1.r);
    MixNone(c0.g, c1.g);
    MixNone(c0.b, c1.b);
    MixNone(c0.a, c1.a);
    hide Mix;
    assert Parts256(0.0) == 0;
  }

  lemma MixNone(c0: byte, c1: byte)
    ensures TruncByte(Mix(c0, c1, 0)) == c0
  {
  }

  lemma OpacityOnlyFades(c: Color, u: real)
    ensures ApplyOpacity(c, u).a <= c.a
    ensures (u >= 1.0 ==> ApplyOpacity(c, u) == c) && (u <= 0.0 ==> ApplyOpacity(c, u).a == 0)
  {
    var iu := Parts256(u);
    assert 0 <= c.a * iu <= c.a * 256;
  }

  const TABLE := 256

  /** Table position of an offset. */
  function Position(offset: real): (k: nat)
    ensures k <= 255
  {
    (Clamp(offset, 0.0, 1.0) * 255.0).Floor
  }

  function PosAt(stops: seq<Stop>, i: nat): nat
    requires i < |stops|
  {
    Position(stops[i].offset)
  }

  function ColorOf(stops: seq<Stop>, opacity: real, i: nat): Color
    requires i < |stops|
  {
    ApplyOpacity(stops[i].color, opacity)
  }

  function Ratio(j: int, count: int): real
    requires count > 0
  {
    j as real / count as real
  }

  /** Entry `k` of the table, as the first `n` stops determine it: the first colour before the first stop, the
      last one from the last stop on, and in between the mixture of the two stops around it. */
  function Entry(stops: seq<Stop>, opacity: real, n: nat, k: nat): Color
    requires 1 <= n <= |stops|
  {
    if n == 1 then ColorOf(stops, opacity, 0)
    else if k >= PosAt(stops, n - 1) then ColorOf(stops, opacity, n - 1)
    else if k >= PosAt(stops, n - 2) then
      LerpRGBA(ColorOf(stops, opacity, n - 2), ColorOf(stops, opacity, n - 1),
               Ratio(k - PosAt(stops, n - 2), PosAt(stops, n - 1) - PosAt(stops, n - 2)))
    else Entry(stops, opacity, n - 1, k)
  }

  lemma PositionsSorted(stops: seq<Stop>, i: nat, j: nat)
    requires SortedStops(stops) && i <= j < |stops|
    ensures PosAt(stops, i) <= PosAt(stops, j)
  {
    if i < j {
      var a, b := Clamp(stops[i].offset, 0.0, 1.0), Clamp(stops[j].offset, 0.0, 1.0);
      assert a <= b;
      assert a * 255.0 <= b * 255.0;
    }
  }

  lemma EntryInSegment(stops: seq<Stop>, opacity: real, n: nat, i: nat, k: nat)
    requires SortedStops(stops) && i + 2 <= n <= |stops| && PosAt(stops, i) <= k < PosAt(stops, i + 1)
    ensures Entry(stops, opacity, n, k)
         == LerpRGBA(ColorOf(stops, opacity, i), ColorOf(stops, opacity, i + 1),
                     Ratio(k - PosAt(stops, i), PosAt(stops, i + 1) - PosAt(stops, i)))
  {
    hide LerpRGBA, ColorOf, Position, Ratio, SortedStops;
    if n > i + 2 {
      PositionsSorted(stops, i + 1, n - 2);
      PositionsSorted(stops, n - 2, n - 1);
      EntryInSegment(stops, opacity, n - 1, i, k);
    }
  }

  /** Between two stops every channel lies between those of the two. */
  lemma EntryBetween(stops: seq<Stop>, opacity: real, i: nat, k: nat)
    requires SortedStops(stops) && i + 1 < |stops| && PosAt(stops, i) <= k < PosAt(stops, i + 1)
    ensures Between(ColorOf(stops, opacity, i), Entry(stops, opacity, |stops|, k), ColorOf(stops, opacity, i + 1))
  {
    hide LerpRGBA, ColorOf, Between, Position, Ratio, SortedStops, Entry;
    EntryInSegment(stops, opacity, |stops|, i, k);
    LerpBetween(ColorOf(stops, opacity, i), ColorOf(stops, opacity, i + 1),
                Ratio(k - PosAt(stops, i), PosAt(stops, i + 1) - PosAt(stops, i)));
  }

  /** The table passes through the stops: at the position of a stop stands the colour of the last stop there. */
  lemma EntryAtStop(stops: seq<Stop>, opacity: real, i: nat)
    requires SortedStops(stops) && i < |stops| && (i + 1 < |stops| ==> PosAt(stops, i) < PosAt(stops, i + 1))
    ensures Entry(stops, opacity, |stops|, PosAt(stops, i)) == ColorOf(stops, opacity, i)
  {
    hide LerpRGBA, ColorOf, Position, SortedStops;
    if i + 1 < |stops| {
      EntryInSegment(stops, opacity, |stops|, i, PosAt(stops, i));
      LerpStart(ColorOf(stops, opacity, i), ColorOf(stops, opacity, i + 1));
    }
  }

  lemma EntryOneMore(stops: seq<Stop>, opacity: real, n: nat, k: nat)
    requires SortedStops(stops) && 1 <= n < |stops| && k < PosAt(stops, n - 1)
    ensures Entry(stops, opacity, n + 1, k) == Entry(stops, opacity, n, k)
  {
    PositionsSorted(stops, n - 1, n);
    hide LerpRGBA, ColorOf, Position, SortedStops;
  }

  lemma EntryBefore(stops: seq<Stop>, opacity: real, n: nat, k: nat)
    requires SortedStops(stops) && 1 <= n <= |stops| && k < PosAt(stops, 0)
    ensures Entry(stops, opacity, n, k) == ColorOf(stops, opacity, 0)
  {
    hide LerpRGBA, ColorOf, Position, SortedStops;
    if n > 1 {
      PositionsSorted(stops, 0, n - 1);
      PositionsSorted(stops, 0, n - 2);
      EntryBefore(stops, opacity, n - 1, k);
    }
  }

  /** The first `done` entries have been written once each and hold what the first `n` stops say; the others
      have not been written. */
  ghost predicate Filled(colors: seq<Color>, writes: seq<nat>, stops: seq<Stop>, opacity: real, n: nat, done: nat)
    requires 1 <= n <= |stops| && done <= TABLE == |colors| == |writes|
  {
    && (forall k: nat :: k < done ==> colors[k] == Entry(stops, opacity, n, k) && writes[k] == 1)
    && (forall k: nat :: done <= k < TABLE ==> writes[k] == 0)
  }

  lemma FilledSame(colors: seq<Color>, writes: seq<nat>, stops: seq<Stop>, opacity: real, n: nat)
    requires SortedStops(stops) && 1 <= n < |stops| && TABLE == |colors| == |writes|
    requires Filled(colors, writes, stops, opacity, n, PosAt(stops, n - 1))
    ensures Filled(colors, writes, stops, opacity, n + 1, PosAt(stops, n - 1))
  {
    hide Entry, SortedStops, Position;
    forall k: nat | k < PosAt(stops, n - 1) ensures Entry(stops, opacity, n + 1, k) == Entry(stops, opacity, n, k) {
      EntryOneMore(stops, opacity, n, k);
    }
  }

  lemma FilledOneMore(colors: seq<Color>, writes: seq<nat>, stops: seq<Stop>, opacity: real, n: nat, done: nat,
                      c: Color)
    requires 1 <= n <= |stops| && done < TABLE == |colors| == |writes|
    requires Filled(colors, writes, stops, opacity, n, done) && c == Entry(stops, opacity, n, done)
    ensures Filled(colors[done := c], writes[done := writes[done] + 1], stops, opacity, n, done + 1)
  {
    hide Entry;
  }

  lemma RatioStep(j: nat, count: int)
    requires count > 0
    ensures Ratio(j, count) + 1.0 / count as real == Ratio(j + 1, count)
  {
  }

  /** A solid stretch of the table, `from` to `to`. */
  method FillSolid(colors: array<Color>, from: nat, to: nat, c: Color, ghost writes: seq<nat>,
                   ghost stops: seq<Stop>, ghost opacity: real, ghost n: nat) returns (ghost writes': seq<nat>)
    requires colors.Length == TABLE == |writes| && from <= to <= TABLE && 1 <= n <= |stops|
    requires Filled(colors[..], writes, stops, opacity, n, from)
    requires forall k: nat :: from <= k < to ==> Entry(stops, opacity, n, k) == c
    modifies colors
    ensures |writes'| == TABLE && Filled(colors[..], writes', stops, opacity, n, to)
  {
    hide Entry, Filled;
    writes' := writes;
    var i := from;
    while i < to
      invariant from <= i <= to && |writes'| == TABLE
      invariant Filled(colors[..], writes', stops, opacity, n, i)
    {
      FilledOneMore(colors[..], writes', stops, opacity, n, i, c);
      writes' := writes'[i := writes'[i] + 1];
      ghost var next := colors[..][i := c];
      colors[i] := c;
      assert colors[..] == next;
      i := i + 1;
    }
  }

  /** The body of the loop over the pairs of neighbouring stops. */
  method FillSegment(colors: array<Color>, stops: seq<Stop>, opacity: real, i: nat, ghost writes: seq<nat>)
    returns (ib: nat, cb: Color, ghost writes': seq<nat>)
    requires colors.Length == TABLE == |writes| && SortedStops(stops) && i + 1 < |stops|
    requires Filled(colors[..], writes, stops, opacity, i + 1, PosAt(stops, i))
    modifies colors
    ensures ib == PosAt(stops, i + 1) && cb == ColorOf(stops, opacity, i + 1)
    ensures |writes'| == TABLE && Filled(colors[..], writes', stops, opacity, i + 2, PosAt(stops, i + 1))
  {
    hide Entry, Filled, LerpRGBA, ApplyOpacity, SortedStops, Position, Ratio;
    var ca := ApplyOpacity(stops[i].color, opacity);
    cb := ApplyOpacity(stops[i + 1].color, opacity);
    var ia := Position(stops[i].offset);
    ib := Position(stops[i + 1].offset);
    var count := ib - ia;
    writes' := writes;
    FilledSame(colors[..], writes, stops, opacity, i + 1);
    PositionsSorted(stops, i, i + 1);
    if count > 0 {
      var u, du := 0.0, 1.0 / count as real;
      RatioZero(count);
      var j := 0;
      while j < count
        invariant 0 <= j <= count && u == Ratio(j, count) && |writes'| == TABLE
        invariant Filled(colors[..], writes', stops, opacity, i + 2, ia + j)
      {
        var c := LerpRGBA(ca, cb, u);
        EntryInSegment(stops, opacity, i + 2, i, ia + j);
        FilledOneMore(colors[..], writes', stops, opacity, i + 2, ia + j, c);
        writes' := writes'[ia + j := writes'[ia + j] + 1];
        ghost var next := colors[..][ia + j := c];
        colors[ia + j] := c;
        assert colors[..] == next;
        RatioStep(j, count);
        u := u + du;
        j := j + 1;
      }
    }
  }

  lemma RatioZero(count: int)
    requires count > 0
    ensures Ratio(0, count) == 0.0
  {
  }

  lemma NothingFilled(colors: seq<Color>, stops: seq<Stop>, opacity: real)
    requires |colors| == TABLE && |stops| >= 1
    ensures Filled(colors, seq(TABLE, _ => 0), stops, opacity, 1, 0)
  {
  }

  /** The gradient part of `nsvg__initPaint`. Two stops are needed: with one stop the loop reads stop `i` for
      every table entry `i`, and with none the general branch reads the first stop. Reading outside the stop
      array is reported here instead of done. With two or more stops every table entry is written exactly
      once, with the colour its place between the stops gives it. */
  method InitGradient(colors: array<Color>, stops: seq<Stop>, opacity: real)
    returns (inBounds: bool, ghost writes: seq<nat>)
    requires colors.Length == TABLE && SortedStops(stops)
    modifies colors
    ensures inBounds <==> |stops| >= 2
    ensures inBounds ==> |writes| == TABLE && Filled(colors[..], writes, stops, opacity, |stops|, TABLE)
  {
    hide Entry, Filled, ApplyOpacity, SortedStops, Position;
    writes := seq(TABLE, _ => 0);
    if |stops| == 0 {
      for i := 0 to TABLE {
        colors[i] := Color(0, 0, 0, 0);
      }
    }
    if |stops| == 1 {
      for i := 0 to TABLE
        invariant i <= 1
      {
        if i >= |stops| {
          return false, writes;
        }
        colors[i] := ApplyOpacity(stops[i].color, opacity);
      }
    } else {
      if |stops| == 0 {
        return false, writes;
      }
      var ia := Position(stops[0].offset);
      NothingFilled(colors[..], stops, opacity);
      writes := FillSolid(colors, 0, ia, ApplyOpacity(stops[0].color, opacity), writes, stops, opacity, 1) by {
        forall k: nat | k < ia ensures Entry(stops, opacity, 1, k) == ApplyOpacity(stops[0].color, opacity) {
          EntryBefore(stops, opacity, 1, k);
        }
      }
      var ib, cb := 0, Color(0, 0, 0, 0);
      var i := 0;
      while i < |stops| - 1
        invariant 0 <= i <= |stops| - 1 && |writes| == TABLE
        invariant i > 0 ==> ib == PosAt(stops, i) && cb == ColorOf(stops, opacity, i)
        invariant Filled(colors[..], writes, stops, opacity, i + 1, PosAt(stops, i))
      {
        ib, cb, writes := FillSegment(colors, stops, opacity, i, writes);
        i := i + 1;
      }
      forall k: nat | ib <= k < TABLE ensures Entry(stops, opacity, |stops|, k) == cb {
        EntryAfter(stops, opacity, k);
      }
      writes := FillSolid(colors, ib, TABLE, cb, writes, stops, opacity, |stops|);
      inBounds := true;
    }
  }

  lemma EntryAfter(stops: seq<Stop>, opacity: real, k: nat)
    requires |stops| >= 2 && k >= PosAt(stops, |stops| - 1)
    ensures Entry(stops, opacity, |stops|, k) == ColorOf(stops, opacity, |stops| - 1)
  {
  }

  /** `NSVGpaint`; a gradient carries its stops, a radial one also the Euclidean norm. */
  datatype ShapePaint =
    | NoPaint
    | SolidColor(color: Color)
    | LinearGradient(xform: Xform, stops: seq<Stop>)
    | RadialGradient(xform: Xform, stops: seq<Stop>, norm: (real, real) -> real)
  {
    predicate Gradient() {
      LinearGradient? || RadialGradient?
    }

    /** Something to draw with, whose caching stays inside the stop array. */
    predicate Drawable() {
      !NoPaint? && (Gradient() ==> |stops| >= 2)
    }

    ghost predicate Ordered() {
      Gradient() ==> SortedStops(stops)
    }
  }

  function GradientTable(stops: seq<Stop>, opacity: real): (t: Table)
    requires |stops| >= 1
    ensures forall k :: 0 <= k < TABLE ==> t[k] == Entry(stops, opacity, |stops|, k)
  {
    seq(TABLE, k requires 0 <= k < TABLE => Entry(stops, opacity, |stops|, k))
  }

  /** What the cache holds afterwards. */
  function Cached(paint: ShapePaint, opacity: real): Paint
    requires paint.Drawable()
  {
    match paint
    case SolidColor(c) => Solid(ApplyOpacity(c, opacity))
    case LinearGradient(t, stops) => Linear(t, GradientTable(stops, opacity))
    case RadialGradient(t, stops, norm) => Radial(t, GradientTable(stops, opacity), norm)
  }

  lemma FilledIsTable(colors: seq<Color>, writes: seq<nat>, stops: seq<Stop>, opacity: real)
    requires |stops| >= 1 && TABLE == |colors| == |writes|
    requires Filled(colors, writes, stops, opacity, |stops|, TABLE)
    ensures colors == GradientTable(stops, opacity)
  {
    hide Entry;
  }

  /** `nsvg__initPaint`, for a paint that is not `NSVG_PAINT_NONE`. */
  method InitPaint(colors: array<Color>, paint: ShapePaint, opacity: real) returns (inBounds: bool, cache: Paint)
    requires colors.Length == TABLE && !paint.NoPaint? && paint.Ordered()
    modifies colors
    ensures inBounds <==> paint.Drawable()
    ensures inBounds ==> cache == Cached(paint, opacity)
  {
    hide Entry, Filled, ApplyOpacity, SortedStops;
    if paint.SolidColor? {
      return true, Solid(ApplyOpacity(paint.color, opacity));
    }
    ghost var writes;
    inBounds, writes := InitGradient(colors, paint.stops, opacity);
    if inBounds {
      FilledIsTable(colors[..], writes, paint.stops, opacity);
    }
    var table: Table := colors[..];
    cache := if paint.LinearGradient? then Linear(paint.xform, table) else Radial(paint.xform, table, paint.norm);
  }
}
