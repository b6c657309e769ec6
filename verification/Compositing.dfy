/** What one blended pixel is worth: `nsvg__scanlineSolid` against the source-over formula of section 14.2 of SVG 1.1
    over the reals. */
module Compositing {
  import opened Images
  import opened Blend

  /** The alpha with which colour `c` is laid over a pixel that it covers by `cover` parts of 255. */
  function LaidAlpha(c: Color, cover: byte): real {
    (cover * c.a) as real / 255.0
  }

  /** Premultiplied source-over of a source channel `s` with alpha `a` over a channel `d`, all from 0 to 255. */
  function SourceOver(s: real, a: real, d: byte): real {
    s + (255.0 - a) * d as real / 255.0
  }

  /** A channel of the colour, premultiplied. */
  function Premultiply(c: byte, a: real): real {
    c as real * a / 255.0
  }

  predicate Near(p: byte, exact: real, below: real, above: real) {
    exact - below < p as real < exact + above
  }

  lemma Quotient(x: int) returns (q: int)
    requires 0 <= x <= 65025
    ensures q == Div255(x) && q as real <= x as real / 255.0 < q as real + 1.0
  {
    q := x / 255;
    Div255Exact(x);
  }

  lemma Scaled(f: real, m: real) returns (p: real)
    requires 0.0 <= f < 1.0 && -255.0 <= m <= 255.0
    ensures p == f * m && -255.0 < p < 255.0 && (m >= 0.0 ==> p >= 0.0)
  {
    p := f * m;
    var u := NonNegative(f, 255.0 - m);
    var v := NonNegative(f, 255.0 + m);
    assert u == 255.0 * f - p && v == 255.0 * f + p;
    if m >= 0.0 {
      var w := NonNegative(f, m);
    }
  }

  lemma NonNegative(a: real, b: real) returns (p: real)
    requires a >= 0.0 && b >= 0.0
    ensures p == a * b && p >= 0.0
  {
    p := a * b;
  }

  lemma CastProduct(u: int, v: int)
    ensures (u * v) as real == u as real * v as real
  {
  }

  /** What is kept of a channel: the rounding of the alpha and the two divisions. */
  lemma ChannelNear(c: byte, a: int, exact: real, d: byte, da: byte)
    requires 0 <= a <= 255 && d <= da && a as real <= exact < a as real + 1.0
    ensures var e := SourceOver(Premultiply(c, exact), exact, d);
            e - 3.0 < BlendChannel(a, Div255(c * a), d) as real < e + 1.0
  {
    hide Div255;
    var m := FloorProduct(c, a);
    var q := FloorProduct(255 - a, d);
    var x, y, z, f := c as real, d as real, a as real, exact - a as real;
    var p := Scaled(f, x - y);
    Apart(x, y, z, f);
    assert z + f == exact && (255 - a) as real == 255.0 - z;
    AddUp(m, q, x * z, (255.0 - z) * y, p);
  }

  lemma FloorProduct(u: int, v: int) returns (q: int)
    requires 0 <= u <= 255 && 0 <= v <= 255
    ensures q == Div255(u * v) && q as real <= u as real * v as real / 255.0 < q as real + 1.0
  {
    ProductBounds(u, v);
    q := Quotient(u * v);
    CastProduct(u, v);
  }

  lemma AddUp(m: int, q: int, x: real, y: real, p: real)
    requires m as real <= x / 255.0 < m as real + 1.0 && q as real <= y / 255.0 < q as real + 1.0
    requires -255.0 < p < 255.0
    ensures x / 255.0 + y / 255.0 + p / 255.0 - 3.0 < (m + q) as real < x / 255.0 + y / 255.0 + p / 255.0 + 1.0
  {
  }

  lemma ProductBounds(u: int, v: int)
    requires 0 <= u <= 255 && 0 <= v <= 255
    ensures 0 <= u * v <= 65025
  {
    Div255Product(u, v);
  }

  lemma Apart(c: real, d: real, a: real, f: real)
    ensures c * (a + f) / 255.0 + (255.0 - (a + f)) * d / 255.0
         == c * a / 255.0 + (255.0 - a) * d / 255.0 + f * (c - d) / 255.0
  {
    assert c * (a + f) == c * a + c * f;
    assert (255.0 - (a + f)) * d == (255.0 - a) * d - f * d;
    assert f * (c - d) == c * f - f * d;
  }

  /** The same for alpha, whose source is itself. */
  lemma AlphaNear(a: int, exact: real, da: byte)
    requires 0 <= a <= 255 && a as real <= exact < a as real + 1.0
    ensures var e := SourceOver(exact, exact, da);
            e - 2.0 < BlendChannel(a, a, da) as real <= e
  {
    ProductBounds(255 - a, da);
    var q := Quotient((255 - a) * da);
    CastProduct(255 - a, da);
    var f := exact - a as real;
    var p := Scaled(f, 255.0 - da as real);
    AlphaApart(da as real, a as real, f);
    hide Div255;
    AlphaUp(q, (255.0 - a as real) * da as real, p);
  }

  lemma AlphaUp(q: int, y: real, p: real)
    requires q as real <= y / 255.0 < q as real + 1.0 && 0.0 <= p < 255.0
    ensures y / 255.0 + p / 255.0 - 2.0 < q as real <= y / 255.0 + p / 255.0
  {
  }

  lemma AlphaApart(d: real, a: real, f: real)
    ensures (a + f) + (255.0 - (a + f)) * d / 255.0 == a + (255.0 - a) * d / 255.0 + f * (255.0 - d) / 255.0
  {
    assert (255.0 - (a + f)) * d == (255.0 - a) * d - f * d;
    assert f * (255.0 - d) == 255.0 * f - f * d;
  }

  /** Whatever the colour, the coverage and the premultiplied pixel below, the stored pixel is the source-over
      composite: alpha short by less than two units and never above, each colour channel short by less than three or
      above by less than one. */
  lemma OverIsSourceOver(c: Color, cover: byte, d: Pixel)
    requires d.Premultiplied()
    ensures var p, a := Over(c, cover, d), LaidAlpha(c, cover);
            && SourceOver(a, a, d.a) - 2.0 < p.a as real <= SourceOver(a, a, d.a)
            && Near(p.r, SourceOver(Premultiply(c.r, a), a, d.r), 3.0, 1.0)
            && Near(p.g, SourceOver(Premultiply(c.g, a), a, d.g), 3.0, 1.0)
            && Near(p.b, SourceOver(Premultiply(c.b, a), a, d.b), 3.0, 1.0)
  {
    var exact := LaidAlpha(c, cover);
    ProductBounds(cover, c.a);
    var a := Quotient(cover * c.a);
    SourceAlphaIsByte(c, cover);
    OverPremultiplied(c, cover, d);
    assert a == SourceAlpha(c, cover);
    hide SourceOver, Premultiply, BlendChannel, Div255, Over, LaidAlpha;
    ChannelNear(c.r, a, exact, d.r, d.a);
    ChannelNear(c.g, a, exact, d.g, d.a);
    ChannelNear(c.b, a, exact, d.b, d.a);
    AlphaNear(a, exact, d.a);
  }
}
