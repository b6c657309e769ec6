/** Compositing: `nsvg__div255`, the source-over step of `nsvg__scanlineSolid` and its loop over a span. */
module Blend {
  import opened Images

  /** Division by 255 by multiplication and shift. */
  function Div255(x: int): int {
    ((x + 1) * 257) / 65536
  }

  /** The shift form is exact division on the products of two bytes and somewhat beyond. */
  lemma Div255Exact(x: int)
    requires 0 <= x < 65790
    ensures Div255(x) == x / 255
  {
    var q, r := x / 255, x % 255;
    assert (x + 1) * 257 == 65536 * q + (257 * (r + 1) - q);
  }

  /** ... and 65790 is the first argument on which it is not. */
  lemma Div255Limit()
    ensures Div255(65790) == 65790 / 255 - 1
  {
  }

  lemma Div255Product(u: int, v: int)
    requires 0 <= u <= 255 && 0 <= v <= 255
    ensures 0 <= u * v <= 65025
    ensures Div255(u * v) == u * v / 255
    ensures 0 <= Div255(u * v) <= u && Div255(u * v) <= v
  {
    assert u * v <= 255 * v && u * v <= u * 255;
    Div255Exact(u * v);
  }

  lemma Div255Monotone(u: int, v: int, v': int)
    requires 0 <= u <= 255 && 0 <= v <= v' <= 255
    ensures Div255(u * v) <= Div255(u * v')
  {
    assert u * v <= u * v';
    Div255Product(u, v);
    Div255Product(u, v');
  }

  datatype Color = Color(r: byte, g: byte, b: byte, a: byte)

  /** Coverage times colour alpha: the alpha with which the colour is laid over the pixel. */
  function SourceAlpha(c: Color, cover: byte): int {
    Div255(cover * c.a)
  }

  /** One channel of the blend, before it is stored. */
  function BlendChannel(a: int, premultiplied: int, dst: byte): int {
    premultiplied + Div255((255 - a) * dst)
  }

  /** One pixel of `nsvg__scanlineSolid`: premultiply, blend over, store four bytes. */
  function Over(c: Color, cover: byte, d: Pixel): Pixel {
    var a := SourceAlpha(c, cover);
    Pixel(TruncByte(BlendChannel(a, Div255(c.r * a), d.r)),
          TruncByte(BlendChannel(a, Div255(c.g * a), d.g)),
          TruncByte(BlendChannel(a, Div255(c.b * a), d.b)),
          TruncByte(BlendChannel(a, a, d.a)))
  }

  /** A colour channel blended over `d` stays at or below the alpha blended over `da >= d`, and both fit a byte. */
  lemma ChannelBelowAlpha(c: byte, a: int, d: byte, da: byte)
    requires 0 <= a <= 255 && d <= da
    ensures 0 <= BlendChannel(a, Div255(c * a), d) <= BlendChannel(a, a, da) <= 255
  {
    Div255Product(c, a);
    Div255Product(255 - a, d);
    Div255Product(255 - a, da);
    Div255Monotone(255 - a, d, da);
  }

  lemma KeptByTrunc(x: int)
    requires 0 <= x <= 255
    ensures TruncByte(x) == x
  {
  }

  lemma StoredChannel(c: byte, a: int, d: byte, da: byte)
    requires 0 <= a <= 255 && d <= da
    ensures TruncByte(BlendChannel(a, Div255(c * a), d)) == BlendChannel(a, Div255(c * a), d)
    ensures BlendChannel(a, Div255(c * a), d) <= BlendChannel(a, a, da)
    ensures TruncByte(BlendChannel(a, a, da)) == BlendChannel(a, a, da)
  {
    hide TruncByte, BlendChannel, Div255;
    ChannelBelowAlpha(c, a, d, da);
    KeptByTrunc(BlendChannel(a, Div255(c * a), d));
    KeptByTrunc(BlendChannel(a, a, da));
  }

  lemma SourceAlphaIsByte(c: Color, cover: byte)
    ensures 0 <= SourceAlpha(c, cover) <= 255
  {
    Div255Product(cover, c.a);
  }

  /** On premultiplied pixels the blend never wraps a byte and its result is premultiplied again,
      whatever the colour and the coverage. */
  lemma OverPremultiplied(c: Color, cover: byte, d: Pixel)
    requires d.Premultiplied()
    ensures Over(c, cover, d).Premultiplied()
    ensures var a := SourceAlpha(c, cover);
            && Over(c, cover, d).r == BlendChannel(a, Div255(c.r * a), d.r)
            && Over(c, cover, d).g == BlendChannel(a, Div255(c.g * a), d.g)
            && Over(c, cover, d).b == BlendChannel(a, Div255(c.b * a), d.b)
            && Over(c, cover, d).a == BlendChannel(a, a, d.a)
  {
    var a := SourceAlpha(c, cover);
    SourceAlphaIsByte(c, cover);
    StoredChannel(c.r, a, d.r, d.a);
    StoredChannel(c.g, a, d.g, d.a);
    StoredChannel(c.b, a, d.b, d.a);
  }

  lemma KeptChannel(d: byte)
    ensures BlendChannel(0, 0, d) == d
  {
    Div255Product(255, d);
  }

  /** Zero coverage leaves any pixel as it is, so a blit may be clipped to the columns that were covered. */
  lemma OverNothing(c: Color, d: Pixel)
    ensures Over(c, 0, d) == d
  {
    assert SourceAlpha(c, 0) == 0 && Div255(c.r * 0) == 0 && Div255(c.g * 0) == 0 && Div255(c.b * 0) == 0;
    KeptChannel(d.r);
    KeptChannel(d.g);
    KeptChannel(d.b);
    KeptChannel(d.a);
  }

  lemma ReplacedChannel(c: byte, d: byte)
    ensures BlendChannel(255, Div255(c * 255), d) == c
  {
    Div255Product(c, 255);
  }

  /** An opaque colour at full coverage replaces the pixel. */
  lemma OverOpaque(c: Color, d: Pixel)
    requires c.a == 255
    ensures Over(c, 255, d) == Pixel(c.r, c.g, c.b, 255)
  {
    assert SourceAlpha(c, 255) == 255 && BlendChannel(255, 255, d.a) == 255;
    ReplacedChannel(c.r, d.r);
    ReplacedChannel(c.g, d.g);
    ReplacedChannel(c.b, d.b);
  }

  /** A 2x3 affine matrix, `t[0]` to `t[5]`. */
  datatype Xform = Xform(t0: real, t1: real, t2: real, t3: real, t4: real, t5: real)

  type Table = s: seq<Color> | |s| == 256 witness seq(256, _ => Color(0, 0, 0, 0))

  /** The three kinds of cached paint. The Euclidean norm of the radial case is a parameter. */
  datatype Paint =
    | Solid(color: Color)
    | Linear(t: Xform, colors: Table)
    | Radial(t: Xform, colors: Table, norm: (real, real) -> real)

  /** `(int)nsvg__clampf(g*255.0f, 0, 255.0f)`: always a legal table index. */
  function TableIndex(g: real): nat
    ensures TableIndex(g) < 256
  {
    var v := g * 255.0;
    if v < 0.0 then 0 else if v > 255.0 then 255 else v.Floor
  }

  /** The user-space point in the space of the gradient. */
  function GradientX(t: Xform, fx: real, fy: real): real {
    fx * t.t0 + fy * t.t2 + t.t4
  }

  function GradientY(t: Xform, fx: real, fy: real): real {
    fx * t.t1 + fy * t.t3 + t.t5
  }

  /** The colour at user-space point (fx, fy). */
  function ColorAt(p: Paint, fx: real, fy: real): Color {
    match p
    case Solid(c) => c
    case Linear(t, colors) => colors[TableIndex(GradientY(t, fx, fy))]
    case Radial(t, colors, norm) => colors[TableIndex(norm(GradientX(t, fx, fy), GradientY(t, fx, fy)))]
  }

  /** Where the image is placed: offset and scale. The source divides by both scales. */
  datatype View = View(tx: real, ty: real, sx: real, sy: real) {
    predicate Valid() {
      sx != 0.0 && sy != 0.0
    }

    /** The user-space position of device column `x` and of device row `y`. */
    function UserX(x: int): real
      requires Valid()
    {
      (x as real - tx) / sx
    }

    function UserY(y: int): real
      requires Valid()
    {
      (y as real - ty) / sy
    }
  }

  /** The colour laid over device pixel (x, y): the paint at the pixel's user-space position. */
  function DeviceColor(p: Paint, v: View, x: int, y: int): Color
    requires v.Valid()
  {
    ColorAt(p, v.UserX(x), v.UserY(y))
  }

  lemma StepRight(v: View, x: int)
    requires v.Valid()
    ensures v.UserX(x) + 1.0 / v.sx == v.UserX(x + 1)
  {
  }

  /** The body shared by the three loops of `nsvg__scanlineSolid`: blends one covered pixel in place. */
  method BlendPixel(dst: array<byte>, at: nat, c: Color, cover: byte)
    requires at + 4 <= dst.Length
    modifies dst
    ensures PixelAt(dst[..], at) == Over(c, cover, PixelAt(old(dst[..]), at))
    ensures forall k :: 0 <= k < at || at + 4 <= k < dst.Length ==> dst[k] == old(dst[k])
  {
    var a := SourceAlpha(c, cover);
    var r := BlendChannel(a, Div255(c.r * a), dst[at]);
    var g := BlendChannel(a, Div255(c.g * a), dst[at + 1]);
    var b := BlendChannel(a, Div255(c.b * a), dst[at + 2]);
    var a' := BlendChannel(a, a, dst[at + 3]);
    dst[at], dst[at + 1], dst[at + 2], dst[at + 3] := TruncByte(r), TruncByte(g), TruncByte(b), TruncByte(a');
  }

  /** `nsvg__scanlineSolid`: lays `count` covered pixels over the buffer from byte `at`. The user-space
      abscissa is advanced by addition, yet each pixel gets the colour of its own position. */
  method ScanlineSolid(dst: array<byte>, at: nat, count: nat, cover: array<byte>, from: nat, x: int, y: int,
                       view: View, paint: Paint)
    requires view.Valid()
    requires at + 4 * count <= dst.Length && from + count <= cover.Length && dst != cover
    modifies dst
    ensures forall i :: 0 <= i < count ==>
              PixelAt(dst[..], at + 4 * i)
              == Over(DeviceColor(paint, view, x + i, y), cover[from + i], PixelAt(old(dst[..]), at + 4 * i))
    ensures forall k :: 0 <= k < at || at + 4 * count <= k < dst.Length ==> dst[k] == old(dst[k])
  {
    hide Over, ColorAt, View.UserX, View.UserY;
    var fx, fy, dx := view.UserX(x), view.UserY(y), 1.0 / view.sx;
    var i := 0;
    while i < count
      invariant 0 <= i <= count
      invariant fx == view.UserX(x + i)
      invariant forall j :: 0 <= j < i ==>
                  PixelAt(dst[..], at + 4 * j)
                  == Over(DeviceColor(paint, view, x + j, y), cover[from + j], PixelAt(old(dst[..]), at + 4 * j))
      invariant forall k :: 0 <= k < at || at + 4 * i <= k < dst.Length ==> dst[k] == old(dst[k])
    {
      ghost var before := dst[..];
      assert PixelAt(before, at + 4 * i) == PixelAt(old(dst[..]), at + 4 * i);
      BlendPixel(dst, at + 4 * i, ColorAt(paint, fx, fy), cover[from + i]);
      forall j | 0 <= j < i ensures PixelAt(dst[..], at + 4 * j) == PixelAt(before, at + 4 * j) {}
      StepRight(view, x + i);
      fx := fx + dx;
      i := i + 1;
    }
  }
}
