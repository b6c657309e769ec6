/** `nsvg__unpremultiplyAlpha`: divides the colours by alpha and then bleeds colour into the fully
    transparent pixels around shapes, both in place. */
module Unpremultiply {
  import opened Images

  /** `(unsigned char)(c*255/a)`. */
  function Divided(c: byte, a: byte): byte
    requires a != 0
  {
    TruncByte(c * 255 / a)
  }

  function UnpremultiplyPx(p: Pixel): Pixel {
    if p.a != 0 then Pixel(Divided(p.r, p.a), Divided(p.g, p.a), Divided(p.b, p.a), p.a) else p
  }

  lemma QuotientBelow(n: nat, d: nat, m: nat)
    requires d > 0
    ensures n / d < m <==> n < m * d
  {
    var q, r := n / d, n % d;
    assert n == q * d + r;
    if q < m {
      assert (q + 1) * d <= m * d;
    } else {
      assert q * d >= m * d;
    }
  }

  /** The store keeps the quotient exactly when the channel is below 256/255 of alpha ... */
  lemma DividedFitsIff(c: byte, a: byte)
    requires a != 0
    ensures Divided(c, a) == c * 255 / a <==> c * 255 < 256 * a
  {
    hide TruncByte;
    QuotientBelow(c * 255, a, 256);
    TruncKeepsIff(c * 255 / a);
  }

  lemma TruncKeepsIff(q: nat)
    ensures TruncByte(q) == q <==> q < 256
  {
  }

  lemma TimesBack(q: nat, a: nat, r: nat, c: nat)
    requires c * 255 == q * a + r && r < a <= 255 && c > 0
    ensures c - 1 <= q * a / 255 <= c
  {
  }

  /** ... so never wraps for a premultiplied channel, and multiplying the quotient back (rounding down)
      loses at most one unit. */
  lemma DividedRoundTrip(c: byte, a: byte)
    requires a != 0 && c <= a
    ensures Divided(c, a) == c * 255 / a
    ensures c - 1 <= Divided(c, a) * a / 255 <= c
  {
    DividedFitsIff(c, a);
    if c > 0 {
      TimesBack(c * 255 / a, a, c * 255 % a, c);
    }
  }

  /** Channel by channel, for every premultiplied pixel: multiplying back gives the channel or one less, alpha is kept,
      and opaque and wholly transparent pixels stay as they are. */
  lemma UnpremultiplyRound(p: Pixel)
    requires p.Premultiplied()
    ensures var q := UnpremultiplyPx(p);
            && q.a == p.a && (p.a == 0 || p.a == 255 ==> q == p)
            && (p.a != 0 ==> p.r - 1 <= q.r * p.a / 255 <= p.r && p.g - 1 <= q.g * p.a / 255 <= p.g
                             && p.b - 1 <= q.b * p.a / 255 <= p.b)
  {
    if p.a != 0 {
      DividedRoundTrip(p.r, p.a);
      DividedRoundTrip(p.g, p.a);
      DividedRoundTrip(p.b, p.a);
      if p.a == 255 {
        DividedByFull(p.r);
        DividedByFull(p.g);
        DividedByFull(p.b);
      }
    }
    hide Divided;
  }

  lemma DividedByFull(c: byte)
    ensures c * 255 / 255 == c
  {
  }

  /** What the defringe pass gathers from the neighbours of a pixel. */
  datatype Gather = Gather(r: nat, g: nat, b: nat, n: nat) {
    function Add(p: Pixel): Gather {
      if p.a != 0 then Gather(r + p.r, g + p.g, b + p.b, n + 1) else this
    }

    predicate Bounded(m: nat) {
      n <= m && r <= 255 * n && g <= 255 * n && b <= 255 * n
    }
  }

  /** The neighbours are taken in the order left, right, up, down; as in the code, column 0 is never
      used as a left neighbour nor row 0 as an upper one. */
  function Neighbours(img: seq<byte>, w: nat, h: nat, stride: nat, y: nat, x: nat): Gather
    requires Fits(|img|, w, h, stride) && y < h && x < w
  {
    var s0 := Gather(0, 0, 0, 0);
    var s1 := if x > 1 then s0.Add(Px(img, w, h, stride, y, x - 1)) else s0;
    var s2 := if x + 1 < w then s1.Add(Px(img, w, h, stride, y, x + 1)) else s1;
    var s3 := if y > 1 then s2.Add(Px(img, w, h, stride, y - 1, x)) else s2;
    if y + 1 < h then s3.Add(Px(img, w, h, stride, y + 1, x)) else s3
  }

  function Filled(p: Pixel, s: Gather): Pixel {
    if p.a == 0 && s.n > 0 then Pixel(TruncByte(s.r / s.n), TruncByte(s.g / s.n), TruncByte(s.b / s.n), 0) else p
  }

  /** The simultaneous update: every pixel is computed from one and the same image. */
  function DefringePx(img: seq<byte>, w: nat, h: nat, stride: nat, y: nat, x: nat): Pixel
    requires Fits(|img|, w, h, stride) && y < h && x < w
  {
    Filled(Px(img, w, h, stride, y, x), Neighbours(img, w, h, stride, y, x))
  }

  /** `img` and `img'` agree on every alpha and on the colours of all pixels that are not transparent. */
  ghost predicate SameVisible(img: seq<byte>, img': seq<byte>, w: nat, h: nat, stride: nat)
    requires Fits(|img|, w, h, stride) && |img| == |img'|
  {
    forall y: nat, x: nat :: y < h && x < w ==>
      var p, p' := Px(img, w, h, stride, y, x), Px(img', w, h, stride, y, x);
      p.a == p'.a && (p.a != 0 ==> p == p')
  }

  /** What is gathered depends on the visible part of the image only; the in-place pass lives on this. */
  lemma NeighboursFromVisible(img: seq<byte>, img': seq<byte>, w: nat, h: nat, stride: nat, y: nat, x: nat)
    requires Fits(|img|, w, h, stride) && |img| == |img'| && y < h && x < w
    requires SameVisible(img, img', w, h, stride)
    ensures Neighbours(img, w, h, stride, y, x) == Neighbours(img', w, h, stride, y, x)
  {
  }

  lemma PixelKept(img: seq<byte>, img': seq<byte>, w: nat, h: nat, stride: nat, y: nat, x: nat, y': nat, x': nat)
    requires Fits(|img|, w, h, stride) && |img| == |img'| && y < h && x < w && y' < h && x' < w
    requires (y, x) != (y', x')
    requires forall k :: 0 <= k < |img| && !(Offset(stride, y, x) <= k < Offset(stride, y, x) + 4) ==> img'[k] == img[k]
    ensures Px(img', w, h, stride, y', x') == Px(img, w, h, stride, y', x')
  {
    PixelsApart(w, stride, y, x, y', x');
    OffsetInRange(|img|, w, h, stride, y', x');
  }

  predicate Before(y: nat, x: nat, y': nat, x': nat) {
    y < y' || (y == y' && x < x')
  }

  method StoreColor(image: array<byte>, at: nat, r: byte, g: byte, b: byte)
    requires at + 4 <= image.Length
    modifies image
    ensures PixelAt(image[..], at) == Pixel(r, g, b, old(image[at + 3]))
    ensures forall k :: 0 <= k < image.Length && !(at <= k < at + 4) ==> image[k] == old(image[k])
  {
    image[at], image[at + 1], image[at + 2] := r, g, b;
  }

  /** The first double loop. */
  method DivideByAlpha(image: array<byte>, w: nat, h: nat, stride: nat)
    requires Fits(image.Length, w, h, stride)
    modifies image
    ensures forall y: nat, x: nat :: y < h && x < w ==>
              Px(image[..], w, h, stride, y, x) == UnpremultiplyPx(Px(old(image[..]), w, h, stride, y, x))
  {
    ghost var img0 := image[..];
    var y := 0;
    while y < h
      invariant y <= h
      invariant forall y': nat, x': nat :: y' < h && x' < w ==>
                  Px(image[..], w, h, stride, y', x')
                  == var p := Px(img0, w, h, stride, y', x'); if y' < y then UnpremultiplyPx(p) else p
    {
      var row := y * stride;
      var x := 0;
      while x < w
        invariant x <= w && row == Offset(stride, y, x)
        invariant forall y': nat, x': nat :: y' < h && x' < w ==>
                    Px(image[..], w, h, stride, y', x')
                    == var p := Px(img0, w, h, stride, y', x'); if Before(y', x', y, x) then UnpremultiplyPx(p) else p
      {
        OffsetInRange(image.Length, w, h, stride, y, x);
        ghost var before := image[..];
        assert Px(before, w, h, stride, y, x) == Px(img0, w, h, stride, y, x);
        var r, g, b, a := image[row], image[row + 1], image[row + 2], image[row + 3];
        if a != 0 {
          StoreColor(image, row, Divided(r, a), Divided(g, a), Divided(b, a));
        }
        assert Px(image[..], w, h, stride, y, x) == UnpremultiplyPx(Px(before, w, h, stride, y, x));
        forall y': nat, x': nat | y' < h && x' < w && (y', x') != (y, x)
          ensures Px(image[..], w, h, stride, y', x') == Px(before, w, h, stride, y', x')
        {
          PixelKept(before, image[..], w, h, stride, y, x, y', x');
        }
        row := row + 4;
        x := x + 1;
      }
      y := y + 1;
    }
  }

  /** The second double loop. It reads colours only where alpha is not zero and writes only where it is,
      so although it runs in place it computes the simultaneous update. */
  method Defringe(image: array<byte>, w: nat, h: nat, stride: nat)
    requires Fits(image.Length, w, h, stride)
    modifies image
    ensures forall y: nat, x: nat :: y < h && x < w ==>
              Px(image[..], w, h, stride, y, x) == DefringePx(old(image[..]), w, h, stride, y, x)
  {
    ghost var img0 := image[..];
    var y := 0;
    while y < h
      invariant y <= h
      invariant forall y': nat, x': nat :: y' < h && x' < w ==>
                  Px(image[..], w, h, stride, y', x')
                  == if y' < y then DefringePx(img0, w, h, stride, y', x') else Px(img0, w, h, stride, y', x')
    {
      var row := y * stride;
      var x := 0;
      while x < w
        invariant x <= w && row == Offset(stride, y, x)
        invariant forall y': nat, x': nat :: y' < h && x' < w ==>
                    Px(image[..], w, h, stride, y', x')
                    == if Before(y', x', y, x) then DefringePx(img0, w, h, stride, y', x')
                       else Px(img0, w, h, stride, y', x')
      {
        DefringePixel(image, w, h, stride, y, x, row, img0);
        row := row + 4;
        x := x + 1;
      }
      y := y + 1;
    }
  }

  /** The body of the second double loop, at pixel (y, x), with every earlier pixel already rewritten. */
  method DefringePixel(image: array<byte>, w: nat, h: nat, stride: nat, y: nat, x: nat, row: nat, ghost img0: seq<byte>)
    requires Fits(image.Length, w, h, stride) && |img0| == image.Length
    requires y < h && x < w && row == Offset(stride, y, x)
    requires forall y': nat, x': nat :: y' < h && x' < w ==>
               Px(image[..], w, h, stride, y', x')
               == if Before(y', x', y, x) then DefringePx(img0, w, h, stride, y', x')
                  else Px(img0, w, h, stride, y', x')
    modifies image
    ensures forall y': nat, x': nat :: y' < h && x' < w ==>
              Px(image[..], w, h, stride, y', x')
              == if Before(y', x', y, x + 1) then DefringePx(img0, w, h, stride, y', x')
                 else Px(img0, w, h, stride, y', x')
  {
    ghost var before := image[..];
    assert SameVisible(img0, before, w, h, stride);
    NeighboursFromVisible(img0, before, w, h, stride, y, x);
    OffsetInRange(image.Length, w, h, stride, y, x);
    assert Px(before, w, h, stride, y, x) == Px(img0, w, h, stride, y, x);
    if image[row + 3] == 0 {
      var s := GatherNeighbours(image, w, h, stride, y, x, row);
      if s.n > 0 {
        StoreColor(image, row, TruncByte(s.r / s.n), TruncByte(s.g / s.n), TruncByte(s.b / s.n));
      }
    }
    assert Px(image[..], w, h, stride, y, x) == DefringePx(img0, w, h, stride, y, x);
    forall y': nat, x': nat | y' < h && x' < w && (y', x') != (y, x)
      ensures Px(image[..], w, h, stride, y', x') == Px(before, w, h, stride, y', x')
    {
      PixelKept(before, image[..], w, h, stride, y, x, y', x');
    }
  }

  /** The four guarded reads, by byte offset from the pixel, with all of them in bounds. */
  method GatherNeighbours(image: array<byte>, w: nat, h: nat, stride: nat, y: nat, x: nat, row: nat) returns (s: Gather)
    requires Fits(image.Length, w, h, stride) && y < h && x < w && row == Offset(stride, y, x)
    ensures s == Neighbours(image[..], w, h, stride, y, x)
  {
    s := Gather(0, 0, 0, 0);
    if x > 1 {
      assert row - 4 == Offset(stride, y, x - 1);
      OffsetInRange(image.Length, w, h, stride, y, x - 1);
      s := s.Add(PixelAt(image[..], row - 4));
    }
    if x + 1 < w {
      OffsetInRange(image.Length, w, h, stride, y, x + 1);
      s := s.Add(PixelAt(image[..], row + 4));
    }
    if y > 1 {
      assert row - stride == Offset(stride, y - 1, x);
      OffsetInRange(image.Length, w, h, stride, y - 1, x);
      s := s.Add(PixelAt(image[..], row - stride));
    }
    if y + 1 < h {
      assert row + stride == Offset(stride, y + 1, x);
      OffsetInRange(image.Length, w, h, stride, y + 1, x);
      s := s.Add(PixelAt(image[..], row + stride));
    }
  }

  /** `nsvg__unpremultiplyAlpha`: the two passes together, on any image. */
  method UnpremultiplyAlpha(image: array<byte>, w: nat, h: nat, stride: nat) returns (ghost mid: seq<byte>)
    requires Fits(image.Length, w, h, stride)
    modifies image
    ensures |mid| == image.Length
    ensures forall y: nat, x: nat :: y < h && x < w ==>
              Px(mid, w, h, stride, y, x) == UnpremultiplyPx(Px(old(image[..]), w, h, stride, y, x))
    ensures forall y: nat, x: nat :: y < h && x < w ==>
              Px(image[..], w, h, stride, y, x) == DefringePx(mid, w, h, stride, y, x)
  {
    DivideByAlpha(image, w, h, stride);
    mid := image[..];
    Defringe(image, w, h, stride);
  }

  /** Averages of at most four bytes are bytes: the defringe stores never wrap either. */
  lemma DefringeFits(img: seq<byte>, w: nat, h: nat, stride: nat, y: nat, x: nat)
    requires Fits(|img|, w, h, stride) && y < h && x < w
    ensures var s := Neighbours(img, w, h, stride, y, x);
            s.n <= 4 && (s.n > 0 ==> s.r / s.n <= 255 && s.g / s.n <= 255 && s.b / s.n <= 255)
  {
    var s := Neighbours(img, w, h, stride, y, x);
    assert s.Bounded(4);
    if s.n > 0 {
      QuotientBelow(s.r, s.n, 256);
      QuotientBelow(s.g, s.n, 256);
      QuotientBelow(s.b, s.n, 256);
    }
  }
}
