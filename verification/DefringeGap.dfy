/** What the defringe pass of `nsvg__unpremultiplyAlpha` misses: its guards `x-1 > 0` and `y-1 > 0` never look at
    column 0 to the left nor at row 0 above, and so are off by one for a gather of all four neighbours. */
module DefringeGap {
  import opened Images
  import opened Remainders
  import opened Unpremultiply

  /** All four neighbours inside the image. */
  function FourNeighbours(img: seq<byte>, w: nat, h: nat, stride: nat, y: nat, x: nat): Gather
    requires Fits(|img|, w, h, stride) && y < h && x < w
  {
    var s0 := Gather(0, 0, 0, 0);
    var s1 := if x > 0 then s0.Add(Px(img, w, h, stride, y, x - 1)) else s0;
    var s2 := if x + 1 < w then s1.Add(Px(img, w, h, stride, y, x + 1)) else s1;
    var s3 := if y > 0 then s2.Add(Px(img, w, h, stride, y - 1, x)) else s2;
    if y + 1 < h then s3.Add(Px(img, w, h, stride, y + 1, x)) else s3
  }

  /** The defringed pixel if all four neighbours counted. */
  function FullDefringePx(img: seq<byte>, w: nat, h: nat, stride: nat, y: nat, x: nat): Pixel
    requires Fits(|img|, w, h, stride) && y < h && x < w
  {
    Filled(Px(img, w, h, stride, y, x), FourNeighbours(img, w, h, stride, y, x))
  }

  /** A visible neighbour in column 0 or row 0 is passed over. */
  predicate Misses(img: seq<byte>, w: nat, h: nat, stride: nat, y: nat, x: nat)
    requires Fits(|img|, w, h, stride) && y < h && x < w
  {
    || (x == 1 && Px(img, w, h, stride, y, 0).a != 0)
    || (y == 1 && Px(img, w, h, stride, 0, x).a != 0)
  }

  /** The pass gathers all visible neighbours of a pixel if and only if none of them is passed over. */
  lemma GatherCompleteIff(img: seq<byte>, w: nat, h: nat, stride: nat, y: nat, x: nat)
    requires Fits(|img|, w, h, stride) && y < h && x < w
    ensures Neighbours(img, w, h, stride, y, x) == FourNeighbours(img, w, h, stride, y, x)
            <==> !Misses(img, w, h, stride, y, x)
    ensures Misses(img, w, h, stride, y, x) ==>
              Neighbours(img, w, h, stride, y, x).n < FourNeighbours(img, w, h, stride, y, x).n
  {
    hide Px;
  }

  /** The averages that would be stored happen to be what the pass leaves in the pixel. */
  predicate SameAnyway(p: Pixel, s: Gather, f: Gather)
    requires f.n > 0
  {
    && TruncByte(f.r / f.n) == (if s.n > 0 then TruncByte(s.r / s.n) else p.r)
    && TruncByte(f.g / f.n) == (if s.n > 0 then TruncByte(s.g / s.n) else p.g)
    && TruncByte(f.b / f.n) == (if s.n > 0 then TruncByte(s.b / s.n) else p.b)
  }

  /** A pixel comes out as with all four neighbours if and only if it is visible itself, or none is passed over,
      or the averages coincide. */
  lemma DefringeCompleteIff(img: seq<byte>, w: nat, h: nat, stride: nat, y: nat, x: nat)
    requires Fits(|img|, w, h, stride) && y < h && x < w
    ensures DefringePx(img, w, h, stride, y, x) == FullDefringePx(img, w, h, stride, y, x)
            <==> (Px(img, w, h, stride, y, x).a == 0 && Misses(img, w, h, stride, y, x) ==>
                    FourNeighbours(img, w, h, stride, y, x).n > 0
                    && SameAnyway(Px(img, w, h, stride, y, x), Neighbours(img, w, h, stride, y, x),
                                  FourNeighbours(img, w, h, stride, y, x)))
  {
    GatherCompleteIff(img, w, h, stride, y, x);
    hide Px, Neighbours, FourNeighbours, Misses, TruncByte;
  }

  /** In an image of one row a visible pixel in column 0 never reaches its transparent black neighbour, which with
      all four neighbours would take its colour. */
  lemma MissedInOneRow(img: seq<byte>, w: nat, stride: nat)
    requires Fits(|img|, w, 1, stride) && w >= 2
    requires Px(img, w, 1, stride, 0, 0).a != 0 && Px(img, w, 1, stride, 0, 1) == Pixel(0, 0, 0, 0)
    requires w > 2 ==> Px(img, w, 1, stride, 0, 2).a == 0
    ensures DefringePx(img, w, 1, stride, 0, 1) == Pixel(0, 0, 0, 0)
    ensures var p := Px(img, w, 1, stride, 0, 0); FullDefringePx(img, w, 1, stride, 0, 1) == Pixel(p.r, p.g, p.b, 0)
  {
    hide Px;
  }

  /** One row: a red pixel and two transparent black ones. */
  predicate RedFirst(img: seq<byte>, w: nat, stride: nat) {
    w == 3 && stride == 12 && img == [255, 0, 0, 255, 0, 0, 0, 0, 0, 0, 0, 0]
  }

  /** There the pass leaves the second pixel black, while it has a red neighbour. */
  lemma RedRow(img: seq<byte>, w: nat, stride: nat)
    requires RedFirst(img, w, stride)
    ensures Fits(|img|, w, 1, stride) && w > 1
    ensures DefringePx(img, w, 1, stride, 0, 1) == Pixel(0, 0, 0, 0)
    ensures FullDefringePx(img, w, 1, stride, 0, 1) == Pixel(255, 0, 0, 0)
  {
    hide Px, PixelAt, DefringePx, FullDefringePx, RedFirst;
    RedRowPixels(img, w, stride);
    PxInFirstRow(img, w, stride, 0);
    PxInFirstRow(img, w, stride, 1);
    PxInFirstRow(img, w, stride, 2);
    MissedInOneRow(img, w, stride);
  }

  lemma RedRowPixels(img: seq<byte>, w: nat, stride: nat)
    requires RedFirst(img, w, stride)
    ensures Fits(|img|, w, 1, stride) && |img| == 12 && w == 3
    ensures PixelAt(img, 0) == Pixel(255, 0, 0, 255)
    ensures PixelAt(img, 4) == Pixel(0, 0, 0, 0) && PixelAt(img, 8) == Pixel(0, 0, 0, 0)
  {
  }

  lemma PxInFirstRow(img: seq<byte>, w: nat, stride: nat, x: nat)
    requires Fits(|img|, w, 1, stride) && x < w
    ensures 4 * x + 4 <= |img| && Px(img, w, 1, stride, 0, x) == PixelAt(img, 4 * x)
  {
    OffsetInRange(|img|, w, 1, stride, 0, x);
    assert Offset(stride, 0, x) == 4 * x;
    hide PixelAt;
  }

  /** The image whose pixels are given by `f`. */
  function Painted(len: nat, w: nat, stride: nat, f: (nat, nat) -> Pixel): (img: seq<byte>)
    requires stride > 0
    ensures |img| == len
  {
    seq<byte>(len, k requires 0 <= k < len =>
      ByteOf(f(Quot(k, stride), Quot(Rem(k, stride), 4)), Rem(Rem(k, stride), 4)))
  }

  function Quot(k: nat, n: nat): nat
    requires n > 0
  {
    k / n
  }

  function Rem(k: nat, n: nat): nat
    requires n > 0
  {
    k % n
  }

  function ByteOf(p: Pixel, j: nat): byte {
    if j == 0 then p.r else if j == 1 then p.g else if j == 2 then p.b else p.a
  }

  lemma PaintedByte(len: nat, w: nat, h: nat, stride: nat, f: (nat, nat) -> Pixel, y: nat, x: nat, j: nat)
    requires Fits(len, w, h, stride) && y < h && x < w && j < 4
    ensures Offset(stride, y, x) + j < len
    ensures Painted(len, w, stride, f)[Offset(stride, y, x) + j] == ByteOf(f(y, x), j)
  {
    OffsetInRange(len, w, h, stride, y, x);
    OffsetParts(stride, y, x, j);
    hide Offset, Quot, Rem;
  }

  lemma OffsetParts(stride: nat, y: nat, x: nat, j: nat)
    requires 4 * x + 4 <= stride && j < 4
    ensures var k := Offset(stride, y, x) + j;
            Quot(k, stride) == y && Quot(Rem(k, stride), 4) == x && Rem(Rem(k, stride), 4) == j
  {
    RemainderIs(Offset(stride, y, x) + j, stride, y, 4 * x + j);
    hide Rounds, Offset;
  }

  lemma PaintedPx(len: nat, w: nat, h: nat, stride: nat, f: (nat, nat) -> Pixel, y: nat, x: nat)
    requires Fits(len, w, h, stride) && y < h && x < w
    ensures Px(Painted(len, w, stride, f), w, h, stride, y, x) == f(y, x)
  {
    hide Painted;
    OffsetInRange(len, w, h, stride, y, x);
    PaintedByte(len, w, h, stride, f, y, x, 0);
    PaintedByte(len, w, h, stride, f, y, x, 1);
    PaintedByte(len, w, h, stride, f, y, x, 2);
    PaintedByte(len, w, h, stride, f, y, x, 3);
  }

  /** The same alphas, with nothing but the neighbours that are passed over red. */
  ghost function Reddened(img: seq<byte>, w: nat, h: nat, stride: nat, y0: nat, x0: nat): (nat, nat) -> Pixel
    requires Fits(|img|, w, h, stride)
  {
    (y: nat, x: nat) =>
      if y < h && x < w then
        Pixel(if (x0 == 1 && y == y0 && x == 0) || (y0 == 1 && y == 0 && x == x0) then 255 else 0, 0, 0,
              Px(img, w, h, stride, y, x).a)
      else Pixel(0, 0, 0, 0)
  }

  ghost predicate SameAlphas(img: seq<byte>, img': seq<byte>, w: nat, h: nat, stride: nat)
    requires Fits(|img|, w, h, stride) && |img'| == |img|
  {
    forall y: nat, x: nat :: y < h && x < w ==> Px(img', w, h, stride, y, x).a == Px(img, w, h, stride, y, x).a
  }

  /** No coincidence saves an arrangement of alphas: if a transparent pixel has a neighbour that is passed over,
      some colours with the same alphas come out wrong. */
  lemma MissedForSomeColours(img: seq<byte>, w: nat, h: nat, stride: nat, y: nat, x: nat) returns (img': seq<byte>)
    requires Fits(|img|, w, h, stride) && y < h && x < w
    requires Px(img, w, h, stride, y, x).a == 0 && Misses(img, w, h, stride, y, x)
    ensures |img'| == |img| && SameAlphas(img, img', w, h, stride)
    ensures DefringePx(img', w, h, stride, y, x) != FullDefringePx(img', w, h, stride, y, x)
  {
    hide Px, Painted, DefringePx, FullDefringePx;
    var f := Reddened(img, w, h, stride, y, x);
    img' := Painted(|img|, w, stride, f);
    forall y': nat, x': nat | y' < h && x' < w ensures Px(img', w, h, stride, y', x') == f(y', x') {
      PaintedPx(|img|, w, h, stride, f, y', x');
    }
    RedMissed(img', w, h, stride, y, x);
  }

  lemma RedMissed(img: seq<byte>, w: nat, h: nat, stride: nat, y: nat, x: nat)
    requires Fits(|img|, w, h, stride) && y < h && x < w && Misses(img, w, h, stride, y, x)
    requires Px(img, w, h, stride, y, x) == Pixel(0, 0, 0, 0)
    requires forall y': nat, x': nat :: y' < h && x' < w ==>
               Px(img, w, h, stride, y', x').r
               == if (x == 1 && y' == y && x' == 0) || (y == 1 && y' == 0 && x' == x) then 255 else 0
    ensures DefringePx(img, w, h, stride, y, x) != FullDefringePx(img, w, h, stride, y, x)
  {
    hide Px, Neighbours, FourNeighbours, Filled, Misses;
    NoRed(img, w, h, stride, y, x);
    SomeRed(img, w, h, stride, y, x);
    RedDiffers(Neighbours(img, w, h, stride, y, x), FourNeighbours(img, w, h, stride, y, x));
  }

  lemma RedDiffers(s: Gather, f: Gather)
    requires s.r == 0 && 1 <= f.n <= 4 && 255 <= f.r <= 255 * f.n
    ensures Filled(Pixel(0, 0, 0, 0), s) != Filled(Pixel(0, 0, 0, 0), f)
  {
    Average(f.r, f.n);
    if s.n > 0 {
      Nothing(s.n);
    }
  }

  lemma Nothing(n: nat)
    requires n > 0
    ensures 0 / n == 0
  {
  }

  lemma NoRed(img: seq<byte>, w: nat, h: nat, stride: nat, y: nat, x: nat)
    requires Fits(|img|, w, h, stride) && y < h && x < w
    requires forall y': nat, x': nat :: y' < h && x' < w ==>
               Px(img, w, h, stride, y', x').r
               == if (x == 1 && y' == y && x' == 0) || (y == 1 && y' == 0 && x' == x) then 255 else 0
    ensures Neighbours(img, w, h, stride, y, x).r == 0
  {
    hide Px;
  }

  lemma SomeRed(img: seq<byte>, w: nat, h: nat, stride: nat, y: nat, x: nat)
    requires Fits(|img|, w, h, stride) && y < h && x < w && Misses(img, w, h, stride, y, x)
    requires x == 1 ==> Px(img, w, h, stride, y, 0).r == 255
    requires y == 1 ==> Px(img, w, h, stride, 0, x).r == 255
    ensures var f := FourNeighbours(img, w, h, stride, y, x); 1 <= f.n <= 4 && 255 <= f.r <= 255 * f.n
  {
    hide Px;
  }

  lemma Average(r: nat, n: nat)
    requires 1 <= n <= 4 && 255 <= r <= 255 * n
    ensures 63 <= r / n <= 255
  {
  }

  /** The pixel, if it is visible. */
  function Visible(p: Pixel): seq<Pixel> {
    if p.a != 0 then [p] else []
  }

  /** The visible neighbours that the pass looks at. */
  function LookedAt(img: seq<byte>, w: nat, h: nat, stride: nat, y: nat, x: nat): seq<Pixel>
    requires Fits(|img|, w, h, stride) && y < h && x < w
  {
    (if x > 1 then Visible(Px(img, w, h, stride, y, x - 1)) else [])
    + (if x + 1 < w then Visible(Px(img, w, h, stride, y, x + 1)) else [])
    + (if y > 1 then Visible(Px(img, w, h, stride, y - 1, x)) else [])
    + (if y + 1 < h then Visible(Px(img, w, h, stride, y + 1, x)) else [])
  }

  function Red(p: Pixel): byte {
    p.r
  }

  function Green(p: Pixel): byte {
    p.g
  }

  function Blue(p: Pixel): byte {
    p.b
  }

  function Total(ps: seq<Pixel>, channel: Pixel -> byte): nat {
    if ps == [] then 0 else Total(ps[..|ps| - 1], channel) + channel(ps[|ps| - 1])
  }

  /** `c` is the mean of that channel, rounded down. */
  predicate IsMean(c: byte, ps: seq<Pixel>, channel: Pixel -> byte) {
    c * |ps| <= Total(ps, channel) < (c + 1) * |ps|
  }

  /** What a gather amounts to. */
  ghost predicate Gathers(s: Gather, ps: seq<Pixel>) {
    && s.n == |ps| && s.r == Total(ps, Red) && s.g == Total(ps, Green)
    && s.b == Total(ps, Blue)
  }

  lemma GathersNone()
    ensures Gathers(Gather(0, 0, 0, 0), [])
  {
  }

  lemma GathersMore(s: Gather, ps: seq<Pixel>, p: Pixel)
    requires Gathers(s, ps)
    ensures Gathers(s.Add(p), ps + Visible(p))
  {
    if p.a != 0 {
      assert (ps + [p])[..|ps|] == ps;
    } else {
      assert ps + [] == ps;
    }
  }

  lemma GathersLookedAt(img: seq<byte>, w: nat, h: nat, stride: nat, y: nat, x: nat)
    requires Fits(|img|, w, h, stride) && y < h && x < w
    ensures Gathers(Neighbours(img, w, h, stride, y, x), LookedAt(img, w, h, stride, y, x))
  {
    hide Gathers, Px, Visible, Gather.Add;
    GathersNone();
    var s1, p1 := MaybeAdd(Gather(0, 0, 0, 0), [], x > 1, if x > 1 then Px(img, w, h, stride, y, x - 1) else NOTHING);
    assert p1 == if x > 1 then Visible(Px(img, w, h, stride, y, x - 1)) else [];
    var s2, p2 := MaybeAdd(s1, p1, x + 1 < w, if x + 1 < w then Px(img, w, h, stride, y, x + 1) else NOTHING);
    var s3, p3 := MaybeAdd(s2, p2, y > 1, if y > 1 then Px(img, w, h, stride, y - 1, x) else NOTHING);
    var s4, p4 := MaybeAdd(s3, p3, y + 1 < h, if y + 1 < h then Px(img, w, h, stride, y + 1, x) else NOTHING);
    assert s4 == Neighbours(img, w, h, stride, y, x);
    assert p4 == LookedAt(img, w, h, stride, y, x);
  }

  const NOTHING := Pixel(0, 0, 0, 0)

  lemma MaybeAdd(s: Gather, ps: seq<Pixel>, take: bool, p: Pixel) returns (s': Gather, ps': seq<Pixel>)
    requires Gathers(s, ps)
    ensures s' == (if take then s.Add(p) else s) && ps' == ps + (if take then Visible(p) else []) && Gathers(s', ps')
  {
    s', ps' := if take then s.Add(p) else s, ps + if take then Visible(p) else [];
    GathersMore(s, ps, p);
    assert ps + [] == ps;
    hide Gathers;
  }

  /** What the pass stores in a pixel: nothing new if it is visible or has no such neighbour, else in each channel the
      mean of these neighbours. */
  lemma StoredIsMean(img: seq<byte>, w: nat, h: nat, stride: nat, y: nat, x: nat)
    requires Fits(|img|, w, h, stride) && y < h && x < w
    ensures var p, d, ps := Px(img, w, h, stride, y, x), DefringePx(img, w, h, stride, y, x),
                            LookedAt(img, w, h, stride, y, x);
            if p.a != 0 || ps == [] then d == p
            else d.a == 0 && IsMean(d.r, ps, Red) && IsMean(d.g, ps, Green)
                 && IsMean(d.b, ps, Blue)
  {
    GathersLookedAt(img, w, h, stride, y, x);
    DefringeFits(img, w, h, stride, y, x);
    var s := Neighbours(img, w, h, stride, y, x);
    hide Px, Neighbours, LookedAt, Total, TruncByte;
    if s.n > 0 {
      MeanOf(s.r, s.n);
      MeanOf(s.g, s.n);
      MeanOf(s.b, s.n);
    }
  }

  lemma MeanOf(sum: nat, n: nat)
    requires n > 0 && sum / n <= 255
    ensures TruncByte(sum / n) == sum / n && sum / n * n <= sum < (sum / n + 1) * n
  {
  }
}
