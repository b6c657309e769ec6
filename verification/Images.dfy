/** Bytes, pixels and the flat RGBA buffer that the rasterizer draws into: row `y` starts at byte
    `y * stride` and its pixels are four bytes wide, in the order red, green, blue, alpha. */
module Images {

  type byte = x: int | 0 <= x < 256

  /** The `(unsigned char)` cast: what is kept of an int that is stored into a byte. */
  function TruncByte(x: int): byte {
    x % 256
  }

  datatype Pixel = Pixel(r: byte, g: byte, b: byte, a: byte) {
    /** Colour channels never exceed alpha: the pixel is a legal premultiplied one. */
    predicate Premultiplied() {
      r <= a && g <= a && b <= a
    }
  }

  /** A buffer of `len` bytes holds `h` rows of `w` pixels, `stride` bytes apart. */
  predicate Fits(len: nat, w: nat, h: nat, stride: nat) {
    4 * w <= stride && (h == 0 || (h - 1) * stride + 4 * w <= len)
  }

  function Offset(stride: nat, y: nat, x: nat): nat {
    y * stride + 4 * x
  }

  lemma OffsetInRange(len: nat, w: nat, h: nat, stride: nat, y: nat, x: nat)
    requires Fits(len, w, h, stride) && y < h && x < w
    ensures Offset(stride, y, x) + 4 <= len
  {
    assert y * stride <= (h - 1) * stride;
  }

  lemma RowInRange(len: nat, w: nat, h: nat, stride: nat, y: nat)
    requires Fits(len, w, h, stride) && y < h
    ensures y * stride + 4 * w <= len
  {
    assert y * stride <= (h - 1) * stride;
  }

  /** Rows do not overlap: a later row starts after the last pixel of an earlier one. */
  lemma RowsApart(w: nat, stride: nat, y: nat, y': nat)
    requires 4 * w <= stride && y < y'
    ensures y * stride + 4 * w <= y' * stride
  {
    assert (y + 1) * stride <= y' * stride;
  }

  /** Different pixels occupy disjoint bytes. */
  lemma PixelsApart(w: nat, stride: nat, y: nat, x: nat, y': nat, x': nat)
    requires 4 * w <= stride && x < w && x' < w && (y, x) != (y', x')
    ensures Offset(stride, y, x) + 4 <= Offset(stride, y', x') || Offset(stride, y', x') + 4 <= Offset(stride, y, x)
  {
    if y < y' {
      RowsApart(w, stride, y, y');
    } else if y' < y {
      RowsApart(w, stride, y', y);
    }
  }

  function PixelAt(img: seq<byte>, at: nat): Pixel
    requires at + 4 <= |img|
  {
    Pixel(img[at], img[at + 1], img[at + 2], img[at + 3])
  }

  /** The pixel in row `y`, column `x`. */
  function Px(img: seq<byte>, w: nat, h: nat, stride: nat, y: nat, x: nat): Pixel
    requires Fits(|img|, w, h, stride) && y < h && x < w
  {
    OffsetInRange(|img|, w, h, stride, y, x);
    PixelAt(img, Offset(stride, y, x))
  }
}
