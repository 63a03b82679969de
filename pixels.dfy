/** The packed 32-bit pixel format every tool uses: surfaces are created
    with masks 0xff (red), 0xff00 (green), 0xff0000 (blue) and 0xff000000
    (alpha), so a pixel is one unsigned 32-bit word; its bytes, low to high, are
    red, green, blue and alpha. The model holds the four bytes and gives the
    word as Word. Surfaces are 2-D arrays indexed
    [x, y]; Length0 is the width and Length1 the height. */
module Pixels {

  type Byte = x: int | 0 <= x < 256

  /** A pixel, held as its four bytes. */
  datatype Pixel = Pixel(r: Byte, g: Byte, b: Byte, a: Byte)

  type Image = array2<Pixel>

  /** The unsigned 32-bit word the same pixel is in memory. */
  function Word(p: Pixel): (w: int)
    ensures 0 <= w < 0x1_0000_0000
    ensures w % 0x100 == p.r && w / 0x100 % 0x100 == p.g
    ensures w / 0x100 / 0x100 % 0x100 == p.b && w / 0x100 / 0x100 / 0x100 == p.a
  {
    var hi := p.b + 0x100 * p.a;
    var mid := p.g + 0x100 * hi;
    ByteSplit(p.b, p.a);
    ByteSplit(p.g, hi);
    ByteSplit(p.r, mid);
    p.r + 0x100 * mid
  }

  /** The low byte and the rest of lo + 256 hi. */
  lemma ByteSplit(lo: int, hi: int)
    requires 0 <= lo < 0x100
    ensures (lo + 0x100 * hi) % 0x100 == lo && (lo + 0x100 * hi) / 0x100 == hi
  {
  }

  /** Distinct pixels are distinct words, so comparing pixels is comparing words. */
  lemma WordInjective(p: Pixel, q: Pixel)
    requires Word(p) == Word(q)
    ensures p == q
  {
  }

  /** `pixel & 0xff`. */
  function Red(p: Pixel): (v: int)
    ensures 0 <= v < 256
  {
    p.r
  }

  /** `(pixel >> 8) & 0xff`. */
  function Green(p: Pixel): (v: int)
    ensures 0 <= v < 256
  {
    p.g
  }

  /** `(pixel >> 16) & 0xff`. */
  function Blue(p: Pixel): (v: int)
    ensures 0 <= v < 256
  {
    p.b
  }

  /** `pixel >> 24`. */
  function Alpha(p: Pixel): (v: int)
    ensures 0 <= v < 256
  {
    p.a
  }

  /** The pixel with the four given bytes. */
  function Compose(r: int, g: int, b: int, a: int): (p: Pixel)
    requires 0 <= r < 256 && 0 <= g < 256 && 0 <= b < 256 && 0 <= a < 256
    ensures Word(p) == r + 0x100 * (g + 0x100 * (b + 0x100 * a))
    ensures Red(p) == r && Green(p) == g && Blue(p) == b && Alpha(p) == a
  {
    Pixel(r, g, b, a)
  }

  /** The word simulateRGBView stores: r + g * 0x100 + b * 0x10000 + 0xff000000.
      With every channel below 256 the sum does not wrap; it packs the three
      channels and an opaque alpha. */
  function Pack(r: int, g: int, b: int): (p: Pixel)
    requires 0 <= r < 256 && 0 <= g < 256 && 0 <= b < 256
    ensures Word(p) == r + 0x100 * (g + 0x100 * (b + 0x100 * 0xff))
    ensures Red(p) == r && Green(p) == g && Blue(p) == b && Alpha(p) == 0xff
  {
    Compose(r, g, b, 0xff)
  }

  /** The word 0. */
  const Blank: Pixel := Pixel(0, 0, 0, 0)

  /** The colour written over every pixel a fill tool has stitched, 0xff800000. */
  const Stitched: Pixel := Pixel(0, 0, 0x80, 0xff)

  /** The colour path-filling2 writes over a start candidate whose region is
      too small, 0xff00ff00. */
  const Rejected: Pixel := Pixel(0, 0xff, 0, 0xff)

  lemma StitchedColour()
    ensures Word(Stitched) == 0xff800000
    ensures Red(Stitched) == 0 && Green(Stitched) == 0 && Blue(Stitched) == 0x80
  {
  }

  lemma RejectedColour()
    ensures Word(Rejected) == 0xff00ff00
    ensures Red(Rejected) == 0 && Green(Rejected) == 0xff
  {
  }

  /** `pixel |= 0x0100`: set bit 8, the low bit of the green byte, which
      the flood fills use as their visited mark; the other bytes stay. */
  function Mark(p: Pixel): (q: Pixel)
    ensures Green(q) % 2 == 1 && Red(q) == Red(p) && Blue(q) == Blue(p) && Alpha(q) == Alpha(p)
    ensures Green(p) % 2 == 1 ==> q == p
    ensures Green(p) % 2 == 0 ==> Green(q) == Green(p) + 1
  {
    if p.g % 2 == 1 then p else p.(g := p.g + 1)
  }

  /** `pixel &= 0xffff00ff`: clear the green byte, which holds the marks. */
  function ClearGreen(p: Pixel): (q: Pixel)
    ensures Green(q) == 0 && Red(q) == Red(p) && Blue(q) == Blue(p) && Alpha(q) == Alpha(p)
  {
    p.(g := 0)
  }

  /** A pixel whose green byte is clear has nothing to clear. */
  lemma ClearGreenFixed(p: Pixel)
    requires Green(p) == 0
    ensures ClearGreen(p) == p
  {
  }

  /** In-bounds read of image coordinates. */
  predicate Inside(img: Image, x: int, y: int) {
    0 <= x < img.Length0 && 0 <= y < img.Length1
  }

  /** Off the one-pixel border: all eight neighbours are in bounds. The
      rating loops visit exactly these pixels. */
  predicate Interior(img: Image, x: int, y: int) {
    1 <= x < img.Length0 - 1 && 1 <= y < img.Length1 - 1
  }

  /** `pixel(s, x, y) & 0xff`: the pixel still holds foreground. */
  predicate Fg(img: Image, x: int, y: int)
    requires Inside(img, x, y)
    reads img
  {
    Red(img[x, y]) != 0
  }

  /** The foreground pixels of an image. */
  ghost function FgSet(img: Image): set<(int, int)>
    reads img
  {
    set x, y | 0 <= x < img.Length0 && 0 <= y < img.Length1 && Fg(img, x, y) :: (x, y)
  }

  /** The image's columns as nested sequences, for stating what changed. */
  ghost function Snapshot(img: Image): (s: seq<seq<Pixel>>)
    reads img
    ensures |s| == img.Length0
    ensures forall i :: 0 <= i < |s| ==> |s[i]| == img.Length1
    ensures forall x, y :: Inside(img, x, y) ==> s[x][y] == img[x, y]
  {
    seq(img.Length0, x requires 0 <= x < img.Length0 reads img =>
      seq(img.Length1, y requires 0 <= y < img.Length1 reads img => img[x, y]))
  }

  /** A snapshot with the image's dimensions. */
  ghost predicate Shaped(s: seq<seq<Pixel>>, img: Image) {
    |s| == img.Length0 && forall x :: 0 <= x < |s| ==> |s[x]| == img.Length1
  }

  /** The foreground pixels of a snapshot. */
  ghost function FgOf(s: seq<seq<Pixel>>): set<(int, int)> {
    set x, y | 0 <= x < |s| && 0 <= y < |s[x]| && Red(s[x][y]) != 0 :: (x, y)
  }

  lemma SnapshotFg(img: Image)
    ensures FgOf(Snapshot(img)) == FgSet(img)
  {
    var s := Snapshot(img);
    forall q | q in FgSet(img)
      ensures q in FgOf(s)
    {
      assert s[q.0][q.1] == img[q.0, q.1];
    }
    forall q | q in FgOf(s)
      ensures q in FgSet(img)
    {
      assert s[q.0][q.1] == img[q.0, q.1];
    }
  }
}
