/** The integer fitness function `rate` shared by the optimisers: the
    negated sum of squared per-channel differences between a reference
    image and a rendered one, taken over the interior only (the first and
    last row and column are never read). path-guessing3.c++ scales every
    difference by PIXEL_COST; the other two tools use a factor of one. */
module Rating {
  import opened Pixels
  import opened Arith

  /** Multiplier of path-guessing3.c++ (PIXEL_COST). */
  const PIXEL_COST := 10

  /** The global `badpixel` of path-evolving.c++: pixel() returns it for
      every coordinate outside the surface. It is a zero-initialised global
      that no modelled code writes through, so it reads as 0. */
  function PixelAt(img: Image, x: int, y: int): Pixel
    reads img
  {
    if Inside(img, x, y) then img[x, y] else Blank
  }

  function Sq(v: int): (r: nat)
    ensures r == 0 <==> v == 0
  {
    SquareFacts(v);
    v * v
  }

  lemma SquareFacts(v: int)
    ensures v * v >= 0 && (v * v == 0 <==> v == 0)
  {
    if v < 0 {
      assert v * v == (-v) * (-v);
    }
  }

  /** The per-pixel difference of rate: (r1-r2)^2 + (g1-g2)^2 + (b1-b2)^2. */
  function Delta(p: Pixel, q: Pixel): (d: nat)
    ensures d == 0 <==> SameChannels(p, q)
  {
    var r1, r2, g1, g2, b1, b2 := Red(p), Red(q), Green(p), Green(q), Blue(p), Blue(q);
    Sq(r1 - r2) + Sq(g1 - g2) + Sq(b1 - b2)
  }

  predicate SameChannels(p: Pixel, q: Pixel) {
    Red(p) == Red(q) && Green(p) == Green(q) && Blue(p) == Blue(q)
  }

  /** Differences of row y for the columns 1 .. n - 1. */
  function RowCost(reference: Image, rendered: Image, y: int, n: int): nat
    requires 0 <= y < reference.Length1 && (n <= 1 || n <= reference.Length0)
    reads reference, rendered
    decreases n
  {
    if n <= 1 then 0
    else RowCost(reference, rendered, y, n - 1) + Delta(reference[n - 1, y], PixelAt(rendered, n - 1, y))
  }

  /** Differences of the interior columns of rows 1 .. m - 1. */
  function RowsCost(reference: Image, rendered: Image, m: int): nat
    requires m <= 1 || m <= reference.Length1
    reads reference, rendered
    decreases m
  {
    if m <= 1 then 0
    else RowsCost(reference, rendered, m - 1) + RowCost(reference, rendered, m - 1, reference.Length0 - 1)
  }

  /** The sum rate negates: every interior pixel, rows 1 .. h - 2 and columns 1 .. w - 2. */
  function InteriorCost(reference: Image, rendered: Image): nat
    reads reference, rendered
  {
    RowsCost(reference, rendered, reference.Length1 - 1)
  }

  /** rate(reference, rendered), with the stored difference scaled by pixelCost. */
  method Rate(reference: Image, rendered: Image, pixelCost: int) returns (value: int)
    ensures value == -(pixelCost * InteriorCost(reference, rendered))
    ensures pixelCost >= 0 ==> value <= 0
  {
    value := 0;
    var y := 1;
    while y < reference.Length1 - 1
      invariant 1 <= y && (y <= reference.Length1 - 1 || y == 1)
      invariant value == -(pixelCost * RowsCost(reference, rendered, y))
    {
      var value0 := value;
      value := RateRow(reference, rendered, pixelCost, y, value);
      ghost var done, row := RowsCost(reference, rendered, y), RowCost(reference, rendered, y, reference.Length0 - 1);
      assert RowsCost(reference, rendered, y + 1) == done + row;
      ScaledSum(pixelCost, done, row, value0, value);
      y := y + 1;
    }
    NonNegative(pixelCost, InteriorCost(reference, rendered));
  }

  /** Subtracting c * b from -(c * a) gives -(c * (a + b)). */
  lemma ScaledSum(c: int, a: int, b: int, v0: int, v: int)
    requires v0 == -(c * a) && v == v0 - c * b
    ensures v == -(c * (a + b))
  {
    Distribute(c, a, b);
  }

  /** The inner loop of rate over the interior columns of row y. */
  method RateRow(reference: Image, rendered: Image, pixelCost: int, y: int, value0: int) returns (value: int)
    requires 1 <= y < reference.Length1 - 1
    ensures value == value0 - pixelCost * RowCost(reference, rendered, y, reference.Length0 - 1)
  {
    value := value0;
    var x := 1;
    while x < reference.Length0 - 1
      invariant 1 <= x && (x <= reference.Length0 - 1 || x == 1)
      invariant value == value0 - pixelCost * RowCost(reference, rendered, y, x)
    {
      var delta := Delta(reference[x, y], PixelAt(rendered, x, y));
      Distribute(pixelCost, RowCost(reference, rendered, y, x), delta);
      value := value - pixelCost * delta;
      x := x + 1;
    }
  }

  lemma NonNegative(c: int, a: nat)
    ensures c >= 0 ==> -(c * a) <= 0
  {
  }

  /** A row sum is zero exactly when every pixel of the row agrees on all three channels. */
  lemma {:induction false} RowCostZero(reference: Image, rendered: Image, y: int, n: int)
    requires 0 <= y < reference.Length1 && n <= reference.Length0
    ensures RowCost(reference, rendered, y, n) == 0 <==>
      forall x :: 1 <= x < n ==> SameChannels(reference[x, y], PixelAt(rendered, x, y))
    decreases n
  {
    if n > 1 {
      RowCostZero(reference, rendered, y, n - 1);
    }
  }

  lemma {:induction false} RowsCostZero(reference: Image, rendered: Image, m: int)
    requires m <= reference.Length1
    ensures RowsCost(reference, rendered, m) == 0 <==>
      forall x, y :: 1 <= y < m && 1 <= x < reference.Length0 - 1 ==> SameChannels(reference[x, y], PixelAt(rendered, x, y))
    decreases m
  {
    if m > 1 {
      RowsCostZero(reference, rendered, m - 1);
      RowCostZero(reference, rendered, m - 1, reference.Length0 - 1);
    }
  }

  /** rate is 0 exactly when the two images agree on every interior pixel. */
  lemma RateZeroIff(reference: Image, rendered: Image)
    ensures InteriorCost(reference, rendered) == 0 <==>
      forall x, y :: Interior(reference, x, y) ==> SameChannels(reference[x, y], PixelAt(rendered, x, y))
  {
    RowsCostZero(reference, rendered, reference.Length1 - 1);
  }

  /** Row and column 0 and the last row and column are never read: images
      that agree on the interior get the same rate. */
  lemma {:induction false} RowCostFrame(a: Image, b: Image, a': Image, b': Image, y: int, n: int)
    requires a.Length0 == a'.Length0 && a.Length1 == a'.Length1
    requires 0 <= y < a.Length1 && n <= a.Length0
    requires forall x :: 1 <= x < n ==> a[x, y] == a'[x, y] && PixelAt(b, x, y) == PixelAt(b', x, y)
    ensures RowCost(a, b, y, n) == RowCost(a', b', y, n)
    decreases n
  {
    if n > 1 {
      RowCostFrame(a, b, a', b', y, n - 1);
    }
  }

  lemma {:induction false} RowsCostFrame(a: Image, b: Image, a': Image, b': Image, m: int)
    requires a.Length0 == a'.Length0 && a.Length1 == a'.Length1 && m <= a.Length1
    requires forall x, y :: 1 <= y < m && 1 <= x < a.Length0 - 1 ==> a[x, y] == a'[x, y] && PixelAt(b, x, y) == PixelAt(b', x, y)
    ensures RowsCost(a, b, m) == RowsCost(a', b', m)
    decreases m
  {
    if m > 1 {
      RowsCostFrame(a, b, a', b', m - 1);
      RowCostFrame(a, b, a', b', m - 1, a.Length0 - 1);
    }
  }

  lemma RateIgnoresBorder(a: Image, b: Image, a': Image, b': Image)
    requires a.Length0 == a'.Length0 && a.Length1 == a'.Length1
    requires forall x, y :: Interior(a, x, y) ==> a[x, y] == a'[x, y] && PixelAt(b, x, y) == PixelAt(b', x, y)
    ensures InteriorCost(a, b) == InteriorCost(a', b')
  {
    RowsCostFrame(a, b, a', b', a.Length1 - 1);
  }

  /** The combined score of the optimisers: rate - stitchCount * STITCH_COST. */
  function Score(rate: int, stitches: nat, stitchCost: nat): (q: int)
    ensures q <= rate
    ensures q == rate <==> stitches == 0 || stitchCost == 0
  {
    rate - stitches * stitchCost
  }
}
