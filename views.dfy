/** simulateRGBView: the box-filter downsample applied to the reference
    image and to every rendering before rate compares them.

    path-evolving.c++ and path-guessing.c++ average each SCALE x SCALE block
    (BlockPixel); path-guessing3.c++ averages the in-bounds part of the
    (2 SCALE + 1)^2 window centred on (x SCALE, y SCALE) (WindowPixel).
    Either way the output pixel packs the three floor means and alpha 0xff. */
module Views {
  import opened Pixels
  import opened Rating
  import opened Arith

  /** Channel c of a pixel: 0 red, 1 green, 2 blue. */
  function Chan(p: Pixel, c: int): (v: int)
    ensures 0 <= v < 256
  {
    if c == 0 then Red(p) else if c == 1 then Green(p) else Blue(p)
  }

  // ----- the SCALE x SCALE block of path-evolving.c++ and path-guessing.c++

  /** Pixel (xx, yy) of output block (x, y): source pixel (x SCALE + xx, y SCALE + yy). */
  function Sample(src: Image, x: int, y: int, s: int, xx: int, yy: int): Pixel
    reads src
  {
    PixelAt(src, x * s + xx, y * s + yy)
  }

  /** Channel c summed over columns 0 .. n - 1 of row yy of block (x, y). */
  function BlockRow(src: Image, x: int, y: int, s: int, yy: int, n: int, c: int): (t: nat)
    reads src
    ensures t <= 255 * (if n < 0 then 0 else n)
    decreases n
  {
    if n <= 0 then 0
    else BlockRow(src, x, y, s, yy, n - 1, c) + Chan(Sample(src, x, y, s, n - 1, yy), c)
  }

  /** Channel c summed over rows 0 .. m - 1 of block (x, y). */
  function BlockSum(src: Image, x: int, y: int, s: int, m: int, c: int): nat
    reads src
    decreases m
  {
    if m <= 0 then 0
    else BlockSum(src, x, y, s, m - 1, c) + BlockRow(src, x, y, s, m - 1, s, c)
  }

  lemma {:induction false} BlockSumBound(src: Image, x: int, y: int, s: int, m: int, c: int)
    requires s >= 1 && m >= 0
    ensures BlockSum(src, x, y, s, m, c) <= 255 * (s * m)
    decreases m
  {
    if m > 0 {
      BlockSumBound(src, x, y, s, m - 1, c);
      Distribute(s, m - 1, 1);
    }
  }

  /** The floor mean r / (SCALE * SCALE) of one channel of the block. */
  function BlockMean(src: Image, x: int, y: int, s: int, c: int): (v: int)
    requires s >= 1
    reads src
    ensures 0 <= v < 256
  {
    var n := s * s;
    BlockSumBound(src, x, y, s, s, c);
    MeanBound(BlockSum(src, x, y, s, s, c), n);
    BlockSum(src, x, y, s, s, c) / n
  }

  /** Output pixel (x, y) of the block view. */
  function BlockPixel(src: Image, x: int, y: int, s: int): (p: Pixel)
    requires s >= 1
    reads src
    ensures Alpha(p) == 0xff
    ensures Red(p) == BlockMean(src, x, y, s, 0) && Green(p) == BlockMean(src, x, y, s, 1)
    ensures Blue(p) == BlockMean(src, x, y, s, 2)
  {
    Pack(BlockMean(src, x, y, s, 0), BlockMean(src, x, y, s, 1), BlockMean(src, x, y, s, 2))
  }

  /** The two inner loops: the three channel sums of one block. */
  method SumBlock(src: Image, x: int, y: int, s: int) returns (r: int, g: int, b: int)
    requires s >= 1
    ensures r == BlockSum(src, x, y, s, s, 0) && g == BlockSum(src, x, y, s, s, 1)
    ensures b == BlockSum(src, x, y, s, s, 2)
  {
    r, g, b := 0, 0, 0;
    var yy := 0;
    while yy < s
      invariant 0 <= yy <= s
      invariant r == BlockSum(src, x, y, s, yy, 0) && g == BlockSum(src, x, y, s, yy, 1)
      invariant b == BlockSum(src, x, y, s, yy, 2)
    {
      var r0, g0, b0 := r, g, b;
      var xx := 0;
      while xx < s
        invariant 0 <= xx <= s
        invariant r == r0 + BlockRow(src, x, y, s, yy, xx, 0) && g == g0 + BlockRow(src, x, y, s, yy, xx, 1)
        invariant b == b0 + BlockRow(src, x, y, s, yy, xx, 2)
      {
        var p := PixelAt(src, x * s + xx, y * s + yy);
        assert p == Sample(src, x, y, s, xx, yy);
        r, g, b := r + Red(p), g + Green(p), b + Blue(p);
        xx := xx + 1;
      }
      yy := yy + 1;
    }
  }

  /** simulateRGBView(src, dst) of path-evolving.c++: every pixel of dst
      becomes the block mean of src. Reads outside src yield badpixel. */
  method BlockViewInto(src: Image, dst: Image, s: int)
    requires s >= 1 && src != dst
    modifies dst
    ensures forall x, y :: 0 <= x < dst.Length0 && 0 <= y < dst.Length1 ==> dst[x, y] == BlockPixel(src, x, y, s)
  {
    var y := 0;
    while y < dst.Length1
      invariant 0 <= y <= dst.Length1
      invariant forall x', y' :: 0 <= x' < dst.Length0 && 0 <= y' < y ==> dst[x', y'] == BlockPixel(src, x', y', s)
    {
      BlockViewRow(src, dst, s, y);
      y := y + 1;
    }
  }

  /** One iteration of the outer loop: row y of dst. */
  method BlockViewRow(src: Image, dst: Image, s: int, y: int)
    requires s >= 1 && src != dst && 0 <= y < dst.Length1
    modifies dst
    ensures forall x :: 0 <= x < dst.Length0 ==> dst[x, y] == BlockPixel(src, x, y, s)
    ensures forall x', y' :: 0 <= x' < dst.Length0 && 0 <= y' < dst.Length1 && y' != y ==> dst[x', y'] == old(dst[x', y'])
  {
    var x := 0;
    while x < dst.Length0
      invariant 0 <= x <= dst.Length0
      invariant forall x' :: 0 <= x' < x ==> dst[x', y] == BlockPixel(src, x', y, s)
      invariant forall x', y' :: 0 <= x' < dst.Length0 && 0 <= y' < dst.Length1 && y' != y ==> dst[x', y'] == old(dst[x', y'])
    {
      var p := BlockCell(src, x, y, s);
      dst[x, y] := p;
      x := x + 1;
    }
  }

  /** The pixel one block of src averages to. */
  method BlockCell(src: Image, x: int, y: int, s: int) returns (p: Pixel)
    requires s >= 1
    ensures p == BlockPixel(src, x, y, s)
  {
    var r, g, b := SumBlock(src, x, y, s);
    var n := s * s;
    BlockSumBound(src, x, y, s, s, 0);
    BlockSumBound(src, x, y, s, s, 1);
    BlockSumBound(src, x, y, s, s, 2);
    MeanBound(r, n);
    MeanBound(g, n);
    MeanBound(b, n);
    p := Pack(r / n, g / n, b / n);
  }

  /** simulateRGBView(src) of path-guessing.c++: a fresh surface of
      (w / SCALE) x (h / SCALE), filled as above. Every block lies inside
      src, so the unchecked pixel() of this file reads in bounds. */
  method BlockView(src: Image, s: int) returns (dst: Image)
    requires s >= 1
    ensures fresh(dst) && dst.Length0 == src.Length0 / s && dst.Length1 == src.Length1 / s
    ensures forall x, y :: 0 <= x < dst.Length0 && 0 <= y < dst.Length1 ==> dst[x, y] == BlockPixel(src, x, y, s)
  {
    dst := new Pixel[src.Length0 / s, src.Length1 / s];
    BlockViewInto(src, dst, s);
  }

  /** A block of one colour reproduces that colour. */
  lemma {:induction false} BlockRowUniform(src: Image, x: int, y: int, s: int, yy: int, n: int, c: int, v: int)
    requires forall xx :: 0 <= xx < n ==> Chan(Sample(src, x, y, s, xx, yy), c) == v
    ensures BlockRow(src, x, y, s, yy, n, c) == (if n < 0 then 0 else n) * v
    decreases n
  {
    if n > 0 {
      BlockRowUniform(src, x, y, s, yy, n - 1, c, v);
      assert (n - 1) * v + v == n * v;
    }
  }

  lemma {:induction false} BlockSumUniform(src: Image, x: int, y: int, s: int, m: int, c: int, v: int)
    requires s >= 1 && m >= 0
    requires forall xx, yy :: 0 <= xx < s && 0 <= yy < m ==> Chan(Sample(src, x, y, s, xx, yy), c) == v
    ensures BlockSum(src, x, y, s, m, c) == m * (s * v)
    decreases m
  {
    if m > 0 {
      BlockSumUniform(src, x, y, s, m - 1, c, v);
      BlockRowUniform(src, x, y, s, m - 1, s, c, v);
      var k := s * v;
      assert (m - 1) * k + k == m * k;
    }
  }

  lemma MeanOfUniform(s: int, v: int)
    requires s >= 1
    ensures s * (s * v) / (s * s) == v
  {
    var n := s * s;
    assert s * (s * v) == n * v;
    DivExact(n, v);
  }

  /** A block whose pixels all have the colour of q reproduces q's colour. */
  lemma BlockUniform(src: Image, x: int, y: int, s: int, q: Pixel)
    requires s >= 1
    requires forall xx, yy :: 0 <= xx < s && 0 <= yy < s ==> SameChannels(Sample(src, x, y, s, xx, yy), q)
    ensures SameChannels(BlockPixel(src, x, y, s), q)
  {
    forall c | 0 <= c < 3
      ensures BlockMean(src, x, y, s, c) == Chan(q, c)
    {
      BlockSumUniform(src, x, y, s, s, c, Chan(q, c));
      MeanOfUniform(s, Chan(q, c));
    }
    assert BlockMean(src, x, y, s, 0) == Chan(q, 0);
    assert BlockMean(src, x, y, s, 1) == Chan(q, 1);
    assert BlockMean(src, x, y, s, 2) == Chan(q, 2);
  }

  // ----- the centred window of path-guessing3.c++

  /** Is sample (xx, yy) of the window of output pixel (x, y) inside src? */
  predicate Hit(src: Image, x: int, y: int, s: int, xx: int, yy: int) {
    Inside(src, x * s + xx, y * s + yy)
  }

  /** Channel c summed over the in-bounds samples xx = -SCALE .. n - 1 of window row yy. */
  function WinRow(src: Image, x: int, y: int, s: int, yy: int, n: int, c: int): nat
    reads src
    decreases n + s
  {
    if n <= -s then 0
    else WinRow(src, x, y, s, yy, n - 1, c) + (if Hit(src, x, y, s, n - 1, yy) then Chan(Sample(src, x, y, s, n - 1, yy), c) else 0)
  }

  /** The number of in-bounds samples xx = -SCALE .. n - 1 of window row yy. */
  function WinRowCount(src: Image, x: int, y: int, s: int, yy: int, n: int): nat
    decreases n + s
  {
    if n <= -s then 0
    else WinRowCount(src, x, y, s, yy, n - 1) + (if Hit(src, x, y, s, n - 1, yy) then 1 else 0)
  }

  /** Rows yy = -SCALE .. m - 1 of the window, each over xx = -SCALE .. SCALE. */
  function WinSum(src: Image, x: int, y: int, s: int, m: int, c: int): nat
    reads src
    decreases m + s
  {
    if m <= -s then 0
    else WinSum(src, x, y, s, m - 1, c) + WinRow(src, x, y, s, m - 1, s + 1, c)
  }

  function WinCount(src: Image, x: int, y: int, s: int, m: int): nat
    decreases m + s
  {
    if m <= -s then 0
    else WinCount(src, x, y, s, m - 1) + WinRowCount(src, x, y, s, m - 1, s + 1)
  }

  lemma {:induction false} WinRowBound(src: Image, x: int, y: int, s: int, yy: int, n: int, c: int)
    ensures WinRow(src, x, y, s, yy, n, c) <= 255 * WinRowCount(src, x, y, s, yy, n)
    decreases n + s
  {
    if n > -s {
      WinRowBound(src, x, y, s, yy, n - 1, c);
    }
  }

  lemma {:induction false} WinSumBound(src: Image, x: int, y: int, s: int, m: int, c: int)
    ensures WinSum(src, x, y, s, m, c) <= 255 * WinCount(src, x, y, s, m)
    decreases m + s
  {
    if m > -s {
      WinSumBound(src, x, y, s, m - 1, c);
      WinRowBound(src, x, y, s, m - 1, s + 1, c);
    }
  }

  /** The centre pixel (x SCALE, y SCALE) is in bounds for every output
      pixel, so count >= 1 and the division never divides by zero. */
  predicate OutputPixel(src: Image, x: int, y: int, s: int) {
    s >= 1 && 0 <= x < src.Length0 / s && 0 <= y < src.Length1 / s
  }

  lemma CentreInside(src: Image, x: int, y: int, s: int)
    requires OutputPixel(src, x, y, s)
    ensures Hit(src, x, y, s, 0, 0)
  {
    CentreInAxis(src.Length0, x, s);
    CentreInAxis(src.Length1, y, s);
  }

  lemma CentreInAxis(w: int, x: int, s: int)
    requires s >= 1 && 0 <= x < w / s
    ensures 0 <= x * s < w
  {
    var q := w / s;
    assert q * s <= w;
    assert x * s <= (q - 1) * s by {
      MulBounds(s, q - 1 - x);
      assert s * (q - 1 - x) >= 0;
    }
  }

  lemma {:induction false} WinRowCountCentre(src: Image, x: int, y: int, s: int, n: int)
    requires s >= 1 && n >= 1 && Hit(src, x, y, s, 0, 0)
    ensures WinRowCount(src, x, y, s, 0, n) >= 1
    decreases n
  {
    if n > 1 {
      WinRowCountCentre(src, x, y, s, n - 1);
    }
  }

  lemma {:induction false} WinCountCentre(src: Image, x: int, y: int, s: int, m: int)
    requires s >= 1 && m >= 1 && Hit(src, x, y, s, 0, 0)
    ensures WinCount(src, x, y, s, m) >= 1
    decreases m
  {
    if m > 1 {
      WinCountCentre(src, x, y, s, m - 1);
    } else {
      WinRowCountCentre(src, x, y, s, s + 1);
    }
  }

  /** count of the full window: at least one sample, the centre. */
  function WinFullCount(src: Image, x: int, y: int, s: int): (n: int)
    requires OutputPixel(src, x, y, s)
    ensures 1 <= n <= (2 * s + 1) * (2 * s + 1)
  {
    CentreInside(src, x, y, s);
    WinCountCentre(src, x, y, s, s + 1);
    WinCountAtMost(src, x, y, s, s + 1);
    WinCount(src, x, y, s, s + 1)
  }

  lemma {:induction false} WinRowCountAtMost(src: Image, x: int, y: int, s: int, yy: int, n: int)
    requires s >= 0 && n >= -s
    ensures WinRowCount(src, x, y, s, yy, n) <= n + s
    decreases n + s
  {
    if n > -s {
      WinRowCountAtMost(src, x, y, s, yy, n - 1);
    }
  }

  lemma {:induction false} WinCountAtMost(src: Image, x: int, y: int, s: int, m: int)
    requires s >= 0 && m >= -s
    ensures WinCount(src, x, y, s, m) <= (2 * s + 1) * (m + s)
    decreases m + s
  {
    if m > -s {
      WinCountAtMost(src, x, y, s, m - 1);
      WinRowCountAtMost(src, x, y, s, m - 1, s + 1);
      Distribute(2 * s + 1, m + s - 1, 1);
    }
  }

  /** The floor mean r / count of one channel over the window. */
  function WinMean(src: Image, x: int, y: int, s: int, c: int): (v: int)
    requires OutputPixel(src, x, y, s)
    reads src
    ensures 0 <= v < 256
  {
    var n := WinFullCount(src, x, y, s);
    WinSumBound(src, x, y, s, s + 1, c);
    MeanBound(WinSum(src, x, y, s, s + 1, c), n);
    WinSum(src, x, y, s, s + 1, c) / n
  }

  /** Output pixel (x, y) of the windowed view. */
  function WindowPixel(src: Image, x: int, y: int, s: int): (p: Pixel)
    requires OutputPixel(src, x, y, s)
    reads src
    ensures Alpha(p) == 0xff
    ensures Red(p) == WinMean(src, x, y, s, 0) && Green(p) == WinMean(src, x, y, s, 1)
    ensures Blue(p) == WinMean(src, x, y, s, 2)
  {
    Pack(WinMean(src, x, y, s, 0), WinMean(src, x, y, s, 1), WinMean(src, x, y, s, 2))
  }

  /** The window loops of one output pixel: the channel sums and count of
      its in-bounds samples. */
  method SumWindow(src: Image, x: int, y: int, s: int) returns (r: int, g: int, b: int, count: int)
    requires s >= 1
    ensures r == WinSum(src, x, y, s, s + 1, 0) && g == WinSum(src, x, y, s, s + 1, 1)
    ensures b == WinSum(src, x, y, s, s + 1, 2) && count == WinCount(src, x, y, s, s + 1)
  {
    r, g, b, count := 0, 0, 0, 0;
    var yy := -s;
    while yy < s + 1
      invariant -s <= yy <= s + 1
      invariant r == WinSum(src, x, y, s, yy, 0) && g == WinSum(src, x, y, s, yy, 1)
      invariant b == WinSum(src, x, y, s, yy, 2) && count == WinCount(src, x, y, s, yy)
    {
      var r0, g0, b0, count0 := r, g, b, count;
      var xx := -s;
      while xx < s + 1
        invariant -s <= xx <= s + 1
        invariant r == r0 + WinRow(src, x, y, s, yy, xx, 0) && g == g0 + WinRow(src, x, y, s, yy, xx, 1)
        invariant b == b0 + WinRow(src, x, y, s, yy, xx, 2) && count == count0 + WinRowCount(src, x, y, s, yy, xx)
      {
        var px, py := x * s + xx, y * s + yy;
        if px < 0 || py < 0 || px >= src.Length0 || py >= src.Length1 {
          xx := xx + 1;
          continue;
        }
        assert Hit(src, x, y, s, xx, yy);
        var p := src[px, py];
        assert p == Sample(src, x, y, s, xx, yy);
        r, g, b, count := r + Red(p), g + Green(p), b + Blue(p), count + 1;
        xx := xx + 1;
      }
      yy := yy + 1;
    }
  }

  /** simulateRGBView(src) of path-guessing3.c++: a fresh (w / SCALE) x
      (h / SCALE) surface of window means. */
  method WindowView(src: Image, s: int) returns (dst: Image)
    requires s >= 1
    ensures fresh(dst) && dst.Length0 == src.Length0 / s && dst.Length1 == src.Length1 / s
    ensures forall x, y :: 0 <= x < dst.Length0 && 0 <= y < dst.Length1 ==>
      OutputPixel(src, x, y, s) && dst[x, y] == WindowPixel(src, x, y, s)
  {
    dst := new Pixel[src.Length0 / s, src.Length1 / s];
    var y := 0;
    while y < dst.Length1
      invariant 0 <= y <= dst.Length1
      invariant forall x', y' :: 0 <= x' < dst.Length0 && 0 <= y' < y ==>
        OutputPixel(src, x', y', s) && dst[x', y'] == WindowPixel(src, x', y', s)
    {
      WindowViewRow(src, dst, s, y);
      y := y + 1;
    }
  }

  method WindowViewRow(src: Image, dst: Image, s: int, y: int)
    requires s >= 1 && src != dst && dst.Length0 == src.Length0 / s && dst.Length1 == src.Length1 / s
    requires 0 <= y < dst.Length1
    modifies dst
    ensures forall x :: 0 <= x < dst.Length0 ==> OutputPixel(src, x, y, s) && dst[x, y] == WindowPixel(src, x, y, s)
    ensures forall x', y' :: 0 <= x' < dst.Length0 && 0 <= y' < dst.Length1 && y' != y ==> dst[x', y'] == old(dst[x', y'])
  {
    var x := 0;
    while x < dst.Length0
      invariant 0 <= x <= dst.Length0
      invariant forall x' :: 0 <= x' < x ==> OutputPixel(src, x', y, s) && dst[x', y] == WindowPixel(src, x', y, s)
      invariant forall x', y' :: 0 <= x' < dst.Length0 && 0 <= y' < dst.Length1 && y' != y ==> dst[x', y'] == old(dst[x', y'])
    {
      var p := WindowCell(src, x, y, s);
      dst[x, y] := p;
      x := x + 1;
    }
  }

  /** The pixel the window around output pixel (x, y) averages to. */
  method WindowCell(src: Image, x: int, y: int, s: int) returns (p: Pixel)
    requires s >= 1 && 0 <= x < src.Length0 / s && 0 <= y < src.Length1 / s
    ensures OutputPixel(src, x, y, s) && p == WindowPixel(src, x, y, s)
  {
    var r, g, b, count := SumWindow(src, x, y, s);
    assert OutputPixel(src, x, y, s);
    var n := WinFullCount(src, x, y, s);
    WinSumBound(src, x, y, s, s + 1, 0);
    WinSumBound(src, x, y, s, s + 1, 1);
    WinSumBound(src, x, y, s, s + 1, 2);
    MeanBound(r, count);
    MeanBound(g, count);
    MeanBound(b, count);
    p := Pack(r / count, g / count, b / count);
  }

  /** A window whose in-bounds pixels all have the colour of q reproduces it. */
  lemma {:induction false} WinRowUniform(src: Image, x: int, y: int, s: int, yy: int, n: int, c: int, v: int)
    requires forall xx :: -s <= xx < n && Hit(src, x, y, s, xx, yy) ==> Chan(Sample(src, x, y, s, xx, yy), c) == v
    ensures WinRow(src, x, y, s, yy, n, c) == v * WinRowCount(src, x, y, s, yy, n)
    decreases n + s
  {
    if n > -s {
      WinRowUniform(src, x, y, s, yy, n - 1, c, v);
      Distribute(v, WinRowCount(src, x, y, s, yy, n - 1), 1);
    }
  }

  lemma {:induction false} WinSumUniform(src: Image, x: int, y: int, s: int, m: int, c: int, v: int)
    requires forall xx, yy :: -s <= xx <= s && -s <= yy < m && Hit(src, x, y, s, xx, yy) ==> Chan(Sample(src, x, y, s, xx, yy), c) == v
    ensures WinSum(src, x, y, s, m, c) == v * WinCount(src, x, y, s, m)
    decreases m + s
  {
    if m > -s {
      WinSumUniform(src, x, y, s, m - 1, c, v);
      WinRowUniform(src, x, y, s, m - 1, s + 1, c, v);
      Distribute(v, WinCount(src, x, y, s, m - 1), WinRowCount(src, x, y, s, m - 1, s + 1));
    }
  }

  lemma WindowUniform(src: Image, x: int, y: int, s: int, q: Pixel)
    requires OutputPixel(src, x, y, s)
    requires forall xx, yy :: -s <= xx <= s && -s <= yy <= s && Hit(src, x, y, s, xx, yy) ==> SameChannels(Sample(src, x, y, s, xx, yy), q)
    ensures SameChannels(WindowPixel(src, x, y, s), q)
  {
    forall c | 0 <= c < 3
      ensures WinMean(src, x, y, s, c) == Chan(q, c)
    {
      WinSumUniform(src, x, y, s, s + 1, c, Chan(q, c));
      var n := WinFullCount(src, x, y, s);
      assert Chan(q, c) * n == n * Chan(q, c);
      DivExact(n, Chan(q, c));
    }
    assert WinMean(src, x, y, s, 0) == Chan(q, 0);
    assert WinMean(src, x, y, s, 1) == Chan(q, 1);
    assert WinMean(src, x, y, s, 2) == Chan(q, 2);
  }
}
