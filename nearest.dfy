/** The nearest-foreground search the three fill tools share
    (path-filling.c++, path-filling2.c++ and findStart in
    path-filling3.c++): scan the image row by row and keep the first
    foreground pixel (red byte non-zero) of strictly smallest squared
    distance to the cursor, starting from the bound 999999999. */
module Nearest {
  import opened Pixels
  import opened Rating

  const NO_DIST := 999999999

  /** bestX, bestY and bestDist; x == -1 while nothing was found. */
  datatype Best = Best(x: int, y: int, dist: int)

  const NONE := Best(-1, -1, NO_DIST)

  /** (cx - x) * (cx - x) + (cy - y) * (cy - y) */
  function Dist(cx: int, cy: int, x: int, y: int): nat {
    Sq(cx - x) + Sq(cy - y)
  }

  /** (x, y) comes before (u, v) in row-major order. */
  predicate Before(x: int, y: int, u: int, v: int) {
    y < v || (y == v && x < u)
  }

  /** The body of the inner loop for pixel (x, y). */
  function Consider(img: Image, cx: int, cy: int, x: int, y: int, b: Best): Best
    requires Inside(img, x, y)
    reads img
  {
    if Fg(img, x, y) && Dist(cx, cy, x, y) < b.dist then Best(x, y, Dist(cx, cy, x, y)) else b
  }

  /** The best after the first n pixels of row y, starting from b. */
  function ScanRow(img: Image, cx: int, cy: int, y: int, n: nat, b: Best): Best
    requires 0 <= y < img.Length1 && n <= img.Length0
    reads img
    decreases n
  {
    if n == 0 then b else Consider(img, cx, cy, n - 1, y, ScanRow(img, cx, cy, y, n - 1, b))
  }

  /** The best after the first m rows. */
  function ScanRows(img: Image, cx: int, cy: int, m: nat): Best
    requires m <= img.Length1
    reads img
  {
    if m == 0 then NONE else ScanRow(img, cx, cy, m - 1, img.Length0, ScanRows(img, cx, cy, m - 1))
  }

  function NearestTo(img: Image, cx: int, cy: int): Best
    reads img
  {
    ScanRows(img, cx, cy, img.Length1)
  }

  // ----- what the scan finds

  /** (x, y) is among the first n pixels of row y0 or in an earlier row. */
  predicate Scanned(img: Image, x: int, y: int, y0: int, n: int) {
    Inside(img, x, y) && (y < y0 || (y == y0 && x < n))
  }

  /** What holds of the best after a scan up to row y0, column n. */
  ghost predicate ScanInv(img: Image, cx: int, cy: int, b: Best, y0: int, n: int)
    reads img
  {
    (b.x < 0 ==> b == NONE) &&
    (b.x >= 0 ==> Scanned(img, b.x, b.y, y0, n) && Fg(img, b.x, b.y) && b.dist == Dist(cx, cy, b.x, b.y)) &&
    b.dist <= NO_DIST && (b.x >= 0 ==> b.dist < NO_DIST) &&
    (forall x, y :: Scanned(img, x, y, y0, n) && Fg(img, x, y) ==> Dist(cx, cy, x, y) >= b.dist) &&
    (forall x, y :: Scanned(img, x, y, y0, n) && Fg(img, x, y) && Before(x, y, b.x, b.y) ==> Dist(cx, cy, x, y) > b.dist)
  }

  lemma {:induction false} ScanRowInv(img: Image, cx: int, cy: int, y: int, n: nat, b: Best)
    requires 0 <= y < img.Length1 && n <= img.Length0 && ScanInv(img, cx, cy, b, y, 0)
    ensures ScanInv(img, cx, cy, ScanRow(img, cx, cy, y, n, b), y, n)
    decreases n
  {
    if n > 0 {
      ScanRowInv(img, cx, cy, y, n - 1, b);
    }
  }

  lemma {:induction false} ScanRowsInv(img: Image, cx: int, cy: int, m: nat)
    requires m <= img.Length1
    ensures ScanInv(img, cx, cy, ScanRows(img, cx, cy, m), m, 0)
    decreases m
  {
    if m > 0 {
      var b := ScanRows(img, cx, cy, m - 1);
      ScanRowsInv(img, cx, cy, m - 1);
      ScanRowInv(img, cx, cy, m - 1, img.Length0, b);
      var r := ScanRow(img, cx, cy, m - 1, img.Length0, b);
      forall x, y | Scanned(img, x, y, m, 0)
        ensures Scanned(img, x, y, m - 1, img.Length0)
      {
      }
    }
  }

  /** b is what the search should find: nothing when no foreground pixel
      is closer than the bound, and otherwise a foreground pixel of least
      distance, the first of those in row-major order. */
  ghost predicate IsNearest(img: Image, cx: int, cy: int, b: Best)
    reads img
  {
    (b.x < 0 ==> b == NONE) &&
    (b.x >= 0 ==> Inside(img, b.x, b.y) && Fg(img, b.x, b.y) && b.dist == Dist(cx, cy, b.x, b.y) < NO_DIST) &&
    (forall x, y :: Inside(img, x, y) && Fg(img, x, y) ==> Dist(cx, cy, x, y) >= b.dist) &&
    (forall x, y :: Inside(img, x, y) && Fg(img, x, y) && Before(x, y, b.x, b.y) ==> Dist(cx, cy, x, y) > b.dist)
  }

  /** The search finds a foreground pixel exactly when one lies closer than
      the bound; what it finds is at minimal squared distance and no other
      foreground pixel at that distance comes earlier in row-major order. */
  lemma NearestIsNearest(img: Image, cx: int, cy: int)
    ensures IsNearest(img, cx, cy, NearestTo(img, cx, cy))
  {
    ScanRowsInv(img, cx, cy, img.Length1);
    var b := NearestTo(img, cx, cy);
    forall x, y | Inside(img, x, y)
      ensures Scanned(img, x, y, img.Length1, 0)
    {
    }
  }

  /** Squares grow with the magnitude. */
  lemma SqMonotone(a: int, b: int)
    requires -b <= a <= b
    ensures Sq(a) <= Sq(b)
  {
    if a >= 0 {
      assert a * a <= a * b <= b * b;
    } else {
      assert a * a == (-a) * (-a) <= (-a) * b <= b * b;
    }
  }

  /** Within one image no squared distance exceeds the squared diagonal, so
      the bound 999999999 is never reached when the diagonal is shorter. */
  lemma DistWithinImage(img: Image, cx: int, cy: int, x: int, y: int)
    requires Inside(img, cx, cy) && Inside(img, x, y)
    ensures Dist(cx, cy, x, y) <= Sq(img.Length0 - 1) + Sq(img.Length1 - 1)
  {
    SqMonotone(cx - x, img.Length0 - 1);
    SqMonotone(cy - y, img.Length1 - 1);
  }

  /** One unit towards zero. */
  function Toward(v: int): (s: int)
    ensures -1 <= s <= 1 && (v == 0 <==> s == 0)
  {
    if v > 0 then 1 else if v < 0 then -1 else 0
  }

  lemma SqShrinks(a: int)
    ensures Sq(a - Toward(a)) <= Sq(a)
    ensures a != 0 ==> Sq(a - Toward(a)) < Sq(a)
  {
    if a > 0 {
      assert (a - 1) * (a - 1) == a * a - 2 * a + 1;
    } else if a < 0 {
      assert (a + 1) * (a + 1) == a * a + 2 * a + 1;
    }
  }

  /** The neighbour of (x, y) one step towards the cursor is strictly closer
      to it, unless the cursor is (x, y) itself. */
  lemma CloserNeighbour(cx: int, cy: int, x: int, y: int)
    requires (cx, cy) != (x, y)
    ensures Dist(cx, cy, x + Toward(cx - x), y + Toward(cy - y)) < Dist(cx, cy, x, y)
  {
    SqShrinks(cx - x);
    SqShrinks(cy - y);
    assert cx - (x + Toward(cx - x)) == (cx - x) - Toward(cx - x);
    assert cy - (y + Toward(cy - y)) == (cy - y) - Toward(cy - y);
  }

  // ----- the loops

  /** The inner loop of the search: row y, starting from the best so far. */
  method ScanRowLoop(img: Image, cx: int, cy: int, y: int, b0: Best) returns (b: Best)
    requires 0 <= y < img.Length1
    ensures b == ScanRow(img, cx, cy, y, img.Length0, b0)
  {
    b := b0;
    var x := 0;
    while x < img.Length0
      invariant 0 <= x <= img.Length0 && b == ScanRow(img, cx, cy, y, x, b0)
    {
      if Red(img[x, y]) != 0 {
        var dist := (cx - x) * (cx - x) + (cy - y) * (cy - y);
        assert dist == Dist(cx, cy, x, y);
        if dist < b.dist {
          b := Best(x, y, dist);
        }
      }
      x := x + 1;
    }
  }

  /** The two nested loops: bestX, bestY and bestDist after the scan. */
  method NearestForeground(img: Image, cx: int, cy: int) returns (b: Best)
    ensures b == NearestTo(img, cx, cy)
  {
    b := NONE;
    var y := 0;
    while y < img.Length1
      invariant 0 <= y <= img.Length1 && b == ScanRows(img, cx, cy, y)
    {
      b := ScanRowLoop(img, cx, cy, y, b);
      y := y + 1;
    }
  }
}
