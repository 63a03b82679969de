/** path-filling2: path-filling with two refinements. A start candidate
    whose 8-connected foreground region has fewer than MINAREA pixels is
    painted over and the search repeated; and each walk, of a random length
    between MINSTITCH and MAXSTITCH - 1 moves, also stops once the cursor has
    strayed more than three pixels (squared distance MAXSTITCHERRORSQR) from
    the straight line the walk started on. */
module PathFilling2 {
  import opened Geometry
  import opened Pixels
  import opened Compass
  import opened Nearest
  import opened Contour
  import opened Rating
  import opened Regions
  import PathFilling

  const MINSTITCH := 20
  const MAXSTITCH := 70
  const MAXSTITCHERRORSQR := 9
  const MINAREA := 9

  /** The walk length for the k-th walk, `rand() % (MAXSTITCH - MINSTITCH) + MINSTITCH`,
      with the random numbers given as `draws`. */
  function WalkLength(draws: nat -> nat, k: nat): (n: nat)
    ensures MINSTITCH <= n < MAXSTITCH
  {
    draws(k) % (MAXSTITCH - MINSTITCH) + MINSTITCH
  }

  /** A pixel the fill has painted over: red byte zero, opaque, and blue
      0x80 (the stitched colour) or 0 (the rejected colour); the green byte
      is left to the flood fills. */
  predicate Painted(p: Pixel) {
    Red(p) == 0 && Alpha(p) == 0xff && (Blue(p) == 0x80 || Blue(p) == 0)
  }

  /** Both colours the fill writes are painted. */
  lemma PaintedColours()
    ensures Painted(Stitched) && Painted(Rejected)
  {
    StitchedColour();
    RejectedColour();
  }

  /** What the fill may do to one pixel: keep its red, blue and alpha bytes
      (the green byte only carries the flood fills' marks), or, when it was
      foreground, be painted over. */
  predicate Fills(before: Pixel, after: Pixel) {
    (Red(after) == Red(before) && Blue(after) == Blue(before) && Alpha(after) == Alpha(before))
    || (Red(before) != 0 && Painted(after))
  }

  /** Two rounds of filling are one. */
  lemma FillsTrans(a: Pixel, b: Pixel, c: Pixel)
    requires Fills(a, b) && Fills(b, c)
    ensures Fills(a, c)
  {
  }

  /** A flood fill changes only the green byte. */
  lemma ClearFills(b: Pixel, c: Pixel)
    requires c == ClearGreen(b) || c == Mark(ClearGreen(b))
    ensures Fills(b, c)
  {
  }

  /** Overwriting a foreground pixel with either colour fills it. */
  lemma PaintFills(b: Pixel, c: Pixel)
    requires Red(b) != 0 && (c == Stitched || c == Rejected)
    ensures Fills(b, c)
  {
    PaintedColours();
  }

  /** `(straightX - cx)^2 + (straightY - cy)^2`: how far p is from the point
      i moves along the starting direction from (sx, sy). */
  function Deviation(sx: int, sy: int, dir: nat, i: nat, p: (int, int)): nat
    requires dir < 8
  {
    Sq(sx + i * DirX(dir) - p.0) + Sq(sy + i * DirY(dir) - p.1)
  }

  /** hasAreaAbove(img, bestX, bestY, MINAREA) inside the start search, with
      what it keeps: the red bytes, so the foreground, the search's answer and
      the candidate's background neighbour are as they were. */
  method CheckArea(img: Image, cx: int, cy: int, b: Best) returns (ok: bool)
    requires Framed(img) && Inside(img, cx, cy) && !Fg(img, cx, cy)
    requires IsNearest(img, cx, cy, b) && b.x >= 0
    requires Interior(img, b.x, b.y) && HasBgNeighbour(img, b.x, b.y)
    modifies img
    ensures Framed(img) && !Fg(img, cx, cy) && FgSet(img) == old(FgSet(img))
    ensures IsNearest(img, cx, cy, b) && HasBgNeighbour(img, b.x, b.y)
    ensures ok <==> RegionHas(FgSet(img), (b.x, b.y), MINAREA)
    ensures forall x, y :: Inside(img, x, y) ==> Fills(old(img[x, y]), img[x, y])
    ensures forall x, y :: Inside(img, x, y) ==> Red(img[x, y]) == Red(old(img[x, y]))
    ensures forall x, y :: Inside(img, x, y) ==>
              img[x, y] == ClearGreen(old(img[x, y]))
              || (Red(old(img[x, y])) != 0 && img[x, y] == Mark(ClearGreen(old(img[x, y]))))
  {
    ghost var e: nat :| e < 8 && !FgAt(img, b.x, b.y, e);
    EightNeighbours(e, 0);
    ghost var S := FgSet(img);
    ok := HasAreaAbove(img, b.x, b.y, MINAREA);
    assert !FgAt(img, b.x, b.y, e);
    forall q | q in FgSet(img)
      ensures q in S
    {
      var u, v := q.0, q.1;
      assert Fg(img, u, v);
    }
    forall q | q in S
      ensures q in FgSet(img)
    {
      var u, v := q.0, q.1;
      assert Inside(img, u, v) && Fg(img, u, v);
    }
    forall x, y | Inside(img, x, y)
      ensures Fills(old(img[x, y]), img[x, y])
    {
      ClearFills(old(img[x, y]), img[x, y]);
    }
  }

  /** The do-while loop of path-filling2's main: search for the nearest
      foreground pixel to the background cursor; while the candidate's region
      is smaller than MINAREA, paint it with the rejected colour and search
      again. The answer is the nearest foreground pixel of the painted image,
      and when there is one its region has at least MINAREA pixels. */
  method FindStart(img: Image, cx: int, cy: int) returns (b: Best)
    requires Framed(img) && Inside(img, cx, cy) && !Fg(img, cx, cy)
    modifies img
    ensures Framed(img) && !Fg(img, cx, cy) && FgSet(img) <= old(FgSet(img))
    ensures forall x, y :: Inside(img, x, y) ==> Fills(old(img[x, y]), img[x, y])
    ensures IsNearest(img, cx, cy, b)
    ensures b.x >= 0 ==> Interior(img, b.x, b.y) && HasBgNeighbour(img, b.x, b.y)
    ensures b.x >= 0 ==> RegionHas(FgSet(img), (b.x, b.y), MINAREA)
  {
    ghost var orig := Snapshot(img);
    SnapshotFg(img);
    b := Search(img, orig, cx, cy);
  }

  /** FindStart's loop, with `orig` the image when it began. */
  method Search(img: Image, ghost orig: seq<seq<Pixel>>, cx: int, cy: int) returns (b: Best)
    requires Framed(img) && Inside(img, cx, cy) && !Fg(img, cx, cy)
    requires Shaped(orig, img) && FgSet(img) <= FgOf(orig)
    requires forall x, y :: Inside(img, x, y) ==> Fills(orig[x][y], img[x, y])
    modifies img
    ensures Framed(img) && !Fg(img, cx, cy) && FgSet(img) <= FgOf(orig)
    ensures forall x, y :: Inside(img, x, y) ==> Fills(orig[x][y], img[x, y])
    ensures IsNearest(img, cx, cy, b)
    ensures b.x >= 0 ==> Interior(img, b.x, b.y) && HasBgNeighbour(img, b.x, b.y)
    ensures b.x >= 0 ==> RegionHas(FgSet(img), (b.x, b.y), MINAREA)
  {
    while true
      invariant Framed(img) && !Fg(img, cx, cy) && FgSet(img) <= FgOf(orig)
      invariant forall x, y :: Inside(img, x, y) ==> Fills(orig[x][y], img[x, y])
      decreases FgSet(img)
    {
      b := NearestForeground(img, cx, cy);
      NearestIsNearest(img, cx, cy);
      if b.x < 0 {
        return;
      }
      PathFilling.StartHasBgNeighbour(img, cx, cy);
      var ok := Check(img, orig, cx, cy, b);
      if ok {
        return;
      }
      Reject(img, orig, cx, cy, b.x, b.y);
    }
  }

  /** CheckArea, with the fill still measured from `orig`. */
  method Check(img: Image, ghost orig: seq<seq<Pixel>>, cx: int, cy: int, b: Best) returns (ok: bool)
    requires Framed(img) && Inside(img, cx, cy) && !Fg(img, cx, cy)
    requires IsNearest(img, cx, cy, b) && b.x >= 0
    requires Interior(img, b.x, b.y) && HasBgNeighbour(img, b.x, b.y)
    requires Shaped(orig, img) && forall x, y :: Inside(img, x, y) ==> Fills(orig[x][y], img[x, y])
    modifies img
    ensures Framed(img) && !Fg(img, cx, cy) && FgSet(img) == old(FgSet(img))
    ensures IsNearest(img, cx, cy, b) && HasBgNeighbour(img, b.x, b.y)
    ensures ok <==> RegionHas(FgSet(img), (b.x, b.y), MINAREA)
    ensures forall x, y :: Inside(img, x, y) ==> Fills(orig[x][y], img[x, y])
  {
    label check:
    ok := CheckArea(img, cx, cy, b);
    forall x, y | Inside(img, x, y)
      ensures Fills(orig[x][y], img[x, y])
    {
      FillsTrans(orig[x][y], old@check(img[x, y]), img[x, y]);
    }
  }

  /** `pixel(best) = REJECTED`: the candidate leaves the foreground, and the
      image is still filled with respect to `orig`. */
  method Reject(img: Image, ghost orig: seq<seq<Pixel>>, cx: int, cy: int, x: int, y: int)
    requires Framed(img) && Inside(img, cx, cy) && !Fg(img, cx, cy)
    requires Inside(img, x, y) && Fg(img, x, y)
    requires Shaped(orig, img) && forall u, v :: Inside(img, u, v) ==> Fills(orig[u][v], img[u, v])
    modifies img
    ensures Framed(img) && !Fg(img, cx, cy) && FgSet(img) < old(FgSet(img))
    ensures forall u, v :: Inside(img, u, v) ==> Fills(orig[u][v], img[u, v])
    ensures img[x, y] == Rejected
    ensures forall u, v :: Inside(img, u, v) && (u, v) != (x, y) ==> img[u, v] == old(img[u, v])
  {
    ghost var before := img[x, y];
    img[x, y] := Rejected;
    RejectedColour();
    PaintFills(before, Rejected);
    FillsTrans(orig[x][y], before, Rejected);
    forall q | q in FgSet(img)
      ensures q in old(FgSet(img))
    {
      var u, v := q.0, q.1;
      assert Fg(img, u, v);
    }
    assert (x, y) in old(FgSet(img)) && (x, y) !in FgSet(img);
  }

  /** Every cursor in `trace` lies within MAXSTITCHERRORSQR of the straight
      point for its move. */
  ghost predicate OnCourse(cx0: int, cy0: int, dir0: nat, trace: seq<(int, int)>) {
    dir0 < 8 && forall j :: 0 <= j < |trace| ==> Deviation(cx0, cy0, dir0, j, trace[j]) <= MAXSTITCHERRORSQR
  }

  lemma OnCourseAppend(cx0: int, cy0: int, dir0: nat, trace: seq<(int, int)>, p: (int, int))
    requires OnCourse(cx0, cy0, dir0, trace) && dir0 < 8
    requires Deviation(cx0, cy0, dir0, |trace|, p) <= MAXSTITCHERRORSQR
    ensures OnCourse(cx0, cy0, dir0, trace + [p])
  {
    var t := trace + [p];
    forall j | 0 <= j < |t|
      ensures Deviation(cx0, cy0, dir0, j, t[j]) <= MAXSTITCHERRORSQR
    {
      if j < |trace| {
        assert t[j] == trace[j];
      }
    }
  }

  /** The inner for loop: up to maxStitch moves along the contour from a
      foreground pixel. After move i the straight point is i moves along the
      starting direction from the start; the walk stops once the cursor is
      more than MAXSTITCHERRORSQR from it, or else lands on background.
      `trace` lists the cursor after each move, and every pixel is stitched
      or untouched with respect to `orig`. */
  method Follow(img: Image, ghost orig: seq<seq<Pixel>>, cx0: int, cy0: int, dir0: nat, maxStitch: nat)
    returns (cx: int, cy: int, dir: nat, ghost trace: seq<(int, int)>)
    requires PathFilling.Walking(img, orig, cx0, cy0, cx0, cy0, dir0, 0) && Fg(img, cx0, cy0) && maxStitch >= 1
    modifies img
    ensures 1 <= |trace| <= maxStitch && PathFilling.Walking(img, orig, cx0, cy0, cx, cy, dir, |trace|)
    ensures trace[|trace| - 1] == (cx, cy) && OnCourse(cx0, cy0, dir0, trace[..|trace| - 1])
    ensures |trace| < maxStitch ==>
              Deviation(cx0, cy0, dir0, |trace| - 1, (cx, cy)) > MAXSTITCHERRORSQR || !Fg(img, cx, cy)
  {
    cx, cy, dir := cx0, cy0, dir0;
    trace := [];
    var i := 0;
    while i < maxStitch
      invariant 0 <= i <= maxStitch && |trace| == i
      invariant PathFilling.Walking(img, orig, cx0, cy0, cx, cy, dir, i) && Fg(img, cx, cy)
      invariant OnCourse(cx0, cy0, dir0, trace) && (i > 0 ==> trace[i - 1] == (cx, cy))
    {
      var stop;
      cx, cy, dir, trace, stop := Hop(img, orig, cx0, cy0, dir0, cx, cy, dir, i, trace);
      if stop {
        return;
      }
      i := i + 1;
    }
    OnCoursePrefix(cx0, cy0, dir0, trace);
  }

  /** One step of the walk: stitch the current pixel, move on, and decide
      whether the walk stops there (too far off the straight line, or off the
      foreground). */
  method Hop(img: Image, ghost orig: seq<seq<Pixel>>, cx0: int, cy0: int, dir0: nat,
             cx: int, cy: int, dir: nat, i: nat, ghost trace: seq<(int, int)>)
    returns (nx: int, ny: int, d: nat, ghost trace': seq<(int, int)>, stop: bool)
    requires PathFilling.Walking(img, orig, cx0, cy0, cx, cy, dir, i) && Fg(img, cx, cy)
    requires OnCourse(cx0, cy0, dir0, trace) && |trace| == i
    modifies img
    ensures PathFilling.Walking(img, orig, cx0, cy0, nx, ny, d, i + 1)
    ensures trace' == trace + [(nx, ny)] && trace'[..i] == trace
    ensures stop <==> Deviation(cx0, cy0, dir0, i, (nx, ny)) > MAXSTITCHERRORSQR || !Fg(img, nx, ny)
    ensures !stop ==> OnCourse(cx0, cy0, dir0, trace')
  {
    nx, ny, d := PathFilling.Advance(img, orig, cx0, cy0, cx, cy, dir, i);
    trace' := trace + [(nx, ny)];
    assert trace'[..i] == trace;
    if Deviation(cx0, cy0, dir0, i, (nx, ny)) > MAXSTITCHERRORSQR {
      stop := true;
    } else if Red(img[nx, ny]) == 0 {
      stop := true;
    } else {
      stop := false;
      OnCourseAppend(cx0, cy0, dir0, trace, (nx, ny));
    }
  }

  lemma OnCoursePrefix(cx0: int, cy0: int, dir0: nat, trace: seq<(int, int)>)
    requires OnCourse(cx0, cy0, dir0, trace) && |trace| > 0
    ensures OnCourse(cx0, cy0, dir0, trace[..|trace| - 1])
  {
    var t := trace[..|trace| - 1];
    forall j | 0 <= j < |t|
      ensures Deviation(cx0, cy0, dir0, j, t[j]) <= MAXSTITCHERRORSQR
    {
      assert t[j] == trace[j];
    }
  }

  /** Follow from the current image: what it stitches leaves the foreground. */
  method Walk(img: Image, cx0: int, cy0: int, dir0: nat, maxStitch: nat)
    returns (cx: int, cy: int, dir: nat, ghost trace: seq<(int, int)>)
    requires Framed(img) && dir0 < 8 && maxStitch >= 1
    requires Interior(img, cx0, cy0) && Fg(img, cx0, cy0) && HasBgNeighbour(img, cx0, cy0)
    modifies img
    ensures Framed(img) && Inside(img, cx, cy) && dir < 8
    ensures cx - cx0 <= maxStitch && cx0 - cx <= maxStitch && cy - cy0 <= maxStitch && cy0 - cy <= maxStitch
    ensures img[cx0, cy0] == Stitched
    ensures forall x, y :: Inside(img, x, y) ==> PathFilling.Stitches(old(img[x, y]), img[x, y])
    ensures Fg(img, cx, cy) ==> Interior(img, cx, cy) && HasBgNeighbour(img, cx, cy)
    ensures FgSet(img) < old(FgSet(img))
    ensures 1 <= |trace| <= maxStitch && trace[|trace| - 1] == (cx, cy)
    ensures OnCourse(cx0, cy0, dir0, trace[..|trace| - 1])
    ensures |trace| < maxStitch ==>
              Deviation(cx0, cy0, dir0, |trace| - 1, (cx, cy)) > MAXSTITCHERRORSQR || !Fg(img, cx, cy)
  {
    ghost var orig := Snapshot(img);
    SnapshotFg(img);
    cx, cy, dir, trace := Follow(img, orig, cx0, cy0, dir0, maxStitch);
    StitchedColour();
    PathFilling.Shrinks(img, orig, cx0, cy0);
  }

  /** The search at the top of main's loop: when the cursor is on
      background, FindStart moves it to the next start; `found` is false when
      there is none. Every pixel is still filled with respect to `orig`, the
      image when the fill began. */
  method Resume(img: Image, ghost orig: seq<seq<Pixel>>, cx: int, cy: int) returns (found: bool, nx: int, ny: int)
    requires Framed(img) && Inside(img, cx, cy)
    requires Fg(img, cx, cy) ==> Interior(img, cx, cy) && HasBgNeighbour(img, cx, cy)
    requires Shaped(orig, img) && forall x, y :: Inside(img, x, y) ==> Fills(orig[x][y], img[x, y])
    modifies img
    ensures Framed(img) && FgSet(img) <= old(FgSet(img))
    ensures forall x, y :: Inside(img, x, y) ==> Fills(orig[x][y], img[x, y])
    ensures old(Fg(img, cx, cy)) ==> found && nx == cx && ny == cy && unchanged(img)
    ensures found ==> Interior(img, nx, ny) && Fg(img, nx, ny) && HasBgNeighbour(img, nx, ny)
    ensures found ==> Red(orig[nx][ny]) != 0
    ensures !found ==> nx == cx && ny == cy
    ensures !found ==> forall x, y :: Inside(img, x, y) && Fg(img, x, y) ==> Dist(cx, cy, x, y) >= NO_DIST
  {
    found, nx, ny := true, cx, cy;
    if Red(img[cx, cy]) == 0 {
      label search:
      var b := FindStart(img, cx, cy);
      forall x, y | Inside(img, x, y)
        ensures Fills(orig[x][y], img[x, y])
      {
        FillsTrans(orig[x][y], old@search(img[x, y]), img[x, y]);
      }
      if b.x >= 0 {
        nx, ny := b.x, b.y;
      } else {
        found := false;
      }
    }
    if found {
      assert Fills(orig[nx][ny], img[nx, ny]);
    }
  }

  /** Walk within the fill: every pixel is still filled with respect to `orig`. */
  method Stride(img: Image, ghost orig: seq<seq<Pixel>>, cx: int, cy: int, dir: nat, maxStitch: nat)
    returns (nx: int, ny: int, d: nat)
    requires Framed(img) && dir < 8 && maxStitch >= 1
    requires Interior(img, cx, cy) && Fg(img, cx, cy) && HasBgNeighbour(img, cx, cy)
    requires Shaped(orig, img) && forall x, y :: Inside(img, x, y) ==> Fills(orig[x][y], img[x, y])
    modifies img
    ensures Framed(img) && Inside(img, nx, ny) && d < 8 && FgSet(img) < old(FgSet(img))
    ensures forall x, y :: Inside(img, x, y) ==> Fills(orig[x][y], img[x, y])
    ensures Fg(img, nx, ny) ==> Interior(img, nx, ny) && HasBgNeighbour(img, nx, ny)
  {
    ghost var trace;
    label walk:
    nx, ny, d, trace := Walk(img, cx, cy, dir, maxStitch);
    forall x, y | Inside(img, x, y)
      ensures Fills(orig[x][y], img[x, y])
    {
      if img[x, y] != old@walk(img[x, y]) {
        PaintFills(old@walk(img[x, y]), img[x, y]);
      }
      FillsTrans(orig[x][y], old@walk(img[x, y]), img[x, y]);
    }
  }

  lemma ShrinkTrans<T>(a: set<T>, b: set<T>, c: set<T>)
    requires a < b && b <= c
    ensures a < c
  {
  }

  /** What main's loop keeps: the cursor is in bounds and, on foreground, a
      contour pixel; every pixel is filled with respect to `orig`; before the
      first start (ox, oy) is (-1, -1) and the cursor (0, 0), and afterwards
      (ox, oy) is the cursor and the steps lead there from `first`, which was
      foreground in `orig`. */
  ghost predicate Progress(img: Image, orig: seq<seq<Pixel>>, cx: int, cy: int, ox: int, oy: int,
                           dir: nat, path: seq<Step>, first: (int, int))
    reads img
  {
    Inside(img, cx, cy) && dir < 8 && Framed(img) && Shaped(orig, img) &&
    (forall x, y :: Inside(img, x, y) ==> Fills(orig[x][y], img[x, y])) &&
    (Fg(img, cx, cy) ==> Interior(img, cx, cy) && HasBgNeighbour(img, cx, cy)) &&
    (ox < 0 <==> oy < 0) &&
    (ox < 0 ==> cx == 0 && cy == 0 && path == []) &&
    (ox >= 0 ==> Inside(img, first.0, first.1) && Red(orig[first.0][first.1]) != 0) &&
    (ox >= 0 ==> path != [] && ox == cx && oy == cy && Total(path) == Step(ox - first.0, oy - first.1))
  }

  /** One pass of main's loop: search when the cursor is on background, then
      walk and record the step. `found` is false when the search finds no
      start, and then nothing but the painting of rejected candidates has
      happened. */
  method Round(img: Image, ghost orig: seq<seq<Pixel>>, cx: int, cy: int, ox: int, oy: int,
               dir: nat, maxStitch: nat, path: seq<Step>, ghost first: (int, int))
    returns (found: bool, cx': int, cy': int, dir': nat, path': seq<Step>, ghost first': (int, int))
    requires maxStitch >= 1 && Progress(img, orig, cx, cy, ox, oy, dir, path, first)
    modifies img
    ensures found ==> Progress(img, orig, cx', cy', cx', cy', dir', path', first')
    ensures found ==> FgSet(img) < old(FgSet(img))
    ensures !found ==> Progress(img, orig, cx, cy, ox, oy, dir, path, first) && cx' == cx && cy' == cy
    ensures !found ==> path' == path && first' == first
    ensures !found ==> forall x, y :: Inside(img, x, y) && Fg(img, x, y) ==> Dist(cx, cy, x, y) >= NO_DIST
  {
    ghost var before := FgSet(img);
    found, cx', cy' := Resume(img, orig, cx, cy);
    dir', path', first' := dir, path, first;
    if !found {
      return;
    }
    var ox', oy' := ox, oy;
    if oy < 0 || ox < 0 {
      first' := (cx', cy');
      ox', oy' := cx', cy';
    }
    ghost var searched := FgSet(img);
    cx', cy', dir' := Stride(img, orig, cx', cy', dir, maxStitch);
    path' := path + [Step(cx' - ox', cy' - oy')];
    PathFilling.Telescope(path, path', first'.0, first'.1, ox', oy', cx', cy');
    ShrinkTrans(FgSet(img), searched, before);
  }

  /** The body of main from its cursor at (0, 0), with the random numbers as
      `draws`: it returns the recorded steps, the final cursor and (ghost) the
      first start. The loop ends when the search finds nothing closer than its
      bound. */
  method Fill(img: Image, draws: nat -> nat) returns (path: seq<Step>, cx: int, cy: int, ghost first: (int, int))
    requires img.Length0 >= 1 && img.Length1 >= 1 && Framed(img)
    modifies img
    ensures Inside(img, cx, cy)
    ensures forall x, y :: Inside(img, x, y) ==> Fills(old(img[x, y]), img[x, y])
    ensures forall x, y :: Inside(img, x, y) && Fg(img, x, y) ==> Dist(cx, cy, x, y) >= NO_DIST
    ensures path == [] ==> cx == 0 && cy == 0
    ensures path != [] ==> Inside(img, first.0, first.1) && old(Fg(img, first.0, first.1))
    ensures path != [] ==> Total(path) == Step(cx - first.0, cy - first.1)
  {
    ghost var orig := Snapshot(img);
    cx, cy := 0, 0;
    var ox, oy := -1, -1;
    var dir: nat := 0;
    var k: nat := 0;
    path := [];
    first := (0, 0);
    while true
      invariant Progress(img, orig, cx, cy, ox, oy, dir, path, first)
      decreases FgSet(img)
    {
      var found;
      found, cx, cy, dir, path, first := Round(img, orig, cx, cy, ox, oy, dir, WalkLength(draws, k), path, first);
      if !found {
        break;
      }
      ox, oy := cx, cy;
      k := k + 1;
    }
  }
}
