/** path-filling: repeatedly jump to the nearest foreground pixel and walk
    along the contour of the foreground, overwriting every pixel walked on
    with the stitched colour, and record one step per walk. */
module PathFilling {
  import opened Geometry
  import opened Pixels
  import opened Compass
  import opened Nearest
  import opened Contour
  import opened Rating

  /** Moves per walk. */
  const MAXSTITCH := 20

  /** What the fill may do to one pixel: leave it, or stitch a foreground pixel. */
  predicate Stitches(before: Pixel, after: Pixel) {
    after == before || (Red(before) != 0 && after == Stitched)
  }

  /** Stitching twice is stitching once: a stitched pixel is background. */
  lemma StitchesTrans(a: Pixel, b: Pixel, c: Pixel)
    requires Stitches(a, b) && Stitches(b, c)
    ensures Stitches(a, c)
  {
    StitchedColour();
  }

  /** The nearest foreground pixel to a background cursor has a background
      neighbour: the one a step towards the cursor, which is closer still. */
  lemma StartHasBgNeighbour(img: Image, cx: int, cy: int)
    requires Framed(img) && Inside(img, cx, cy) && !Fg(img, cx, cy)
    requires NearestTo(img, cx, cy).x >= 0
    ensures var b := NearestTo(img, cx, cy);
      Inside(img, b.x, b.y) && Fg(img, b.x, b.y) && Interior(img, b.x, b.y) && HasBgNeighbour(img, b.x, b.y)
  {
    var b := NearestTo(img, cx, cy);
    NearestIsNearest(img, cx, cy);
    var dx, dy := Toward(cx - b.x), Toward(cy - b.y);
    CloserNeighbour(cx, cy, b.x, b.y);
    var e := DirOf(dx, dy);
    assert !Fg(img, b.x + dx, b.y + dy);
    assert !FgAt(img, b.x, b.y, e);
  }

  /** The pixel ahead of one just stitched is in bounds, and if it holds
      foreground it is off the border and has the stitched pixel as a
      background neighbour. */
  lemma AheadOfStitched(img: Image, px: int, py: int, dir: nat)
    requires Framed(img) && dir < 8 && Interior(img, px, py) && img[px, py] == Stitched
    ensures Inside(img, px + DirX(dir), py + DirY(dir))
    ensures Fg(img, px + DirX(dir), py + DirY(dir)) ==>
              Interior(img, px + DirX(dir), py + DirY(dir)) && HasBgNeighbour(img, px + DirX(dir), py + DirY(dir))
  {
    var nx, ny := px + DirX(dir), py + DirY(dir);
    if Fg(img, nx, ny) {
      Opposite(dir);
      StitchedColour();
      var e := (dir + 4) % 8;
      assert !FgAt(img, nx, ny, e);
    }
  }

  /** `pixel(img, cx, cy) = 0xff800000`. */
  method StitchPixel(img: Image, cx: int, cy: int)
    requires Framed(img) && Interior(img, cx, cy) && HasBgNeighbour(img, cx, cy)
    modifies img
    ensures Framed(img) && HasBgNeighbour(img, cx, cy)
    ensures img[cx, cy] == Stitched
    ensures forall x, y :: Inside(img, x, y) && (x, y) != (cx, cy) ==> img[x, y] == old(img[x, y])
  {
    var e: nat :| e < 8 && !FgAt(img, cx, cy, e);
    EightNeighbours(e, 0);
    img[cx, cy] := Stitched;
    StitchedColour();
    assert !FgAt(img, cx, cy, e);
  }

  /** One iteration of the walk: stitch the current pixel, turn, move. */
  method StepOn(img: Image, cx: int, cy: int, dir: nat) returns (nx: int, ny: int, d: nat)
    requires Framed(img) && dir < 8
    requires Interior(img, cx, cy) && HasBgNeighbour(img, cx, cy)
    modifies img
    ensures Framed(img) && d < 8
    ensures img[cx, cy] == Stitched
    ensures forall x, y :: Inside(img, x, y) && (x, y) != (cx, cy) ==> img[x, y] == old(img[x, y])
    ensures d == Turned(img, cx, cy, dir) && nx == cx + DirX(d) && ny == cy + DirY(d)
    ensures Inside(img, nx, ny) && (Fg(img, nx, ny) ==> Interior(img, nx, ny) && HasBgNeighbour(img, nx, ny))
  {
    d := StitchTurn(img, cx, cy, dir);
    nx, ny := cx + DirX(d), cy + DirY(d);
    AheadOfStitched(img, cx, cy, d);
  }

  /** The first half of StepOn: stitch the pixel, then turn on the stitched image. */
  method StitchTurn(img: Image, cx: int, cy: int, dir: nat) returns (d: nat)
    requires Framed(img) && dir < 8
    requires Interior(img, cx, cy) && HasBgNeighbour(img, cx, cy)
    modifies img
    ensures Framed(img) && d < 8
    ensures img[cx, cy] == Stitched
    ensures forall x, y :: Inside(img, x, y) && (x, y) != (cx, cy) ==> img[x, y] == old(img[x, y])
    ensures d == Turned(img, cx, cy, dir)
  {
    StitchPixel(img, cx, cy);
    d := Turn(img, cx, cy, dir);
  }

  /** StepOn within a walk: every pixel is still stitched or untouched with
      respect to `orig`, the image when the walk began, and the walk's first
      pixel stays stitched. */
  method Move(img: Image, ghost orig: seq<seq<Pixel>>, cx0: int, cy0: int, cx: int, cy: int, dir: nat)
    returns (nx: int, ny: int, d: nat)
    requires Framed(img) && dir < 8
    requires Interior(img, cx, cy) && Fg(img, cx, cy) && HasBgNeighbour(img, cx, cy)
    requires |orig| == img.Length0 && forall x :: 0 <= x < |orig| ==> |orig[x]| == img.Length1
    requires forall x, y :: Inside(img, x, y) ==> Stitches(orig[x][y], img[x, y])
    requires Inside(img, cx0, cy0) && ((cx0, cy0) == (cx, cy) || img[cx0, cy0] == Stitched)
    modifies img
    ensures Framed(img) && d < 8 && img[cx0, cy0] == Stitched
    ensures forall x, y :: Inside(img, x, y) ==> Stitches(orig[x][y], img[x, y])
    ensures nx == cx + DirX(d) && ny == cy + DirY(d)
    ensures Inside(img, nx, ny) && (Fg(img, nx, ny) ==> Interior(img, nx, ny) && HasBgNeighbour(img, nx, ny))
  {
    label move:
    nx, ny, d := StepOn(img, cx, cy, dir);
    forall x, y | Inside(img, x, y)
      ensures Stitches(orig[x][y], img[x, y])
    {
      StitchesTrans(orig[x][y], old@move(img[x, y]), img[x, y]);
    }
  }

  /** Stitching a foreground pixel and otherwise only stitching removes it
      from the foreground. */
  lemma Shrinks(img: Image, orig: seq<seq<Pixel>>, x0: int, y0: int)
    requires |orig| == img.Length0 && forall x :: 0 <= x < |orig| ==> |orig[x]| == img.Length1
    requires forall x, y :: Inside(img, x, y) ==> Stitches(orig[x][y], img[x, y])
    requires Inside(img, x0, y0) && Red(orig[x0][y0]) != 0 && !Fg(img, x0, y0)
    ensures FgSet(img) < FgOf(orig)
  {
    forall q | q in FgSet(img)
      ensures q in FgOf(orig)
    {
      var u, v := q.0, q.1;
      assert Fg(img, u, v);
      StitchedColour();
    }
    assert (x0, y0) in FgOf(orig) && (x0, y0) !in FgSet(img);
  }

  /** The inner for loop: at most MAXSTITCH moves along the contour from a
      foreground pixel, stopping early on landing on background. */
  method Walk(img: Image, cx0: int, cy0: int, dir0: nat) returns (cx: int, cy: int, dir: nat)
    requires Framed(img) && dir0 < 8
    requires Interior(img, cx0, cy0) && Fg(img, cx0, cy0) && HasBgNeighbour(img, cx0, cy0)
    modifies img
    ensures Framed(img) && Inside(img, cx, cy) && dir < 8
    ensures -MAXSTITCH <= cx - cx0 <= MAXSTITCH && -MAXSTITCH <= cy - cy0 <= MAXSTITCH
    ensures img[cx0, cy0] == Stitched
    ensures forall x, y :: Inside(img, x, y) ==> Stitches(old(img[x, y]), img[x, y])
    ensures Fg(img, cx, cy) ==> Interior(img, cx, cy) && HasBgNeighbour(img, cx, cy)
    ensures FgSet(img) < old(FgSet(img))
  {
    ghost var orig := Snapshot(img);
    SnapshotFg(img);
    cx, cy, dir := cx0, cy0, dir0;
    var i := 0;
    ghost var n := 0;
    while i < MAXSTITCH
      invariant 0 <= i <= MAXSTITCH && n == i
      invariant Walking(img, orig, cx0, cy0, cx, cy, dir, i) && Fg(img, cx, cy)
    {
      cx, cy, dir := Advance(img, orig, cx0, cy0, cx, cy, dir, i);
      n := n + 1;
      if Red(img[cx, cy]) == 0 {
        break;
      }
      i := i + 1;
    }
    assert 0 < n <= MAXSTITCH && Walking(img, orig, cx0, cy0, cx, cy, dir, n);
    StitchedColour();
    Shrinks(img, orig, cx0, cy0);
  }

  /** The state after i moves of a walk from (cx0, cy0) begun on `orig`:
      the cursor is at most i pixels away in each direction and on a contour
      pixel if on foreground, every pixel is stitched or as it was, and after
      the first move the start is stitched. */
  ghost predicate Walking(img: Image, orig: seq<seq<Pixel>>, cx0: int, cy0: int, cx: int, cy: int, dir: nat, i: int)
    reads img
  {
    Framed(img) && dir < 8 && Inside(img, cx0, cy0) && Inside(img, cx, cy)
    && -i <= cx - cx0 <= i && -i <= cy - cy0 <= i
    && (i > 0 ==> img[cx0, cy0] == Stitched)
    && (i == 0 ==> cx == cx0 && cy == cy0)
    && (Fg(img, cx, cy) ==> Interior(img, cx, cy) && HasBgNeighbour(img, cx, cy))
    && |orig| == img.Length0 && (forall x :: 0 <= x < |orig| ==> |orig[x]| == img.Length1)
    && (forall x, y :: Inside(img, x, y) ==> Stitches(orig[x][y], img[x, y]))
  }

  /** Move i + 1 of a walk. */
  method Advance(img: Image, ghost orig: seq<seq<Pixel>>, cx0: int, cy0: int, cx: int, cy: int, dir: nat, i: int)
    returns (nx: int, ny: int, d: nat)
    requires Walking(img, orig, cx0, cy0, cx, cy, dir, i) && Fg(img, cx, cy)
    modifies img
    ensures Walking(img, orig, cx0, cy0, nx, ny, d, i + 1)
  {
    nx, ny, d := Move(img, orig, cx0, cy0, cx, cy, dir);
  }

  /** Appending the step from the last cursor to the new one keeps the path
      ending where the cursor is. */
  lemma Telescope(path: seq<Step>, path': seq<Step>, fx: int, fy: int, ox: int, oy: int, cx: int, cy: int)
    requires path == [] ==> ox == fx && oy == fy
    requires path != [] ==> Total(path) == Step(ox - fx, oy - fy)
    requires path' == path + [Step(cx - ox, cy - oy)]
    ensures Total(path') == Step(cx - fx, cy - fy)
  {
    var last := [Step(cx - ox, cy - oy)];
    TotalConcat(path, last);
    assert Pos(last, 0) == Zero;
    assert Total(last) == Add(Zero, last[0]);
    assert path == [] ==> Total(path) == Zero;
  }

  /** The body of main from its cursor at (0, 0): it returns the recorded
      steps, the final cursor, and (ghost) the first start, the nearest
      foreground pixel to (0, 0). The loop ends when the search finds
      nothing closer than its bound. */
  method Fill(img: Image) returns (path: seq<Step>, cx: int, cy: int, ghost first: Best)
    requires img.Length0 >= 1 && img.Length1 >= 1 && Framed(img)
    modifies img
    ensures first == old(NearestTo(img, 0, 0))
    ensures Inside(img, cx, cy)
    ensures forall x, y :: Inside(img, x, y) ==> Stitches(old(img[x, y]), img[x, y])
    ensures forall x, y :: Inside(img, x, y) && Fg(img, x, y) ==> Dist(cx, cy, x, y) >= NO_DIST
    ensures path == [] <==> first.x < 0
    ensures path != [] ==> Total(path) == Step(cx - first.x, cy - first.y)
  {
    first := NearestTo(img, 0, 0);
    ghost var orig := Snapshot(img);
    cx, cy := 0, 0;
    var ox, oy := -1, -1;
    var dir: nat := 0;
    path := [];
    while true
      invariant Progress(img, orig, cx, cy, ox, oy, dir, path, first)
      decreases FgSet(img)
    {
      var found;
      found, cx, cy, dir, path := Round(img, orig, cx, cy, ox, oy, dir, path, first);
      if !found {
        break;
      }
      ox, oy := cx, cy;
    }
  }

  /** What main's loop keeps: the cursor is in bounds and, on foreground, a
      contour pixel; every pixel is stitched or as it was in `orig`; before
      the first start (ox, oy) is (-1, -1), the cursor (0, 0) and `first` the
      search's answer from there; afterwards (ox, oy) is the cursor and the
      steps lead there from `first`. */
  ghost predicate Progress(img: Image, orig: seq<seq<Pixel>>, cx: int, cy: int, ox: int, oy: int,
                           dir: nat, path: seq<Step>, first: Best)
    reads img
  {
    Inside(img, cx, cy) && dir < 8 && Framed(img)
    && |orig| == img.Length0 && (forall x :: 0 <= x < |orig| ==> |orig[x]| == img.Length1)
    && (forall x, y :: Inside(img, x, y) ==> Stitches(orig[x][y], img[x, y]))
    && (Fg(img, cx, cy) ==> Interior(img, cx, cy) && HasBgNeighbour(img, cx, cy))
    && (ox < 0 <==> oy < 0)
    && (ox < 0 ==> cx == 0 && cy == 0 && path == [] && first == NearestTo(img, 0, 0))
    && (ox >= 0 ==> first.x >= 0 && path != [] && ox == cx && oy == cy)
    && (ox >= 0 ==> Total(path) == Step(ox - first.x, oy - first.y))
  }

  /** One pass of main's loop: on background, search for the nearest
      foreground pixel (`found` is false when there is none, and then nothing
      has changed); then walk and record the step. */
  method Round(img: Image, ghost orig: seq<seq<Pixel>>, cx: int, cy: int, ox: int, oy: int,
               dir: nat, path: seq<Step>, ghost first: Best)
    returns (found: bool, cx': int, cy': int, dir': nat, path': seq<Step>)
    requires Progress(img, orig, cx, cy, ox, oy, dir, path, first)
    modifies img
    ensures found ==> Progress(img, orig, cx', cy', cx', cy', dir', path', first)
    ensures found ==> FgSet(img) < old(FgSet(img))
    ensures !found ==> unchanged(img) && cx' == cx && cy' == cy && path' == path
    ensures !found ==> Progress(img, orig, cx, cy, ox, oy, dir, path, first)
    ensures !found ==> (ox < 0 ==> first.x < 0)
    ensures !found ==> forall x, y :: Inside(img, x, y) && Fg(img, x, y) ==> Dist(cx, cy, x, y) >= NO_DIST
  {
    found, cx', cy', dir', path' := true, cx, cy, dir, path;
    var ox', oy' := ox, oy;
    if Red(img[cx, cy]) == 0 {
      var b := NearestForeground(img, cx, cy);
      NearestIsNearest(img, cx, cy);
      if b.x >= 0 {
        StartHasBgNeighbour(img, cx, cy);
        cx', cy' := b.x, b.y;
        if oy < 0 || ox < 0 {
          assert b == first;
          ox', oy' := cx', cy';
        }
      } else {
        found := false;
        return;
      }
    }
    label walk:
    cx', cy', dir' := Walk(img, cx', cy', dir);
    forall x, y | Inside(img, x, y)
      ensures Stitches(orig[x][y], img[x, y])
    {
      StitchesTrans(orig[x][y], old@walk(img[x, y]), img[x, y]);
    }
    path' := path + [Step(cx' - ox', cy' - oy')];
    Telescope(path, path', first.x, first.y, ox', oy', cx', cy');
  }

  /** On an image whose diagonal is shorter than the search bound the fill
      stitches every foreground pixel and changes nothing else. */
  lemma FillCoversSmallImages(before: Image, after: Image, cx: int, cy: int)
    requires before.Length0 == after.Length0 && before.Length1 == after.Length1
    requires Sq(before.Length0 - 1) + Sq(before.Length1 - 1) < NO_DIST && Inside(before, cx, cy)
    requires forall x, y :: Inside(before, x, y) ==> Stitches(before[x, y], after[x, y])
    requires forall x, y :: Inside(after, x, y) && Fg(after, x, y) ==> Dist(cx, cy, x, y) >= NO_DIST
    ensures forall x, y :: Inside(before, x, y) ==>
      after[x, y] == (if Fg(before, x, y) then Stitched else before[x, y])
  {
    forall x, y | Inside(before, x, y)
      ensures after[x, y] == (if Fg(before, x, y) then Stitched else before[x, y])
    {
      DistWithinImage(before, cx, cy, x, y);
      StitchedColour();
    }
  }
}
