/** path-filling3: fill the foreground by a back-and-forth scan. From the
    top-left pixel of the region nearest to the cursor, stitch rightwards
    along a row, drop a row, and come back leftwards; where the row below
    sticks out further (overscan) or falls short (backscan) the cursor first
    slides along it without stitching. When a backscan finds neither
    foreground nor stitched pixels above, jump to the next region. The scan
    is a six-mode state machine driven by a `switch` inside the loop of
    `main`; after every `maxStitch` passes the cursor's displacement is
    recorded as one step. */
module PathFilling3 {
  import opened Geometry
  import opened Pixels
  import opened Nearest
  import opened Contour
  import opened Regions
  import PathFilling
  import PathFilling2
  import Rating

  /** The six scan modes, MODE_RIGHT (0) to MODE_LEFTBACKSCAN (5). */
  datatype Mode = Right | RightOverscan | RightBackscan | Left | LeftOverscan | LeftBackscan

  /** The #define value of each mode. */
  function Code(m: Mode): (c: int)
    ensures 0 <= c < 6
    ensures (c == 0 <==> m == Right) && (c == 3 <==> m == Left)
  {
    match m
    case Right => 0
    case RightOverscan => 1
    case RightBackscan => 2
    case Left => 3
    case LeftOverscan => 4
    case LeftBackscan => 5
  }

  /** The modes that stitch: MODE_RIGHT and MODE_LEFT. */
  predicate Stitching(m: Mode) {
    m == Right || m == Left
  }

  predicate Overscanning(m: Mode) {
    m == RightOverscan || m == LeftOverscan
  }

  predicate Backscanning(m: Mode) {
    m == RightBackscan || m == LeftBackscan
  }

  /** The column step of the mode's row: +1 for the three right modes,
      -1 for the three left modes. A backscan moves against it. */
  function Ahead(m: Mode): int {
    if m == Right || m == RightOverscan || m == RightBackscan then 1 else -1
  }

  function Overscan(m: Mode): Mode {
    if Ahead(m) == 1 then RightOverscan else LeftOverscan
  }

  function Backscan(m: Mode): Mode {
    if Ahead(m) == 1 then RightBackscan else LeftBackscan
  }

  /** The stitching mode of the other direction. */
  function Reverse(m: Mode): Mode {
    if Ahead(m) == 1 then Left else Right
  }

  /** The transitions the switch can make. Every backscan that starts
      afresh continues in MODE_RIGHT, whatever its direction. */
  predicate Allowed(m: Mode, n: Mode) {
    match m
    case Right => n == Right || n == RightOverscan || n == RightBackscan
    case RightOverscan => n == RightOverscan || n == Left
    case RightBackscan => n == RightBackscan || n == Left || n == Right
    case Left => n == Left || n == LeftOverscan || n == LeftBackscan
    case LeftOverscan => n == LeftOverscan || n == Right
    case LeftBackscan => n == LeftBackscan || n == Right
  }

  // ----- the image

  /** Every foreground pixel and every pixel with a non-zero blue byte lies
      off the border. The scan reads the neighbours of such pixels without a
      bounds check: ahead of foreground, and behind and above a backscan,
      whose test for stitched pixels is `pixel & 0xff0000`. */
  ghost predicate Bordered(img: Image)
    reads img
  {
    Framed(img) && forall x, y :: Inside(img, x, y) && Blue(img[x, y]) != 0 ==> Interior(img, x, y)
  }

  /** What the fill may do to one pixel: keep its red, blue and alpha bytes
      (the green byte carries moveToTopLeft's marks), or, when it was
      foreground, become the stitched colour. */
  predicate Covers(before: Pixel, after: Pixel) {
    (Red(after) == Red(before) && Blue(after) == Blue(before) && Alpha(after) == Alpha(before))
    || (Red(before) != 0 && after == Stitched)
  }

  /** Marking keeps a covered pixel covered; a stitched pixel has no green
      byte to clear and no red byte to mark. */
  lemma CoversMarks(o: Pixel, b: Pixel, c: Pixel)
    requires Covers(o, b)
    requires c == ClearGreen(b) || (Red(b) != 0 && c == Mark(ClearGreen(b)))
    ensures Covers(o, c)
  {
    StitchedColour();
  }

  /** Stitching a pixel that is still foreground keeps it covered. */
  lemma CoversStitch(o: Pixel, b: Pixel)
    requires Covers(o, b) && Red(b) != 0
    ensures Covers(o, Stitched)
  {
    StitchedColour();
  }

  /** Every pixel covers its pixel in `orig`. */
  ghost predicate CoversAll(orig: seq<seq<Pixel>>, img: Image)
    reads img
  {
    Shaped(orig, img) && forall x, y :: Inside(img, x, y) ==> Covers(orig[x][y], img[x, y])
  }

  // ----- one pass of the switch

  /** Some pixel the pass in `mode` reads or writes at (cx, cy) lies outside
      the image, where the source's unchecked pixel() reads other memory. */
  predicate Overruns(img: Image, cx: int, cy: int, m: Mode)
    reads img
  {
    var s := Ahead(m);
    if Stitching(m) then
      !Inside(img, cx, cy) || !Inside(img, cx + s, cy) || (!Fg(img, cx + s, cy) && !Inside(img, cx, cy + 1))
    else if Overscanning(m) then
      !Inside(img, cx + s, cy)
    else
      !Inside(img, cx - s, cy) || (!Fg(img, cx - s, cy) && !Inside(img, cx - s, cy - 1))
  }

  /** One pass of the for loop's switch. MODE_RIGHT and MODE_LEFT stitch the
      cursor pixel, then step ahead onto foreground or else drop a row,
      entering overscan when the pixel below is foreground and backscan
      otherwise. An overscan slides ahead over foreground and at its end
      turns round and ends the stretch (`stop`, the `i = maxStitch` of the
      source). A backscan slides back onto foreground, then turns round and
      ends the stretch; or slides back under a pixel with a blue byte; or
      calls for findStart (`search`) and continues in MODE_RIGHT. `fault`
      is set, and nothing done, when a pixel the pass would touch lies
      outside the image. */
  method Tick(img: Image, cx: int, cy: int, mode: Mode)
    returns (fault: bool, cx': int, cy': int, mode': Mode, stop: bool, search: bool)
    modifies img
    ensures fault == old(Overruns(img, cx, cy, mode))
    ensures !fault ==> Allowed(mode, mode')
    ensures !Stitching(mode) || fault ==> unchanged(img)
    ensures Stitching(mode) && !fault ==> img[cx, cy] == Stitched
    ensures forall x, y :: Inside(img, x, y) && (x, y) != (cx, cy) ==> img[x, y] == old(img[x, y])
    ensures !fault && Stitching(mode) ==>
              !stop && !search &&
              if old(Fg(img, cx + Ahead(mode), cy)) then cx' == cx + Ahead(mode) && cy' == cy && mode' == mode
              else cx' == cx && cy' == cy + 1 && mode' == (if Fg(img, cx, cy + 1) then Overscan(mode) else Backscan(mode))
    ensures !fault && Overscanning(mode) ==>
              cy' == cy && !search &&
              if Fg(img, cx + Ahead(mode), cy) then cx' == cx + Ahead(mode) && mode' == mode && !stop
              else cx' == cx && mode' == Reverse(mode) && stop
    ensures !fault && Backscanning(mode) ==>
              cy' == cy &&
              if Fg(img, cx - Ahead(mode), cy) then cx' == cx - Ahead(mode) && mode' == Reverse(mode) && stop && !search
              else if Blue(img[cx - Ahead(mode), cy - 1]) != 0 then cx' == cx - Ahead(mode) && mode' == mode && !stop && !search
              else cx' == cx && mode' == Right && !stop && search
  {
    fault, cx', cy', mode', stop, search := false, cx, cy, mode, false, false;
    if Overruns(img, cx, cy, mode) {
      fault := true;
      return;
    }
    match mode
    case Right =>
      img[cx, cy] := Stitched;
      if Red(img[cx + 1, cy]) != 0 {
        cx' := cx + 1;
      } else {
        cy' := cy + 1;
        if Red(img[cx, cy']) != 0 {
          mode' := RightOverscan;
        } else {
          mode' := RightBackscan;
        }
      }
    case RightOverscan =>
      if Red(img[cx + 1, cy]) != 0 {
        cx' := cx + 1;
      } else {
        stop, mode' := true, Left;
      }
    case RightBackscan =>
      if Red(img[cx - 1, cy]) != 0 {
        cx' := cx - 1;
        stop, mode' := true, Left;
      } else if Blue(img[cx - 1, cy - 1]) != 0 {
        cx' := cx - 1;
      } else {
        search, mode' := true, Right;
      }
    case Left =>
      img[cx, cy] := Stitched;
      if Red(img[cx - 1, cy]) != 0 {
        cx' := cx - 1;
      } else {
        cy' := cy + 1;
        if Red(img[cx, cy']) != 0 {
          mode' := LeftOverscan;
        } else {
          mode' := LeftBackscan;
        }
      }
    case LeftOverscan =>
      if Red(img[cx - 1, cy]) != 0 {
        cx' := cx - 1;
      } else {
        stop, mode' := true, Right;
      }
    case LeftBackscan =>
      if Red(img[cx + 1, cy]) != 0 {
        cx' := cx + 1;
        stop, mode' := true, Right;
      } else if Blue(img[cx + 1, cy - 1]) != 0 {
        cx' := cx + 1;
      } else {
        search, mode' := true, Right;
      }
  }

  // ----- findStart

  /** findStart: search for the nearest foreground pixel to the cursor (as
      in the other fill tools); when there is none, return false and change
      nothing. Otherwise move it to the first pixel, in row-major order, of
      its 8-connected region, make that the cursor, record the jump from
      (ox, oy) only when ox > 0, and make the cursor the new (ox, oy). */
  method FindStart(img: Image, cx: int, cy: int, ox: int, oy: int, path: seq<Step>)
    returns (found: bool, cx': int, cy': int, ox': int, oy': int, path': seq<Step>)
    modifies img
    ensures found <==> old(NearestTo(img, cx, cy)).x >= 0
    ensures !found ==> unchanged(img) && cx' == cx && cy' == cy && ox' == ox && oy' == oy && path' == path
    ensures !found ==> forall x, y :: Inside(img, x, y) && Fg(img, x, y) ==> Dist(cx, cy, x, y) >= NO_DIST
    ensures found ==> var b := old(NearestTo(img, cx, cy));
      Inside(img, cx', cy') && Fg(img, cx', cy')
      && Reaches(old(FgSet(img)), (b.x, b.y), (cx', cy'))
      && forall q :: Reaches(old(FgSet(img)), (b.x, b.y), q) ==> NotAfter(cx', cy', q)
    ensures found ==> ox' == cx' && oy' == cy'
    ensures found ==> path' == if ox > 0 then path + [Step(cx' - ox, cy' - oy)] else path
    ensures found ==> forall x, y :: Inside(img, x, y) ==>
              img[x, y] == ClearGreen(old(img[x, y]))
              || (Red(old(img[x, y])) != 0 && img[x, y] == Mark(ClearGreen(old(img[x, y]))))
  {
    found, cx', cy', ox', oy', path' := false, cx, cy, ox, oy, path;
    var b := NearestForeground(img, cx, cy);
    NearestIsNearest(img, cx, cy);
    if b.x < 0 {
      return;
    }
    var tx, ty := MoveToTopLeft(img, b.x, b.y);
    // The check at lines 136-138 never fires: the top-left pixel is foreground.
    assert Red(img[tx, ty]) != 0;
    cx', cy' := tx, ty;
    if ox > 0 {
      path' := path + [Step(cx' - ox, cy' - oy)];
    }
    ox', oy' := cx', cy';
    // Nor does the test at lines 146-149: (ox, oy) is now a pixel of the image.
    assert ox' >= 0 && oy' >= 0;
    found := true;
  }

  // ----- the scan on a bordered image

  /** Where the cursor may be in each mode: on foreground, except in a
      backscan, which runs along the row below pixels off the border. */
  ghost predicate Placed(img: Image, cx: int, cy: int, m: Mode)
    reads img
  {
    Inside(img, cx, cy) && if Backscanning(m) then Interior(img, cx, cy - 1) else Fg(img, cx, cy)
  }

  /** On a bordered image a pass from a placed cursor stays inside the image. */
  lemma PlacedSafe(img: Image, cx: int, cy: int, m: Mode)
    requires Bordered(img) && Placed(img, cx, cy, m)
    ensures !Overruns(img, cx, cy, m)
  {
  }

  /** Stitching modes rank below the sliding ones. */
  function Rank(m: Mode): nat {
    if Stitching(m) then 0 else 1
  }

  /** How far a slide can still go: to the right edge when sliding right,
      to column 0 when sliding left. */
  function Far(w: int, m: Mode, cx: int): nat {
    var d := if m == RightOverscan || m == LeftBackscan then w - cx
             else if m == LeftOverscan || m == RightBackscan then cx
             else 0;
    if d < 0 then 0 else d
  }

  /** The scan's progress measure, ordered lexicographically: the
      foreground, then the rank of the mode, then the room left to slide. */
  ghost predicate Below(w: int, S': set<(int, int)>, m': Mode, x': int, S: set<(int, int)>, m: Mode, x: int) {
    S' < S || (S' == S && (Rank(m') < Rank(m) || (Rank(m') == Rank(m) && Far(w, m', x') < Far(w, m, x))))
  }

  lemma BelowTrans(w: int, S'': set<(int, int)>, m'': Mode, x'': int, S': set<(int, int)>, m': Mode, x': int,
                   S: set<(int, int)>, m: Mode, x: int)
    requires Below(w, S'', m'', x'', S', m', x') && Below(w, S', m', x', S, m, x)
    ensures Below(w, S'', m'', x'', S, m, x)
  {
  }

  /** A pass from a placed cursor on a bordered image: it stays inside the
      image, keeps the border and the covering, and either leaves the cursor
      placed and the progress measure lower, or calls for findStart from a
      backscan without changing the image. */
  method TickOn(img: Image, ghost orig: seq<seq<Pixel>>, cx: int, cy: int, mode: Mode)
    returns (cx': int, cy': int, mode': Mode, stop: bool, search: bool)
    requires Bordered(img) && CoversAll(orig, img) && Placed(img, cx, cy, mode)
    modifies img
    ensures Bordered(img) && CoversAll(orig, img) && Inside(img, cx', cy') && Allowed(mode, mode')
    ensures !search ==> Placed(img, cx', cy', mode')
    ensures !search ==> Below(img.Length0, FgSet(img), mode', cx', old(FgSet(img)), mode, cx)
    ensures search ==> Backscanning(mode) && mode' == Right && unchanged(img)
  {
    if Stitching(mode) {
      cx', cy', mode' := StitchOn(img, orig, cx, cy, mode);
      stop, search := false, false;
    } else {
      cx', mode', stop, search := SlideOn(img, cx, cy, mode);
      cy' := cy;
    }
  }

  /** A pass in MODE_RIGHT or MODE_LEFT from a foreground cursor: the cursor
      pixel is stitched, so the foreground shrinks. */
  method StitchOn(img: Image, ghost orig: seq<seq<Pixel>>, cx: int, cy: int, mode: Mode)
    returns (cx': int, cy': int, mode': Mode)
    requires Stitching(mode) && Bordered(img) && CoversAll(orig, img) && Placed(img, cx, cy, mode)
    modifies img
    ensures Bordered(img) && CoversAll(orig, img) && Allowed(mode, mode') && Placed(img, cx', cy', mode')
    ensures FgSet(img) < old(FgSet(img))
  {
    ghost var before := Snapshot(img);
    SnapshotFg(img);
    PlacedSafe(img, cx, cy, mode);
    var fault, stop, search;
    fault, cx', cy', mode', stop, search := Tick(img, cx, cy, mode);
    StitchedColour();
    CoversStitch(orig[cx][cy], before[cx][cy]);
    forall x, y | Inside(img, x, y)
      ensures PathFilling.Stitches(before[x][y], img[x, y])
    {
    }
    PathFilling.Shrinks(img, before, cx, cy);
  }

  /** A pass in an overscan or backscan mode: the image is left alone and
      the cursor slides one column or stays for findStart. */
  method SlideOn(img: Image, cx: int, cy: int, mode: Mode)
    returns (cx': int, mode': Mode, stop: bool, search: bool)
    requires !Stitching(mode) && Bordered(img) && Placed(img, cx, cy, mode)
    modifies img
    ensures unchanged(img) && Allowed(mode, mode') && Inside(img, cx', cy)
    ensures !search ==> Placed(img, cx', cy, mode') && (Rank(mode') < Rank(mode) || Far(img.Length0, mode', cx') < Far(img.Length0, mode, cx))
    ensures search ==> Backscanning(mode) && mode' == Right
  {
    PlacedSafe(img, cx, cy, mode);
    var fault, cy';
    fault, cx', cy', mode', stop, search := Tick(img, cx, cy, mode);
  }

  /** Everything the scan keeps: the border and the covering, the first
      start (foreground in `orig`), and the steps, which lead from the first
      start to (ox, oy), a pixel off the left edge. */
  ghost predicate Kept(img: Image, orig: seq<seq<Pixel>>, ox: int, oy: int, path: seq<Step>, first: (int, int))
    reads img
  {
    Bordered(img) && CoversAll(orig, img)
    && Inside(img, first.0, first.1) && Red(orig[first.0][first.1]) != 0
    && 1 <= ox && Total(path) == Step(ox - first.0, oy - first.1)
  }

  /** The state at the top of each pass of the for loop. */
  ghost predicate Scanning(img: Image, orig: seq<seq<Pixel>>, cx: int, cy: int, mode: Mode,
                           ox: int, oy: int, path: seq<Step>, first: (int, int))
    reads img
  {
    Kept(img, orig, ox, oy, path, first) && Placed(img, cx, cy, mode)
  }

  /** No foreground pixel is closer to (cx, cy) than the search bound. */
  ghost predicate Exhausted(img: Image, cx: int, cy: int)
    reads img
  {
    forall x, y :: Inside(img, x, y) && Fg(img, x, y) ==> Dist(cx, cy, x, y) >= NO_DIST
  }

  /** The state once findStart has found nothing. */
  ghost predicate Ending(img: Image, orig: seq<seq<Pixel>>, cx: int, cy: int,
                         ox: int, oy: int, path: seq<Step>, first: (int, int))
    reads img
  {
    Kept(img, orig, ox, oy, path, first) && Inside(img, cx, cy) && Exhausted(img, cx, cy)
  }

  /** findStart within the scan: the jump is always recorded, since (ox, oy)
      is off the left edge, so the steps still lead to (ox, oy). */
  method Restart(img: Image, ghost orig: seq<seq<Pixel>>, cx: int, cy: int, ox: int, oy: int,
                 path: seq<Step>, ghost first: (int, int))
    returns (found: bool, cx': int, cy': int, ox': int, oy': int, path': seq<Step>)
    requires Kept(img, orig, ox, oy, path, first) && Inside(img, cx, cy)
    modifies img
    ensures found ==> Scanning(img, orig, cx', cy', Right, ox', oy', path', first)
    ensures found ==> FgSet(img) == old(FgSet(img))
    ensures !found ==> Ending(img, orig, cx', cy', ox', oy', path', first)
  {
    ghost var S := FgSet(img);
    label search:
    found, cx', cy', ox', oy', path' := FindStart(img, cx, cy, ox, oy, path);
    if found {
      forall x, y | Inside(img, x, y)
        ensures Covers(orig[x][y], img[x, y])
        ensures Red(img[x, y]) == Red(old@search(img[x, y])) && Blue(img[x, y]) == Blue(old@search(img[x, y]))
      {
        CoversMarks(orig[x][y], old@search(img[x, y]), img[x, y]);
      }
      assert FgSet(img) == S;
      PathFilling.Telescope(path, path', first.0, first.1, ox, oy, cx', cy');
    }
  }

  /** One pass of the for loop, findStart included. */
  method Pass(img: Image, ghost orig: seq<seq<Pixel>>, cx: int, cy: int, mode: Mode,
              ox: int, oy: int, path: seq<Step>, ghost first: (int, int))
    returns (running: bool, cx': int, cy': int, mode': Mode, ox': int, oy': int, path': seq<Step>, stop: bool)
    requires Scanning(img, orig, cx, cy, mode, ox, oy, path, first)
    modifies img
    ensures running ==> Scanning(img, orig, cx', cy', mode', ox', oy', path', first)
    ensures running ==> Below(img.Length0, FgSet(img), mode', cx', old(FgSet(img)), mode, cx)
    ensures !running ==> Ending(img, orig, cx', cy', ox', oy', path', first)
  {
    var search;
    cx', cy', mode', stop, search := TickOn(img, orig, cx, cy, mode);
    running, ox', oy', path' := true, ox, oy, path;
    if search {
      running, cx', cy', ox', oy', path' := Restart(img, orig, cx', cy', ox, oy, path, first);
    }
  }

  /** The for loop of lines 228-297 on a bordered image, ending as soon as
      findStart finds nothing: at most maxStitch passes, each inside the
      image and lowering the progress measure. */
  method Round(img: Image, ghost orig: seq<seq<Pixel>>, cx: int, cy: int, mode: Mode,
               ox: int, oy: int, path: seq<Step>, ghost first: (int, int), maxStitch: nat)
    returns (running: bool, cx': int, cy': int, mode': Mode, ox': int, oy': int, path': seq<Step>)
    requires maxStitch >= 1 && Scanning(img, orig, cx, cy, mode, ox, oy, path, first)
    modifies img
    ensures running ==> Scanning(img, orig, cx', cy', mode', ox', oy', path', first)
    ensures running ==> Below(img.Length0, FgSet(img), mode', cx', old(FgSet(img)), mode, cx)
    ensures !running ==> Ending(img, orig, cx', cy', ox', oy', path', first)
  {
    ghost var S := FgSet(img);
    running, cx', cy', mode', ox', oy', path' := true, cx, cy, mode, ox, oy, path;
    var i := 0;
    while i < maxStitch
      invariant 0 <= i <= maxStitch + 1
      invariant running ==> Scanning(img, orig, cx', cy', mode', ox', oy', path', first)
      invariant i == 0 ==> FgSet(img) == S && mode' == mode && cx' == cx
      invariant running && i > 0 ==> Below(img.Length0, FgSet(img), mode', cx', S, mode, cx)
      invariant !running ==> Ending(img, orig, cx', cy', ox', oy', path', first)
    {
      ghost var S1, m1, x1 := FgSet(img), mode', cx';
      var stop;
      running, cx', cy', mode', ox', oy', path', stop := Pass(img, orig, cx', cy', mode', ox', oy', path', first);
      if !running {
        break;
      }
      if i > 0 {
        BelowTrans(img.Length0, FgSet(img), mode', cx', S1, m1, x1, S, mode, cx);
      }
      if stop {
        i := maxStitch;
      }
      i := i + 1;
    }
  }

  /** The scan is over: findStart found nothing near the cursor, and the
      steps lead from the first start to the cursor. */
  ghost predicate Finished(img: Image, orig: seq<seq<Pixel>>, cx: int, cy: int, path: seq<Step>, first: (int, int))
    reads img
  {
    Bordered(img) && CoversAll(orig, img) && Inside(img, cx, cy) && Exhausted(img, cx, cy)
    && path != [] && Total(path) == Step(cx - first.0, cy - first.1)
  }

  /** The first findStart, from (0, 0) with (ox, oy) = (-1, -1): the jump
      to the first start is not recorded. */
  method Begin(img: Image, ghost orig: seq<seq<Pixel>>)
    returns (found: bool, cx: int, cy: int, ox: int, oy: int, path: seq<Step>)
    requires Bordered(img) && Shaped(orig, img) && forall x, y :: Inside(img, x, y) ==> orig[x][y] == img[x, y]
    modifies img
    ensures found <==> old(NearestTo(img, 0, 0)).x >= 0
    ensures !found ==> unchanged(img) && cx == 0 && cy == 0 && path == [] && Exhausted(img, 0, 0)
    ensures found ==> Scanning(img, orig, cx, cy, Right, ox, oy, path, (cx, cy))
    ensures found ==> var b := old(NearestTo(img, 0, 0));
      Reaches(old(FgSet(img)), (b.x, b.y), (cx, cy))
      && (forall q :: Reaches(old(FgSet(img)), (b.x, b.y), q) ==> NotAfter(cx, cy, q))
  {
    label start:
    found, cx, cy, ox, oy, path := FindStart(img, 0, 0, -1, -1, []);
    if found {
      forall x, y | Inside(img, x, y)
        ensures Covers(orig[x][y], img[x, y])
      {
        CoversMarks(orig[x][y], old@start(img[x, y]), img[x, y]);
      }
    }
  }

  /** One pass of main's while loop: a round of the for loop, then the
      step from (ox, oy) to the cursor. */
  method Stretch(img: Image, ghost orig: seq<seq<Pixel>>, cx: int, cy: int, mode: Mode,
                 ox: int, oy: int, path: seq<Step>, ghost first: (int, int), maxStitch: nat)
    returns (running: bool, cx': int, cy': int, mode': Mode, path': seq<Step>)
    requires maxStitch >= 1 && Scanning(img, orig, cx, cy, mode, ox, oy, path, first)
    modifies img
    ensures running ==> Scanning(img, orig, cx', cy', mode', cx', cy', path', first)
    ensures running ==> Below(img.Length0, FgSet(img), mode', cx', old(FgSet(img)), mode, cx)
    ensures !running ==> Finished(img, orig, cx', cy', path', first)
  {
    var ox', oy', steps;
    running, cx', cy', mode', ox', oy', steps := Round(img, orig, cx, cy, mode, ox, oy, path, first, maxStitch);
    path' := steps + [Step(cx' - ox', cy' - oy')];
    PathFilling.Telescope(steps, path', first.0, first.1, ox', oy', cx', cy');
    if running {
      assert 1 <= cx' by {
        assert Interior(img, cx', cy') || Interior(img, cx', cy' - 1);
      }
    }
  }

  /** The body of main from its cursor at (0, 0), with the random numbers as
      `draws` and the scan ending once findStart finds nothing. It returns
      the recorded steps, the final cursor and (ghost) the first start: the
      top-left pixel of the region of the nearest foreground pixel to (0, 0).
      Every stitched pixel was foreground, nothing else changes but the green
      bytes, and no foreground is left near the final cursor. The
      ox > 0 test drops only the very first jump, since every later (ox, oy)
      is off the left edge: the steps lead from the first start to the end. */
  method Fill(img: Image, draws: nat -> nat) returns (path: seq<Step>, cx: int, cy: int, ghost first: (int, int))
    requires Bordered(img)
    modifies img
    ensures Bordered(img)
    ensures forall x, y :: Inside(img, x, y) ==> Covers(old(img[x, y]), img[x, y])
    ensures forall x, y :: Inside(img, x, y) && Fg(img, x, y) ==> Dist(cx, cy, x, y) >= NO_DIST
    ensures path == [] <==> old(NearestTo(img, 0, 0)).x < 0
    ensures path == [] ==> cx == 0 && cy == 0 && unchanged(img)
    ensures path != [] ==> Inside(img, cx, cy) && Total(path) == Step(cx - first.0, cy - first.1)
    ensures path != [] ==> var b := old(NearestTo(img, 0, 0));
      Reaches(old(FgSet(img)), (b.x, b.y), first)
      && (forall q :: Reaches(old(FgSet(img)), (b.x, b.y), q) ==> NotAfter(first.0, first.1, q))
  {
    ghost var orig := Snapshot(img);
    var running, ox, oy;
    running, cx, cy, ox, oy, path := Begin(img, orig);
    first := (cx, cy);
    if !running {
      return;
    }
    var mode := Right;
    var k := 0;
    while running
      invariant running ==> Scanning(img, orig, cx, cy, mode, ox, oy, path, first)
      invariant !running ==> Finished(img, orig, cx, cy, path, first)
      decreases running, FgSet(img), Rank(mode), Far(img.Length0, mode, cx)
    {
      running, cx, cy, mode, path := Stretch(img, orig, cx, cy, mode, ox, oy, path, first, PathFilling2.WalkLength(draws, k));
      ox, oy := cx, cy;
      k := k + 1;
    }
  }

  // ----- the scan as written

  /** No pixel holds foreground. */
  ghost predicate NoFg(img: Image)
    reads img
  {
    forall x, y :: Inside(img, x, y) ==> !Fg(img, x, y)
  }

  /** With no foreground left the search finds nothing. */
  lemma NothingNear(img: Image, cx: int, cy: int)
    requires NoFg(img)
    ensures NearestTo(img, cx, cy).x < 0
  {
    NearestIsNearest(img, cx, cy);
  }

  /** A right backscan on the bottom row, with no foreground left and no
      blue byte behind and above: its findStart fails. */
  ghost predicate Stranded(img: Image, cx: int, cy: int, m: Mode)
    reads img
  {
    m == RightBackscan && NoFg(img) && cy == img.Length1 - 1
    && Inside(img, cx - 1, cy - 1) && Inside(img, cx + 1, cy) && Blue(img[cx - 1, cy - 1]) == 0
  }

  /** The for loop of lines 228-297 as written, from pass i0: when findStart
      fails, `running` becomes false but the loop goes on, in MODE_RIGHT, for
      the remaining passes. `fault` reports the first pass that would touch a
      pixel outside the image. From a stranded backscan with two passes left
      it does: the failed search leaves the cursor on the bottom row, and
      MODE_RIGHT then drops below it. */
  method RoundAsWritten(img: Image, cx: int, cy: int, mode: Mode, ox: int, oy: int, path: seq<Step>,
                        i0: nat, maxStitch: nat)
    returns (fault: bool, running: bool, cx': int, cy': int, mode': Mode, ox': int, oy': int, path': seq<Step>)
    modifies img
    ensures old(Stranded(img, cx, cy, mode)) && i0 + 2 <= maxStitch ==> fault
  {
    ghost var stranded := Stranded(img, cx, cy, mode);
    fault, running, cx', cy', mode', ox', oy', path' := false, true, cx, cy, mode, ox, oy, path;
    var i := i0;
    while i < maxStitch
      invariant i0 <= i && (i0 < maxStitch ==> i <= maxStitch + 1)
      invariant stranded ==> !fault
      invariant stranded && i == i0 ==> Stranded(img, cx', cy', mode')
      invariant stranded && i != i0 ==>
                  i == i0 + 1 && mode' == Right && NoFg(img) && cy' + 1 == img.Length1
                  && Inside(img, cx', cy') && Inside(img, cx' + 1, cy')
    {
      var stop, search;
      if stranded && i == i0 {
        NothingNear(img, cx', cy');
      }
      fault, cx', cy', mode', stop, search := Tick(img, cx', cy', mode');
      if fault {
        break;
      }
      if search {
        running, cx', cy', ox', oy', path' := FindStart(img, cx', cy', ox', oy', path');
      }
      if stop {
        i := maxStitch;
      }
      i := i + 1;
    }
  }

  /** The counterexample: a bordered 3 x 3 image whose one foreground pixel
      is the centre. The first findStart lands on (1, 1); pass 0 stitches it
      and drops to (1, 2) in MODE_RIGHTBACKSCAN, stranded; the as-written
      loop, with at least MINSTITCH passes, then reads row 3. */
  method OverrunWitness(draws: nat -> nat) returns (fault: bool)
    ensures fault
  {
    var img := new Pixel[3, 3]((x, y) => if x == 1 && y == 1 then Pixel(0xff, 0xff, 0xff, 0xff) else Blank);
    assert Fg(img, 1, 1);
    NearestIsNearest(img, 0, 0);
    var found, cx, cy, ox, oy, path := FindStart(img, 0, 0, -1, -1, []);
    assert found;
    assert cx == 1 && cy == 1;
    var fault0, mode, stop, search;
    fault0, cx, cy, mode, stop, search := Tick(img, cx, cy, Right);
    assert Stranded(img, cx, cy, mode);
    var running;
    fault, running, cx, cy, mode, ox, oy, path := RoundAsWritten(img, cx, cy, mode, ox, oy, path, 1, PathFilling2.WalkLength(draws, 0));
  }

  /** On an image whose diagonal is shorter than the search bound the scan
      stitches every foreground pixel and keeps every other pixel's red,
      blue and alpha bytes. */
  lemma ScanCoversSmallImages(before: Image, after: Image, cx: int, cy: int)
    requires before.Length0 == after.Length0 && before.Length1 == after.Length1
    requires Rating.Sq(before.Length0 - 1) + Rating.Sq(before.Length1 - 1) < NO_DIST && Inside(before, cx, cy)
    requires forall x, y :: Inside(before, x, y) ==> Covers(before[x, y], after[x, y])
    requires Exhausted(after, cx, cy)
    ensures forall x, y :: Inside(before, x, y) && Fg(before, x, y) ==> after[x, y] == Stitched
    ensures forall x, y :: Inside(before, x, y) && !Fg(before, x, y) ==>
              Red(after[x, y]) == Red(before[x, y]) && Blue(after[x, y]) == Blue(before[x, y])
              && Alpha(after[x, y]) == Alpha(before[x, y])
  {
    forall x, y | Inside(before, x, y) && Fg(before, x, y)
      ensures after[x, y] == Stitched
    {
      DistWithinImage(before, cx, cy, x, y);
    }
  }
}
