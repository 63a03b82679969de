/** The four-colour bundle (struct RGBW) shared by the optimisers: one path
    per thread colour, white, red, green and blue, drawn in that order.

    A channel number c in [0, 4) stands for the `switch(rand() % 4)` the
    source uses to pick a path: 0 white, 1 red, 2 green, 3 blue. */
module Bundles {
  import opened Geometry
  import opened Paths

  datatype RGBW = RGBW(w: Path, r: Path, g: Path, b: Path)

  const White := Color(255, 255, 255)
  const Red := Color(255, 0, 0)
  const Green := Color(0, 255, 0)
  const Blue := Color(0, 0, 255)

  /** The RGBW() constructor: four empty paths in their fixed colours. */
  function NewRGBW(): (x: RGBW)
    ensures x.w.color == White && x.r.color == Red && x.g.color == Green && x.b.color == Blue
    ensures StitchCount(x) == 0
  {
    RGBW(Path([], White), Path([], Red), Path([], Green), Path([], Blue))
  }

  function PathOf(x: RGBW, c: int): Path
    requires 0 <= c < 4
  {
    if c == 0 then x.w else if c == 1 then x.r else if c == 2 then x.g else x.b
  }

  function WithPath(x: RGBW, c: int, p: Path): (y: RGBW)
    requires 0 <= c < 4
    ensures PathOf(y, c) == p
    ensures forall e :: 0 <= e < 4 && e != c ==> PathOf(y, e) == PathOf(x, e)
  {
    if c == 0 then x.(w := p) else if c == 1 then x.(r := p) else if c == 2 then x.(g := p) else x.(b := p)
  }

  /** RGBW::stitchCount: the total number of steps over the four paths. */
  function StitchCount(x: RGBW): nat {
    |x.w.steps| + |x.r.steps| + |x.g.steps| + |x.b.steps|
  }

  lemma StitchCountWithPath(x: RGBW, c: int, p: Path)
    requires 0 <= c < 4
    ensures StitchCount(WithPath(x, c, p)) == StitchCount(x) - |PathOf(x, c).steps| + |p.steps|
  {
  }

  /** No path of the bundle is empty, which is what grow needs. */
  predicate NonEmpty(x: RGBW) {
    |x.w.steps| > 0 && |x.r.steps| > 0 && |x.g.steps| > 0 && |x.b.steps| > 0
  }

  lemma NonEmptyWithPath(x: RGBW, c: int, p: Path)
    requires 0 <= c < 4 && NonEmpty(x) && |p.steps| > 0
    ensures NonEmpty(WithPath(x, c, p))
  {
  }

  predicate SameColors(x: RGBW, y: RGBW) {
    x.w.color == y.w.color && x.r.color == y.r.color && x.g.color == y.g.color && x.b.color == y.b.color
  }

  /** The bundle-level mutate: Path::mutate on path c; the other three paths stay. */
  function MutateOne(x: RGBW, c: int, o: OpDraw): (y: RGBW)
    requires 0 <= c < 4
    ensures forall e :: 0 <= e < 4 && e != c ==> PathOf(y, e) == PathOf(x, e)
    ensures PathOf(y, c) == MutateDrawn(PathOf(x, c), o)
    ensures StitchCount(y) == StitchCount(x) && SameColors(x, y)
    ensures NonEmpty(x) ==> NonEmpty(y)
  {
    var y := WithPath(x, c, MutateDrawn(PathOf(x, c), o));
    StitchCountWithPath(x, c, MutateDrawn(PathOf(x, c), o));
    y
  }

  /** The bundle-level grow: one more stitch on path c only. */
  function GrowOne(x: RGBW, c: int, o: OpDraw): (y: RGBW)
    requires 0 <= c < 4 && |PathOf(x, c).steps| > 0
    ensures forall e :: 0 <= e < 4 && e != c ==> PathOf(y, e) == PathOf(x, e)
    ensures PathOf(y, c) == GrowDrawn(PathOf(x, c), o)
    ensures StitchCount(y) == StitchCount(x) + 1 && SameColors(x, y)
    ensures NonEmpty(x) ==> NonEmpty(y)
  {
    var y := WithPath(x, c, GrowDrawn(PathOf(x, c), o));
    StitchCountWithPath(x, c, GrowDrawn(PathOf(x, c), o));
    y
  }

  /** The bundle-level shrink: one stitch fewer on path c, unless it has fewer than two. */
  function ShrinkOne(x: RGBW, c: int, o: OpDraw): (y: RGBW)
    requires 0 <= c < 4
    ensures forall e :: 0 <= e < 4 && e != c ==> PathOf(y, e) == PathOf(x, e)
    ensures PathOf(y, c) == ShrinkDrawn(PathOf(x, c), o)
    ensures StitchCount(y) == StitchCount(x) - (if |PathOf(x, c).steps| < 2 then 0 else 1)
    ensures SameColors(x, y)
    ensures NonEmpty(x) ==> NonEmpty(y)
  {
    var y := WithPath(x, c, ShrinkDrawn(PathOf(x, c), o));
    StitchCountWithPath(x, c, ShrinkDrawn(PathOf(x, c), o));
    y
  }

  // The outward spiral of RGBW::initPath.

  function Repeat(n: nat, s: Step): (r: seq<Step>)
    ensures |r| == n && forall i :: 0 <= i < n ==> r[i] == s
  {
    if n == 0 then [] else Repeat(n - 1, s) + [s]
  }

  /** One lap of the spiral with side k: k steps right, k down, k + 1 left, k + 1 up. */
  function Lap(k: nat, d: int): seq<Step> {
    Repeat(k, Step(d, 0)) + Repeat(k, Step(0, d)) + Repeat(k + 1, Step(-d, 0)) + Repeat(k + 1, Step(0, -d))
  }

  /** The first n laps, with sides 1, 3, 5, ... */
  function SpiralLaps(n: nat, d: int): seq<Step> {
    if n == 0 then [] else SpiralLaps(n - 1, d) + Lap(2 * n - 1, d)
  }

  lemma {:induction false} TotalRepeat(n: nat, s: Step)
    ensures Total(Repeat(n, s)) == Step(n * s.x, n * s.y)
  {
    if n > 0 {
      TotalRepeat(n - 1, s);
      TotalConcat(Repeat(n - 1, s), [s]);
      assert Pos([s], 0) == Zero;
      assert Total([s]) == Add(Zero, s) == s;
      assert (n - 1) * s.x + s.x == n * s.x;
      assert (n - 1) * s.y + s.y == n * s.y;
    }
  }

  /** Each lap ends one step of d up and to the left of where it began. */
  lemma LapTotal(k: nat, d: int)
    ensures Total(Lap(k, d)) == Step(-d, -d)
  {
    var a, b, c, e := Repeat(k, Step(d, 0)), Repeat(k, Step(0, d)), Repeat(k + 1, Step(-d, 0)), Repeat(k + 1, Step(0, -d));
    assert Lap(k, d) == a + b + c + e;
    TotalRepeat(k, Step(d, 0));
    TotalRepeat(k, Step(0, d));
    TotalRepeat(k + 1, Step(-d, 0));
    TotalRepeat(k + 1, Step(0, -d));
    TotalConcat(a, b);
    TotalConcat(a + b, c);
    TotalConcat(a + b + c, e);
    LapArith(k, d);
  }

  lemma LapArith(k: int, d: int)
    ensures k * d + (k + 1) * -d == -d
  {
  }

  /** After n laps the spiral ends at (-n d, -n d) from its start, and has
      4 n^2 + 2 n steps, each of them axis-aligned of length |d|. */
  lemma {:induction false} SpiralShape(n: nat, d: int)
    ensures Total(SpiralLaps(n, d)) == Step(-(n * d), -(n * d))
    ensures |SpiralLaps(n, d)| == 4 * n * n + 2 * n
    ensures forall i :: 0 <= i < |SpiralLaps(n, d)| ==> AxisStep(SpiralLaps(n, d)[i], d)
  {
    if n > 0 {
      SpiralShape(n - 1, d);
      LapTotal(2 * n - 1, d);
      TotalConcat(SpiralLaps(n - 1, d), Lap(2 * n - 1, d));
      SpiralArith(n, d);
      SpiralAxis(n, d, SpiralLaps(n - 1, d));
    }
  }

  lemma SpiralArith(n: nat, d: int)
    requires n > 0
    ensures -((n - 1) * d) - d == -(n * d)
    ensures 4 * (n - 1) * (n - 1) + 2 * (n - 1) + 4 * (2 * n - 1) + 2 == 4 * n * n + 2 * n
  {
  }

  /** Adding lap n keeps every step of the spiral axis-aligned. */
  lemma SpiralAxis(n: nat, d: int, prev: seq<Step>)
    requires n > 0 && prev == SpiralLaps(n - 1, d)
    requires forall i :: 0 <= i < |prev| ==> AxisStep(prev[i], d)
    ensures forall i :: 0 <= i < |SpiralLaps(n, d)| ==> AxisStep(SpiralLaps(n, d)[i], d)
  {
    forall i | 0 <= i < |SpiralLaps(n, d)|
      ensures AxisStep(SpiralLaps(n, d)[i], d)
    {
      if i >= |prev| {
        LapAxis(2 * n - 1, d, i - |prev|);
      } else {
        assert SpiralLaps(n, d)[i] == prev[i];
      }
    }
  }

  predicate AxisStep(s: Step, d: int) {
    s == Step(d, 0) || s == Step(0, d) || s == Step(-d, 0) || s == Step(0, -d)
  }

  lemma LapAxis(k: nat, d: int, i: nat)
    requires i < |Lap(k, d)|
    ensures AxisStep(Lap(k, d)[i], d)
  {
  }

  /** The loop stops once the pen position is outside [0, w] x [0, h]. */
  predicate Escaped(w: int, h: int, x: int, y: int) {
    x < 0 || x > w || y < 0 || y > h
  }

  /** One of initPath's four inner loops: push n copies of step s and move
      the pen by s each time. */
  method PushRun(r: seq<Step>, pen: Step, n: nat, s: Step) returns (t: seq<Step>, pen': Step)
    ensures t == r + Repeat(n, s)
    ensures pen' == Add(pen, Step(n * s.x, n * s.y))
  {
    t, pen' := r, pen;
    var i := 0;
    while i < n
      invariant 0 <= i <= n && t == r + Repeat(i, s)
      invariant pen' == Add(pen, Step(i * s.x, i * s.y))
    {
      Distribute(i, s.x);
      Distribute(i, s.y);
      t, pen', i := t + [s], Add(pen', s), i + 1;
    }
  }

  lemma Distribute(i: int, d: int)
    ensures (i + 1) * d == i * d + d
  {
  }

  /** The pen position after m laps of the spiral from the canvas centre. */
  function Corner(w: int, h: int, m: int, d: int): Step {
    Step(w / 2 - m * d, h / 2 - m * d)
  }

  /** The pen is outside the canvas after m laps. */
  predicate EscapedAfter(w: int, h: int, m: int, d: int) {
    Escaped(w, h, Corner(w, h, m, d).x, Corner(w, h, m, d).y)
  }

  /** One more lap moves the pen by (-d, -d) and appends Lap(2 * m + 1, d). */
  lemma CornerNext(w: int, h: int, m: nat, d: int)
    ensures Corner(w, h, m + 1, d) == Step(Corner(w, h, m, d).x - d, Corner(w, h, m, d).y - d)
    ensures SpiralLaps(m + 1, d) == SpiralLaps(m, d) + Lap(2 * m + 1, d)
  {
    Distribute(m, d);
  }

  /** RGBW::initPath's spiral: appends whole laps to `steps`, starting at the
      canvas centre (w / 2, h / 2), and stops after the first lap that ends
      outside the canvas. It terminates for every non-zero distance. */
  method Spiral(steps: seq<Step>, w: int, h: int, distance: int) returns (r: seq<Step>, laps: nat)
    requires w >= 0 && h >= 0 && distance != 0
    ensures laps >= 1
    ensures r == steps + SpiralLaps(laps, distance)
    ensures EscapedAfter(w, h, laps, distance)
    ensures forall m :: 1 <= m < laps ==> !EscapedAfter(w, h, m, distance)
  {
    var pen := Step(w / 2, h / 2);
    r, laps := steps, 0;
    while true
      invariant pen == Corner(w, h, laps, distance)
      invariant 0 <= pen.x <= w
      invariant r == steps + SpiralLaps(laps, distance)
      invariant forall m :: 1 <= m <= laps ==> !EscapedAfter(w, h, m, distance)
      decreases if distance > 0 then pen.x else w - pen.x
    {
      r, pen := SpiralLap(r, pen, 2 * laps + 1, distance);
      CornerNext(w, h, laps, distance);
      laps := laps + 1;
      if Escaped(w, h, pen.x, pen.y) {
        break;
      }
    }
  }

  /** One lap of the spiral's loop body: k steps right, k down, k + 1 left, k + 1 up. */
  method SpiralLap(r: seq<Step>, pen: Step, k: nat, d: int) returns (r': seq<Step>, pen': Step)
    ensures r' == r + Lap(k, d)
    ensures pen' == Step(pen.x - d, pen.y - d)
  {
    r', pen' := PushRun(r, pen, k, Step(d, 0));
    r', pen' := PushRun(r', pen', k, Step(0, d));
    r', pen' := PushRun(r', pen', k + 1, Step(-d, 0));
    r', pen' := PushRun(r', pen', k + 1, Step(0, -d));
    LapArith(k, d);
    assert r' == r + (Repeat(k, Step(d, 0)) + Repeat(k, Step(0, d)) + Repeat(k + 1, Step(-d, 0)) + Repeat(k + 1, Step(0, -d)));
  }

  /** Path::mutate applied once per draw, in order. */
  function MutateAll(p: Path, ds: seq<OpDraw>): (q: Path)
    ensures q.color == p.color && |q.steps| == |p.steps| && Total(q.steps) == Total(p.steps)
    decreases |ds|
  {
    if ds == [] then p else MutateDrawn(MutateAll(p, ds[..|ds| - 1]), ds[|ds| - 1])
  }

  /** Path::grow applied once per draw, in order. */
  function GrowAll(p: Path, ds: seq<OpDraw>): (q: Path)
    requires |p.steps| > 0
    ensures q.color == p.color && |q.steps| == |p.steps| + |ds| && Total(q.steps) == Total(p.steps)
    decreases |ds|
  {
    if ds == [] then p else GrowDrawn(GrowAll(p, ds[..|ds| - 1]), ds[|ds| - 1])
  }

  /** RGBW::initPath(p): append the spiral to p, then mutate the result once
      per draw of `mutates` and grow it once per draw of `grows`
      (path-evolving.c++ makes 100 and 200 such calls; the hill climbers
      make none). The perturbation keeps the spiral's end point. */
  method InitPath(p: Path, w: int, h: int, distance: int, mutates: seq<OpDraw>, grows: seq<OpDraw>)
    returns (q: Path, laps: nat)
    requires w >= 0 && h >= 0 && distance != 0
    ensures laps >= 1
    ensures EscapedAfter(w, h, laps, distance)
    ensures forall m :: 1 <= m < laps ==> !EscapedAfter(w, h, m, distance)
    ensures q == GrowAll(MutateAll(p.(steps := p.steps + SpiralLaps(laps, distance)), mutates), grows)
    ensures q.color == p.color
    ensures |q.steps| == |p.steps| + 4 * laps * laps + 2 * laps + |grows|
    ensures Total(q.steps) == Add(Total(p.steps), Step(-(laps * distance), -(laps * distance)))
  {
    var steps;
    steps, laps := Spiral(p.steps, w, h, distance);
    var spiral := p.(steps := steps);
    SpiralShape(laps, distance);
    TotalConcat(p.steps, SpiralLaps(laps, distance));
    var mutated := MutateEach(spiral, mutates);
    q := GrowEach(mutated, grows);
  }

  /** initPath's `for(i < mutates) mutate()` loop, one draw per call. */
  method MutateEach(p: Path, ds: seq<OpDraw>) returns (q: Path)
    ensures q == MutateAll(p, ds)
  {
    q := p;
    var i := 0;
    while i < |ds|
      invariant 0 <= i <= |ds| && q == MutateAll(p, ds[..i])
    {
      assert ds[..i + 1][..i] == ds[..i];
      q := MutateDrawn(q, ds[i]);
      i := i + 1;
    }
    assert ds[..i] == ds;
  }

  /** initPath's `for(i < grows) grow()` loop, one draw per call. */
  method GrowEach(p: Path, ds: seq<OpDraw>) returns (q: Path)
    requires |p.steps| > 0
    ensures q == GrowAll(p, ds)
  {
    q := p;
    var i := 0;
    while i < |ds|
      invariant 0 <= i <= |ds| && q == GrowAll(p, ds[..i])
    {
      assert ds[..i + 1][..i] == ds[..i];
      q := GrowDrawn(q, ds[i]);
      i := i + 1;
    }
    assert ds[..i] == ds;
  }

  /** The per-path draws of one initPaths call. */
  datatype InitDraws = InitDraws(mutates: seq<OpDraw>, grows: seq<OpDraw>)

  /** laps is the lap count at which initPath's while(1) breaks: the first
      lap whose end leaves [0,w] x [0,h]. */
  predicate FirstEscape(w: int, h: int, laps: int, d: int) {
    laps >= 1 && EscapedAfter(w, h, laps, d) && forall m :: 1 <= m < laps ==> !EscapedAfter(w, h, m, d)
  }

  /** At most one lap count is the first escape. */
  lemma FirstEscapeUnique(w: int, h: int, l1: int, l2: int, d: int)
    requires FirstEscape(w, h, l1, d) && FirstEscape(w, h, l2, d)
    ensures l1 == l2
  {
  }

  /** q is what initPath makes of p on a w x h canvas: p followed by the
      spiral up to its first escape, then perturbed by the draws. */
  ghost predicate InitPathOf(w: int, h: int, p: Path, q: Path, distance: int, d: InitDraws) {
    exists laps: nat :: FirstEscape(w, h, laps, distance) && Perturbed(p, q, laps, distance, d)
  }

  /** q is p with laps spiral laps appended, then mutated and grown by d. */
  predicate Perturbed(p: Path, q: Path, laps: nat, distance: int, d: InitDraws) {
    |p.steps + SpiralLaps(laps, distance)| > 0 &&
    q == GrowAll(MutateAll(p.(steps := p.steps + SpiralLaps(laps, distance)), d.mutates), d.grows)
  }

  /** A lap count that is the first escape witnesses InitPathOf. */
  lemma InitPathOfLaps(w: int, h: int, p: Path, q: Path, distance: int, d: InitDraws, laps: nat)
    requires FirstEscape(w, h, laps, distance) && |p.steps + SpiralLaps(laps, distance)| > 0
    requires q == GrowAll(MutateAll(p.(steps := p.steps + SpiralLaps(laps, distance)), d.mutates), d.grows)
    ensures InitPathOf(w, h, p, q, distance, d)
  {
  }

  /** initPath is determined by the canvas, the distance and the draws. */
  lemma InitPathOfUnique(w: int, h: int, p: Path, q1: Path, q2: Path, distance: int, d: InitDraws)
    requires InitPathOf(w, h, p, q1, distance, d) && InitPathOf(w, h, p, q2, distance, d)
    ensures q1 == q2
  {
    var l1: nat :| FirstEscape(w, h, l1, distance) && Perturbed(p, q1, l1, distance, d);
    var l2: nat :| FirstEscape(w, h, l2, distance) && Perturbed(p, q2, l2, distance, d);
    FirstEscapeUnique(w, h, l1, l2, distance);
  }

  /** RGBW::initPaths: initPath on w, r, g and b, in that order. */
  method InitPaths(x: RGBW, w: int, h: int, distance: int, dw: InitDraws, dr: InitDraws, dg: InitDraws, db: InitDraws)
    returns (y: RGBW)
    requires w >= 0 && h >= 0 && distance != 0
    ensures SameColors(x, y) && NonEmpty(y)
    ensures StitchCount(y) >= StitchCount(x) + 24 + |dw.grows| + |dr.grows| + |dg.grows| + |db.grows|
    ensures InitPathOf(w, h, x.w, y.w, distance, dw) && InitPathOf(w, h, x.r, y.r, distance, dr)
    ensures InitPathOf(w, h, x.g, y.g, distance, dg) && InitPathOf(w, h, x.b, y.b, distance, db)
    ensures forall c :: 0 <= c < 4 ==> InitPathOf(w, h, PathOf(x, c), PathOf(y, c), distance, [dw, dr, dg, db][c])
  {
    var pw, lw := InitPath(x.w, w, h, distance, dw.mutates, dw.grows);
    var pr, lr := InitPath(x.r, w, h, distance, dr.mutates, dr.grows);
    var pg, lg := InitPath(x.g, w, h, distance, dg.mutates, dg.grows);
    var pb, lb := InitPath(x.b, w, h, distance, db.mutates, db.grows);
    LapsAtLeastOne(lw);
    LapsAtLeastOne(lr);
    LapsAtLeastOne(lg);
    LapsAtLeastOne(lb);
    InitPathOfLaps(w, h, x.w, pw, distance, dw, lw);
    InitPathOfLaps(w, h, x.r, pr, distance, dr, lr);
    InitPathOfLaps(w, h, x.g, pg, distance, dg, lg);
    InitPathOfLaps(w, h, x.b, pb, distance, db, lb);
    y := RGBW(pw, pr, pg, pb);
    PerColour(w, h, x, y, distance, dw, dr, dg, db);
  }

  lemma PerColour(w: int, h: int, x: RGBW, y: RGBW, distance: int, dw: InitDraws, dr: InitDraws, dg: InitDraws, db: InitDraws)
    requires InitPathOf(w, h, x.w, y.w, distance, dw) && InitPathOf(w, h, x.r, y.r, distance, dr)
    requires InitPathOf(w, h, x.g, y.g, distance, dg) && InitPathOf(w, h, x.b, y.b, distance, db)
    ensures forall c :: 0 <= c < 4 ==> InitPathOf(w, h, PathOf(x, c), PathOf(y, c), distance, [dw, dr, dg, db][c])
  {
    forall c | 0 <= c < 4
      ensures InitPathOf(w, h, PathOf(x, c), PathOf(y, c), distance, [dw, dr, dg, db][c])
    {
      var ds := [dw, dr, dg, db];
      if c == 0 {
        assert PathOf(x, c) == x.w && PathOf(y, c) == y.w && ds[c] == dw;
      } else if c == 1 {
        assert PathOf(x, c) == x.r && PathOf(y, c) == y.r && ds[c] == dr;
      } else if c == 2 {
        assert PathOf(x, c) == x.g && PathOf(y, c) == y.g && ds[c] == dg;
      } else {
        assert PathOf(x, c) == x.b && PathOf(y, c) == y.b && ds[c] == db;
      }
    }
  }

  lemma LapsAtLeastOne(laps: nat)
    requires laps >= 1
    ensures 4 * laps * laps + 2 * laps >= 6
  {
    assert laps * laps >= 1;
  }
}
