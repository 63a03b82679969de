/** path-guessing.c++: the earlier hill climber. RGBW::mutate(stage) has
    only grow and mutate (this file has no Path::shrink), and the score of
    a candidate is its pixel rating minus the stitch cost of the current
    bundle. */
module Guessing {
  import opened Paths
  import opened Bundles

  const STITCH_COST := 10
  const SCALE := 3
  const SPIRAL_DISTANCE := 50
  const INITIAL_QUALITY := -9999999999

  /** The number of operator choices open at a stage: 2, 4, 6, 8, then 8. */
  function StageMax(stage: nat): (m: nat)
    ensures stage < 4 ==> m == 2 * (stage + 1)
    ensures stage >= 3 ==> m == 8
  {
    match stage
    case 0 => 2
    case 1 => 4
    case 2 => 6
    case _ => 8
  }

  /** RGBW::mutate(stage): choice c = rand() % max picks path c / 2 in the
      order w, r, g, b; an even c grows it, an odd c mutates it. */
  function StageMutate(x: RGBW, stage: nat, choice: nat, o: OpDraw): RGBW
    requires NonEmpty(x)
  {
    var c := choice % StageMax(stage);
    if c % 2 == 0 then GrowOne(x, c / 2, o) else MutateOne(x, c / 2, o)
  }

  /** Exactly the chosen path may change, by the chosen operator; the
      stitch count grows by one on a grow and is kept on a mutation, so it
      never decreases. */
  lemma StageMutateDispatch(x: RGBW, stage: nat, choice: nat, o: OpDraw, e: int)
    requires NonEmpty(x) && 0 <= e < 4
    ensures var c := choice % StageMax(stage);
      var y := StageMutate(x, stage, choice, o);
      (e != c / 2 ==> PathOf(y, e) == PathOf(x, e)) &&
      (c % 2 == 0 ==> PathOf(y, c / 2) == GrowDrawn(PathOf(x, c / 2), o) && StitchCount(y) == StitchCount(x) + 1) &&
      (c % 2 == 1 ==> PathOf(y, c / 2) == MutateDrawn(PathOf(x, c / 2), o) && StitchCount(y) == StitchCount(x)) &&
      StitchCount(y) >= StitchCount(x) && SameColors(x, y) && NonEmpty(y)
  {
  }

  /** At stage 0 only the white path can change. */
  lemma StageZeroTouchesWhite(x: RGBW, choice: nat, o: OpDraw)
    requires NonEmpty(x)
    ensures var y := StageMutate(x, 0, choice, o); y.r == x.r && y.g == x.g && y.b == x.b
  {
    StageMutateDispatch(x, 0, choice, o, 1);
    StageMutateDispatch(x, 0, choice, o, 2);
    StageMutateDispatch(x, 0, choice, o, 3);
  }

  /** rgbw.initPaths(tmp): the spiral with fixed step length 50 on each of
      the four paths. */
  method InitRGBW(w: int, h: int) returns (x: RGBW)
    requires w >= 0 && h >= 0
    ensures NonEmpty(x) && SameColors(NewRGBW(), x) && StitchCount(x) >= 24
    ensures forall c :: 0 <= c < 4 ==> InitPathOf(w, h, PathOf(NewRGBW(), c), PathOf(x, c), SPIRAL_DISTANCE, InitDraws([], []))
  {
    var none := InitDraws([], []);
    var e := NewRGBW();
    x := InitPaths(e, w, h, SPIRAL_DISTANCE, none, none, none, none);
  }

  datatype Draw = Draw(choice: nat, op: OpDraw)

  /** The variables of main's loop: rgbw, quality and stage. */
  datatype State = State(bundle: RGBW, quality: int, stage: nat)

  /** One iteration: quality2 = rate(zoomedImg, zoomed of n) -
      rgbw.stitchCount() * STITCH_COST, with the count of the current
      bundle rather than of n; n is kept only when quality2 > quality.
      `pixelRating` stands for rendering, simulateRGBView and rate. */
  function Iterate(s: State, d: Draw, pixelRating: RGBW -> int): State
    requires NonEmpty(s.bundle)
  {
    var n := StageMutate(s.bundle, s.stage, d.choice, d.op);
    var quality2 := pixelRating(n) - StitchCount(s.bundle) * STITCH_COST;
    if quality2 > s.quality then State(n, quality2, s.stage + 1) else s.(stage := s.stage + 1)
  }

  function Climb(s: State, ds: seq<Draw>, pixelRating: RGBW -> int): (t: State)
    requires NonEmpty(s.bundle)
    ensures NonEmpty(t.bundle)
    decreases |ds|
  {
    if ds == [] then s
    else
      var prev := Climb(s, ds[..|ds| - 1], pixelRating);
      StageMutateDispatch(prev.bundle, prev.stage, ds[|ds| - 1].choice, ds[|ds| - 1].op, 0);
      Iterate(prev, ds[|ds| - 1], pixelRating)
  }

  /** quality never decreases and rises exactly when the copy is kept;
      because the stitch term is the current bundle's, a grow is charged
      nothing in the iteration that accepts it. */
  lemma IterateAccepts(s: State, d: Draw, pixelRating: RGBW -> int)
    requires NonEmpty(s.bundle)
    ensures var t := Iterate(s, d, pixelRating);
      var n := StageMutate(s.bundle, s.stage, d.choice, d.op);
      t.stage == s.stage + 1 && t.quality >= s.quality &&
      (t.quality > s.quality <==> pixelRating(n) - StitchCount(s.bundle) * STITCH_COST > s.quality) &&
      (t.quality > s.quality ==> t.bundle == n && t.quality == pixelRating(n) - StitchCount(s.bundle) * STITCH_COST) &&
      (t.quality == s.quality ==> t.bundle == s.bundle)
  {
  }

  lemma {:induction false} ClimbMonotone(s: State, ds: seq<Draw>, pixelRating: RGBW -> int)
    requires NonEmpty(s.bundle)
    ensures Climb(s, ds, pixelRating).quality >= s.quality
    ensures Climb(s, ds, pixelRating).stage == s.stage + |ds|
    ensures StitchCount(Climb(s, ds, pixelRating).bundle) >= StitchCount(s.bundle)
    ensures SameColors(s.bundle, Climb(s, ds, pixelRating).bundle)
    decreases |ds|
  {
    if ds != [] {
      var prev := Climb(s, ds[..|ds| - 1], pixelRating);
      ClimbMonotone(s, ds[..|ds| - 1], pixelRating);
      IterateAccepts(prev, ds[|ds| - 1], pixelRating);
      StageMutateDispatch(prev.bundle, prev.stage, ds[|ds| - 1].choice, ds[|ds| - 1].op, 0);
    }
  }

  /** The main loop of path-guessing.c++ for |ds| iterations, from the
      initial bundle, quality -9999999999 and stage 0. */
  method HillClimb(x: RGBW, ds: seq<Draw>, pixelRating: RGBW -> int) returns (rgbw: RGBW, quality: int, stage: nat)
    requires NonEmpty(x)
    ensures State(rgbw, quality, stage) == Climb(State(x, INITIAL_QUALITY, 0), ds, pixelRating)
    ensures quality >= INITIAL_QUALITY && stage == |ds| && NonEmpty(rgbw) && SameColors(x, rgbw)
    ensures StitchCount(rgbw) >= StitchCount(x)
  {
    rgbw, quality, stage := x, INITIAL_QUALITY, 0;
    var i := 0;
    while i < |ds|
      invariant 0 <= i <= |ds| && NonEmpty(rgbw)
      invariant State(rgbw, quality, stage) == Climb(State(x, INITIAL_QUALITY, 0), ds[..i], pixelRating)
    {
      assert ds[..i + 1][..i] == ds[..i];
      var n := StageMutate(rgbw, stage, ds[i].choice, ds[i].op);
      StageMutateDispatch(rgbw, stage, ds[i].choice, ds[i].op, 0);
      stage := stage + 1;
      var quality2 := pixelRating(n) - StitchCount(rgbw) * STITCH_COST;
      if quality2 > quality {
        rgbw := n;
        quality := quality2;
      }
      i := i + 1;
    }
    assert ds[..i] == ds;
    ClimbMonotone(State(x, INITIAL_QUALITY, 0), ds, pixelRating);
  }
}
