/** path-guessing3.c++: a hill climber over one RGBW bundle.

    Each iteration copies the current bundle, applies one operator chosen
    by RGBW::mutate(stage), scores the copy and keeps it only on a strict
    improvement. The score is the pixel rating of the copy plus a
    stitch-direction rating, which is computed on the current bundle. */
module Guessing3 {
  import opened Paths
  import opened Bundles

  const STITCH_COST := 50
  const PIXEL_COST := 10
  const SCALE := 2
  const INITIAL_QUALITY := -999999999999999

  /** The number of operator choices open at a stage. */
  function StageMax(stage: nat): (m: nat)
    ensures stage < 4 ==> m == 2 * (stage + 1)
    ensures stage >= 4 ==> m == 12
  {
    match stage
    case 0 => 2
    case 1 => 4
    case 2 => 6
    case 3 => 8
    case _ => 12
  }

  /** RGBW::mutate(stage): choice c = rand() % max picks path c / 3 in the
      order w, r, g, b and the operator by c % 3: grow, mutate, shrink. The
      operator's own draws are in o. */
  function StageMutate(x: RGBW, stage: nat, choice: nat, o: OpDraw): RGBW
    requires NonEmpty(x)
  {
    var c := choice % StageMax(stage);
    var path := c / 3;
    if c % 3 == 0 then GrowOne(x, path, o)
    else if c % 3 == 1 then MutateOne(x, path, o)
    else ShrinkOne(x, path, o)
  }

  /** Exactly the chosen path may change, by exactly the chosen operator;
      colours are kept and no path becomes empty. */
  lemma StageMutateDispatch(x: RGBW, stage: nat, choice: nat, o: OpDraw, e: int)
    requires NonEmpty(x) && 0 <= e < 4
    ensures var c := choice % StageMax(stage);
      var y := StageMutate(x, stage, choice, o);
      (e != c / 3 ==> PathOf(y, e) == PathOf(x, e)) &&
      (c % 3 == 0 ==> PathOf(y, c / 3) == GrowDrawn(PathOf(x, c / 3), o)) &&
      (c % 3 == 1 ==> PathOf(y, c / 3) == MutateDrawn(PathOf(x, c / 3), o)) &&
      (c % 3 == 2 ==> PathOf(y, c / 3) == ShrinkDrawn(PathOf(x, c / 3), o)) &&
      SameColors(x, y) && NonEmpty(y)
  {
  }

  /** Path c / 3 is the one that can change. At stage 0 (c < 2) that is
      only white; through stage 2 (c < 6) white or red; through stage 3
      (c < 8) also green; blue first from stage 4 (c in 9..11). */
  lemma EarlyStagesTouchFewPaths(x: RGBW, stage: nat, choice: nat, o: OpDraw)
    requires NonEmpty(x)
    ensures stage == 0 ==> StageMutate(x, stage, choice, o).r == x.r
    ensures stage <= 2 ==> StageMutate(x, stage, choice, o).g == x.g
    ensures stage <= 3 ==> StageMutate(x, stage, choice, o).b == x.b
    ensures stage == 0 ==> StageMutate(x, stage, choice, o).g == x.g && StageMutate(x, stage, choice, o).b == x.b
  {
    var c := choice % StageMax(stage);
    StageMutateDispatch(x, stage, choice, o, 1);
    StageMutateDispatch(x, stage, choice, o, 2);
    StageMutateDispatch(x, stage, choice, o, 3);
  }

  /** rgbw.initPaths(tmp): the spiral with step length 5 * DEFAULT_STITCH
      on each of the four paths, with no perturbation after it. */
  method InitRGBW(w: int, h: int, stitch: int) returns (x: RGBW)
    requires w >= 0 && h >= 0 && stitch != 0
    ensures NonEmpty(x) && SameColors(NewRGBW(), x) && StitchCount(x) >= 24
    ensures forall c :: 0 <= c < 4 ==> InitPathOf(w, h, PathOf(NewRGBW(), c), PathOf(x, c), 5 * stitch, InitDraws([], []))
  {
    var none := InitDraws([], []);
    var e := NewRGBW();
    x := InitPaths(e, w, h, 5 * stitch, none, none, none, none);
  }

  /** The draws of one iteration: the rand() % max choice and the operator's draws. */
  datatype Draw = Draw(choice: nat, op: OpDraw)

  /** The variables of main's loop: rgbw, quality and stage. */
  datatype State = State(bundle: RGBW, quality: int, stage: nat)

  /** One iteration: n is the mutated copy; quality2 is the pixel rating of
      n plus the stitch-direction rating of the current bundle; n is kept
      only when quality2 > quality. `pixelRating` stands for rendering,
      simulateRGBView and rate with PIXEL_COST, `directionRating` for
      rateStitchDirection against the edge map. */
  function Iterate(s: State, d: Draw, pixelRating: RGBW -> int, directionRating: RGBW -> int): State
    requires NonEmpty(s.bundle)
  {
    var n := StageMutate(s.bundle, s.stage, d.choice, d.op);
    var quality2 := pixelRating(n) + directionRating(s.bundle);
    if quality2 > s.quality then State(n, quality2, s.stage + 1) else s.(stage := s.stage + 1)
  }

  /** The loop state after the iterations that consume ds. */
  function Climb(s: State, ds: seq<Draw>, pixelRating: RGBW -> int, directionRating: RGBW -> int): (t: State)
    requires NonEmpty(s.bundle)
    ensures NonEmpty(t.bundle)
    decreases |ds|
  {
    if ds == [] then s
    else
      var prev := Climb(s, ds[..|ds| - 1], pixelRating, directionRating);
      StageMutateDispatch(prev.bundle, prev.stage, ds[|ds| - 1].choice, ds[|ds| - 1].op, 0);
      Iterate(prev, ds[|ds| - 1], pixelRating, directionRating)
  }

  /** quality never decreases, rises exactly when the copy is kept, and
      the stage counts iterations. */
  lemma IterateAccepts(s: State, d: Draw, pixelRating: RGBW -> int, directionRating: RGBW -> int)
    requires NonEmpty(s.bundle)
    ensures var t := Iterate(s, d, pixelRating, directionRating);
      var n := StageMutate(s.bundle, s.stage, d.choice, d.op);
      t.stage == s.stage + 1 && t.quality >= s.quality &&
      (t.quality > s.quality <==> pixelRating(n) + directionRating(s.bundle) > s.quality) &&
      (t.quality > s.quality ==> t.bundle == n) && (t.quality == s.quality ==> t.bundle == s.bundle)
  {
  }

  lemma {:induction false} ClimbMonotone(s: State, ds: seq<Draw>, pixelRating: RGBW -> int, directionRating: RGBW -> int)
    requires NonEmpty(s.bundle)
    ensures Climb(s, ds, pixelRating, directionRating).quality >= s.quality
    ensures Climb(s, ds, pixelRating, directionRating).stage == s.stage + |ds|
    ensures SameColors(s.bundle, Climb(s, ds, pixelRating, directionRating).bundle)
    decreases |ds|
  {
    if ds != [] {
      var prev := Climb(s, ds[..|ds| - 1], pixelRating, directionRating);
      ClimbMonotone(s, ds[..|ds| - 1], pixelRating, directionRating);
      IterateAccepts(prev, ds[|ds| - 1], pixelRating, directionRating);
      StageMutateDispatch(prev.bundle, prev.stage, ds[|ds| - 1].choice, ds[|ds| - 1].op, 0);
    }
  }

  /** The main loop of path-guessing3.c++ for |ds| iterations, from the
      initial bundle, quality -999999999999999 and stage 0. */
  method HillClimb(x: RGBW, ds: seq<Draw>, pixelRating: RGBW -> int, directionRating: RGBW -> int)
    returns (rgbw: RGBW, quality: int, stage: nat)
    requires NonEmpty(x)
    ensures State(rgbw, quality, stage) == Climb(State(x, INITIAL_QUALITY, 0), ds, pixelRating, directionRating)
    ensures quality >= INITIAL_QUALITY && stage == |ds| && NonEmpty(rgbw) && SameColors(x, rgbw)
  {
    rgbw, quality, stage := x, INITIAL_QUALITY, 0;
    var i := 0;
    while i < |ds|
      invariant 0 <= i <= |ds| && NonEmpty(rgbw)
      invariant State(rgbw, quality, stage) == Climb(State(x, INITIAL_QUALITY, 0), ds[..i], pixelRating, directionRating)
    {
      ghost var before := State(rgbw, quality, stage);
      ClimbStep(State(x, INITIAL_QUALITY, 0), ds, i, pixelRating, directionRating);
      var n := StageMutate(rgbw, stage, ds[i].choice, ds[i].op);
      StageMutateDispatch(rgbw, stage, ds[i].choice, ds[i].op, 0);
      stage := stage + 1;
      var quality2 := pixelRating(n) + directionRating(rgbw);
      if quality2 > quality {
        rgbw := n;
        quality := quality2;
      }
      assert State(rgbw, quality, stage) == Iterate(before, ds[i], pixelRating, directionRating);
      i := i + 1;
    }
    assert ds[..i] == ds;
    ClimbMonotone(State(x, INITIAL_QUALITY, 0), ds, pixelRating, directionRating);
  }

  /** One more draw is one more iteration. */
  lemma ClimbStep(s: State, ds: seq<Draw>, i: nat, pixelRating: RGBW -> int, directionRating: RGBW -> int)
    requires NonEmpty(s.bundle) && i < |ds|
    ensures Climb(s, ds[..i + 1], pixelRating, directionRating) ==
            Iterate(Climb(s, ds[..i], pixelRating, directionRating), ds[i], pixelRating, directionRating)
  {
    assert ds[..i + 1][..i] == ds[..i];
  }
}
