/** path-evolving.c++: a generational search over a population of bundles.

    Each individual is an RGBW bundle with a cached quality; NO_QUALITY
    marks a stale cache. One generation evaluates the stale individuals,
    sorts the population by quality and overwrites the lower half with
    offspring of the upper half: mutated, grown or shrunk copies, or a
    proximity crossover of two parents. */
module PathEvolving {
  import opened Geometry
  import opened Paths
  import opened Bundles
  import opened Rating

  const STITCH_COST := 10
  const POPULATION_SIZE := 128
  const NO_QUALITY := -999999999999

  /** Calls of Path::mutate and Path::grow that initPath makes after the spiral. */
  const INIT_MUTATES := 100
  const INIT_GROWS := 200

  /** RGBW of this file: the four paths and the cached quality. */
  datatype Individual = Individual(paths: RGBW, quality: int)

  /** RGBW() of this file: empty paths, no quality. */
  function NewIndividual(): (x: Individual)
    ensures x.quality == NO_QUALITY && StitchCount(x.paths) == 0
  {
    Individual(NewRGBW(), NO_QUALITY)
  }

  /** RGBW::mutate: channel o.channel % 4 (rand() % 4) is mutated and the
      cache is invalidated, even when the path was too short to change. */
  function Mutate(x: Individual, o: OpDraw): (y: Individual)
    ensures y.quality == NO_QUALITY
    ensures y.paths == MutateOne(x.paths, o.channel % 4, o)
  {
    Individual(MutateOne(x.paths, o.channel % 4, o), NO_QUALITY)
  }

  function Grow(x: Individual, o: OpDraw): (y: Individual)
    requires NonEmpty(x.paths)
    ensures y.quality == NO_QUALITY && NonEmpty(y.paths)
    ensures y.paths == GrowOne(x.paths, o.channel % 4, o)
  {
    Individual(GrowOne(x.paths, o.channel % 4, o), NO_QUALITY)
  }

  function Shrink(x: Individual, o: OpDraw): (y: Individual)
    ensures y.quality == NO_QUALITY
    ensures y.paths == ShrinkOne(x.paths, o.channel % 4, o)
  {
    Individual(ShrinkOne(x.paths, o.channel % 4, o), NO_QUALITY)
  }

  /** The bundle operators change only the path the channel draw picks,
      leave every colour alone and always invalidate the cache. */
  lemma OperatorsTouchOnePath(x: Individual, o: OpDraw, e: int)
    requires NonEmpty(x.paths) && 0 <= e < 4 && e != o.channel % 4
    ensures PathOf(Mutate(x, o).paths, e) == PathOf(x.paths, e)
    ensures PathOf(Grow(x, o).paths, e) == PathOf(x.paths, e)
    ensures PathOf(Shrink(x, o).paths, e) == PathOf(x.paths, e)
    ensures SameColors(x.paths, Mutate(x, o).paths) && SameColors(x.paths, Grow(x, o).paths)
    ensures SameColors(x.paths, Shrink(x, o).paths)
    ensures StitchCount(Mutate(x, o).paths) == StitchCount(x.paths)
    ensures StitchCount(Grow(x, o).paths) == StitchCount(x.paths) + 1
    ensures StitchCount(Shrink(x, o).paths) <= StitchCount(x.paths)
  {
  }

  // ----- cross

  /** The proximity test of cross: both axis distances strictly below
      DEFAULT_STITCH, compared as squares. */
  predicate Close(p: Step, q: Step, stitch: int) {
    Sq(p.x - q.x) < Sq(stitch) && Sq(p.y - q.y) < Sq(stitch)
  }

  /** The pairs (ai, bi), bi < n, that the inner loop of cross records for
      row ai: vertex ai + 1 of A is close to vertex bi + 1 of B. */
  function PointsRow(a: seq<Step>, b: seq<Step>, ai: nat, n: nat, stitch: int): (ps: seq<(nat, nat)>)
    requires ai < |a| && n <= |b|
    ensures forall k :: 0 <= k < |ps| ==> ps[k].0 == ai && ps[k].1 < n
    decreases n
  {
    if n == 0 then []
    else PointsRow(a, b, ai, n - 1, stitch) + (if Close(Pos(a, ai + 1), Pos(b, n), stitch) then [(ai, n - 1)] else [])
  }

  /** possiblePoints after the rows ai < m. */
  function Points(a: seq<Step>, b: seq<Step>, m: nat, stitch: int): (ps: seq<(nat, nat)>)
    requires m <= |a|
    ensures forall k :: 0 <= k < |ps| ==> ps[k].0 < m && ps[k].1 < |b|
    decreases m
  {
    if m == 0 then [] else Points(a, b, m - 1, stitch) + PointsRow(a, b, m - 1, |b|, stitch)
  }

  lemma {:induction false} PointsRowIff(a: seq<Step>, b: seq<Step>, ai: nat, n: nat, stitch: int, bi: nat)
    requires ai < |a| && n <= |b|
    ensures (ai, bi) in PointsRow(a, b, ai, n, stitch) <==> bi < n && Close(Pos(a, ai + 1), Pos(b, bi + 1), stitch)
    decreases n
  {
    if n > 0 {
      PointsRowIff(a, b, ai, n - 1, stitch, bi);
    }
  }

  lemma {:induction false} PointsIff(a: seq<Step>, b: seq<Step>, m: nat, stitch: int, ai: nat, bi: nat)
    requires m <= |a|
    ensures (ai, bi) in Points(a, b, m, stitch) <==>
      ai < m && bi < |b| && Close(Pos(a, ai + 1), Pos(b, bi + 1), stitch)
    decreases m
  {
    if m > 0 {
      PointsIff(a, b, m - 1, stitch, ai, bi);
      PointsRowIff(a, b, m - 1, |b|, stitch, bi);
      if (ai, bi) in PointsRow(a, b, m - 1, |b|, stitch) {
        assert ai == m - 1;
      }
    }
  }

  /** A crossover point is a pair whose vertices after ai + 1 and bi + 1
      steps are close, for every ai and bi of the two paths. */
  lemma CrossPoints(a: seq<Step>, b: seq<Step>, stitch: int, ai: nat, bi: nat)
    ensures (ai, bi) in Points(a, b, |a|, stitch) <==>
      ai < |a| && bi < |b| && Close(Pos(a, ai + 1), Pos(b, bi + 1), stitch)
  {
    PointsIff(a, b, |a|, stitch, ai, bi);
  }

  /** The result of cross for pair (ai, bi): A's first ai steps, one bridge
      step from A's vertex ai to B's vertex bi, then B from step bi on. */
  function Splice(a: seq<Step>, b: seq<Step>, ai: nat, bi: nat): seq<Step>
    requires ai <= |a| && bi <= |b|
  {
    a[..ai] + [Sub(Pos(b, bi), Pos(a, ai))] + b[bi..]
  }

  /** The spliced path follows A up to vertex ai, then every vertex of B
      from vertex bi on, and ends where B ends. */
  lemma SpliceShape(a: seq<Step>, b: seq<Step>, ai: nat, bi: nat, k: nat)
    requires ai <= |a| && bi <= |b|
    ensures |Splice(a, b, ai, bi)| == ai + 1 + |b| - bi
    ensures k <= ai ==> Pos(Splice(a, b, ai, bi), k) == Pos(a, k)
    ensures ai < k <= ai + 1 + |b| - bi ==> Pos(Splice(a, b, ai, bi), k) == Pos(b, bi + k - ai - 1)
    ensures Total(Splice(a, b, ai, bi)) == Total(b)
  {
    var s := Splice(a, b, ai, bi);
    var head := a[..ai] + [Sub(Pos(b, bi), Pos(a, ai))];
    assert s == head + b[bi..];
    SpliceHead(a, b, ai, bi);
    if k <= ai {
      PosPrefix(s, a, k);
    } else if k <= ai + 1 + |b| - bi {
      PosConcat(head, b[bi..], k - ai - 1);
      SuffixPos(b, bi, k - ai - 1);
    }
    PosConcat(head, b[bi..], |b| - bi);
    SuffixPos(b, bi, |b| - bi);
  }

  /** The splice's first ai + 1 steps lead to vertex bi of B. */
  lemma SpliceHead(a: seq<Step>, b: seq<Step>, ai: nat, bi: nat)
    requires ai <= |a| && bi <= |b|
    ensures Total(a[..ai] + [Sub(Pos(b, bi), Pos(a, ai))]) == Pos(b, bi)
  {
    var head := a[..ai] + [Sub(Pos(b, bi), Pos(a, ai))];
    PosPrefix(head, a, ai);
  }

  /** Vertex bi + j of B is vertex j of B's suffix from bi, moved to vertex bi. */
  lemma SuffixPos(b: seq<Step>, bi: nat, j: nat)
    requires bi + j <= |b|
    ensures Pos(b, bi + j) == Add(Pos(b, bi), Pos(b[bi..], j))
  {
    PosConcat(b[..bi], b[bi..], j);
    assert b[..bi] + b[bi..] == b;
    PosPrefix(b[..bi], b, bi);
  }

  /** What cross(a, b) returns, with `channel` the rand() % 4 draw and
      `pick` the rand() % possiblePoints.size() draw. */
  function CrossSpec(a: Individual, b: Individual, channel: nat, pick: nat, stitch: int): Individual {
    var c := channel % 4;
    var pa, pb := PathOf(a.paths, c), PathOf(b.paths, c);
    var pts := Points(pa.steps, pb.steps, |pa.steps|, stitch);
    if pts == [] then a.(quality := NO_QUALITY)
    else
      var pair := pts[pick % |pts|];
      Individual(WithPath(a.paths, c, pa.(steps := Splice(pa.steps, pb.steps, pair.0, pair.1))), NO_QUALITY)
  }

  /** cross returns a copy of a with a stale quality; the three unchosen
      paths and every colour are a's, and with no crossover point the
      chosen path is a's as well. */
  lemma CrossCopiesA(a: Individual, b: Individual, channel: nat, pick: nat, stitch: int, e: int)
    requires 0 <= e < 4
    ensures CrossSpec(a, b, channel, pick, stitch).quality == NO_QUALITY
    ensures SameColors(a.paths, CrossSpec(a, b, channel, pick, stitch).paths)
    ensures e != channel % 4 ==> PathOf(CrossSpec(a, b, channel, pick, stitch).paths, e) == PathOf(a.paths, e)
    ensures Points(PathOf(a.paths, channel % 4).steps, PathOf(b.paths, channel % 4).steps, |PathOf(a.paths, channel % 4).steps|, stitch) == []
      ==> CrossSpec(a, b, channel, pick, stitch) == a.(quality := NO_QUALITY)
  {
  }

  /** With a crossover point, the chosen path is the splice at that point:
      length ai + 1 + |B| - bi, ending where B ends, and non-empty. */
  lemma CrossSplices(a: Individual, b: Individual, channel: nat, pick: nat, stitch: int)
    requires var c := channel % 4;
      Points(PathOf(a.paths, c).steps, PathOf(b.paths, c).steps, |PathOf(a.paths, c).steps|, stitch) != []
    ensures var c := channel % 4;
      var pa, pb := PathOf(a.paths, c), PathOf(b.paths, c);
      var pts := Points(pa.steps, pb.steps, |pa.steps|, stitch);
      var pair := pts[pick % |pts|];
      var r := PathOf(CrossSpec(a, b, channel, pick, stitch).paths, c);
      pair.0 < |pa.steps| && pair.1 < |pb.steps| &&
      Close(Pos(pa.steps, pair.0 + 1), Pos(pb.steps, pair.1 + 1), stitch) &&
      |r.steps| == pair.0 + 1 + |pb.steps| - pair.1 && Total(r.steps) == Total(pb.steps) && r.color == pa.color
  {
    var c := channel % 4;
    var pa, pb := PathOf(a.paths, c), PathOf(b.paths, c);
    var pts := Points(pa.steps, pb.steps, |pa.steps|, stitch);
    var pair := pts[pick % |pts|];
    CrossPoints(pa.steps, pb.steps, stitch, pair.0, pair.1);
    SpliceShape(pa.steps, pb.steps, pair.0, pair.1, 0);
  }

  /** The test looks at the vertices after ai + 1 and bi + 1 steps, but the
      splice joins the vertices after ai and bi steps, so the bridge step is
      not bounded by DEFAULT_STITCH: for every stitch length d, pair (0, 1)
      of these two paths passes the test and the bridge is ten stitches long. */
  lemma CrossBridgeUnbounded(d: int)
    requires d >= 1
    ensures var a, b := [Step(10 * d, 0)], [Step(-(10 * d), 0), Step(20 * d, 0)];
      (0, 1) in Points(a, b, |a|, d) && Splice(a, b, 0, 1)[0] == Step(-(10 * d), 0)
  {
    var a, b := [Step(10 * d, 0)], [Step(-(10 * d), 0), Step(20 * d, 0)];
    assert Pos(a, 1) == Add(Pos(a, 0), a[0]) == Step(10 * d, 0);
    assert Pos(b, 1) == Add(Pos(b, 0), b[0]) == Step(-(10 * d), 0);
    assert Pos(b, 2) == Add(Pos(b, 1), b[1]) == Step(10 * d, 0);
    assert Sq(0) == 0 && Sq(d) != 0;
    CrossPoints(a, b, d, 0, 1);
  }

  /** The inner loop of cross for row ai: compare A's vertex ai + 1 with
      every vertex after B's first step and record the close pairs. */
  method CollectRow(pa: seq<Step>, pb: seq<Step>, ai: nat, apos: Step, stitch: int, points0: seq<(nat, nat)>)
    returns (points: seq<(nat, nat)>)
    requires ai < |pa| && apos == Pos(pa, ai + 1)
    ensures points == points0 + PointsRow(pa, pb, ai, |pb|, stitch)
  {
    points := points0;
    var bpos := Zero;
    var bi := 0;
    while bi < |pb|
      invariant 0 <= bi <= |pb| && bpos == Pos(pb, bi)
      invariant points == points0 + PointsRow(pa, pb, ai, bi, stitch)
    {
      bpos := Add(bpos, pb[bi]);
      if Close(apos, bpos, stitch) {
        points := points + [(ai, bi)];
      }
      bi := bi + 1;
    }
  }

  /** The nested loops of cross that fill possiblePoints. */
  method CollectPoints(pa: seq<Step>, pb: seq<Step>, stitch: int) returns (points: seq<(nat, nat)>)
    ensures points == Points(pa, pb, |pa|, stitch)
  {
    points := [];
    var apos := Zero;
    var ai := 0;
    while ai < |pa|
      invariant 0 <= ai <= |pa| && apos == Pos(pa, ai)
      invariant points == Points(pa, pb, ai, stitch)
    {
      apos := Add(apos, pa[ai]);
      points := CollectRow(pa, pb, ai, apos, stitch, points);
      ai := ai + 1;
    }
  }

  /** The splice of cross: pop A's steps down to ai, sum both prefixes,
      push the bridge step and then B's steps from bi on. */
  method SpliceSteps(pa: seq<Step>, pb: seq<Step>, ai: nat, bi: nat) returns (rp: seq<Step>)
    requires ai < |pa| && bi < |pb|
    ensures rp == Splice(pa, pb, ai, bi)
  {
    rp := pa;
    while |rp| > ai
      invariant ai <= |rp| <= |pa| && rp == pa[..|rp|]
    {
      rp := rp[..|rp| - 1];
    }
    var asum := Zero;
    var i := 0;
    while i < |rp|
      invariant 0 <= i <= |rp| && asum == Pos(rp, i)
    {
      asum := Add(asum, rp[i]);
      i := i + 1;
    }
    PosPrefix(rp, pa, ai);
    var bsum := Zero;
    i := 0;
    while i < bi
      invariant 0 <= i <= bi && bsum == Pos(pb, i)
    {
      bsum := Add(bsum, pb[i]);
      i := i + 1;
    }
    var head := rp + [Sub(bsum, asum)];
    rp := head;
    i := bi;
    while i < |pb|
      invariant bi <= i <= |pb| && rp == head + pb[bi..i]
    {
      assert pb[bi..i + 1] == pb[bi..i] + [pb[i]];
      rp := rp + [pb[i]];
      i := i + 1;
    }
    assert pb[bi..i] == pb[bi..];
  }

  /** cross(a, b): collect the crossover points, pick one and splice the
      chosen path of a copy of a there. */
  method Cross(a: Individual, b: Individual, channel: nat, pick: nat, stitch: int) returns (r: Individual)
    ensures r == CrossSpec(a, b, channel, pick, stitch)
  {
    r := a.(quality := NO_QUALITY);
    var c := channel % 4;
    var pa, pb := PathOf(a.paths, c), PathOf(b.paths, c);
    var points := CollectPoints(pa.steps, pb.steps, stitch);
    if points == [] {
      return;
    }
    var pair := points[pick % |points|];
    var rp := SpliceSteps(pa.steps, pb.steps, pair.0, pair.1);
    r := r.(paths := WithPath(r.paths, c, pa.(steps := rp)));
  }
}

module Population {
  import opened Geometry
  import Paths
  import opened Bundles
  import opened PathEvolving

  // ----- evaluation

  /** The body of the evaluation loop for one slot: a stale quality becomes
      rate(zoomedImg, zoomed) - stitchCount * STITCH_COST, where `rating`
      stands for rendering the bundle, downsampling the render and rating it
      against the reference; a cached quality is kept. */
  function Evaluated(x: Individual, rating: RGBW -> int): Individual {
    if x.quality == NO_QUALITY then x.(quality := rating(x.paths) - StitchCount(x.paths) * STITCH_COST) else x
  }

  /** Evaluation changes qualities only, and leaves a slot stale only if its
      score happens to equal the sentinel. */
  lemma EvaluatedScore(x: Individual, rating: RGBW -> int)
    ensures Evaluated(x, rating).paths == x.paths
    ensures x.quality != NO_QUALITY ==> Evaluated(x, rating) == x
    ensures x.quality == NO_QUALITY ==>
      Evaluated(x, rating).quality == rating(x.paths) - StitchCount(x.paths) * STITCH_COST
    ensures Evaluated(x, rating).quality == NO_QUALITY ==>
      rating(x.paths) - StitchCount(x.paths) * STITCH_COST == NO_QUALITY
  {
  }

  function EvaluateAll(s: seq<Individual>, rating: RGBW -> int): (t: seq<Individual>)
    ensures |t| == |s| && forall i :: 0 <= i < |s| ==> t[i] == Evaluated(s[i], rating)
  {
    if s == [] then [] else [Evaluated(s[0], rating)] + EvaluateAll(s[1..], rating)
  }

  /** The evaluation loop of main over the whole population. */
  method Evaluate(pop: array<Individual>, rating: RGBW -> int)
    modifies pop
    ensures pop[..] == EvaluateAll(old(pop[..]), rating)
  {
    var i := 0;
    while i < pop.Length
      invariant 0 <= i <= pop.Length
      invariant forall k :: 0 <= k < i ==> pop[k] == Evaluated(old(pop[k]), rating)
      invariant forall k :: i <= k < pop.Length ==> pop[k] == old(pop[k])
    {
      if pop[i].quality == NO_QUALITY {
        pop[i] := pop[i].(quality := rating(pop[i].paths) - StitchCount(pop[i].paths) * STITCH_COST);
      }
      i := i + 1;
    }
    assert pop[..] == EvaluateAll(old(pop[..]), rating);
  }

  // ----- sorting

  predicate SortedByQuality(s: seq<Individual>) {
    forall k, l :: 0 <= k < l < |s| ==> s[k].quality <= s[l].quality
  }

  /** sort(population) with the comparator a.quality < b.quality: a
      permutation of the slots, ordered by non-decreasing quality. The
      source's sort is not stable, and neither is this one; any order of
      equal qualities is allowed. */
  method SortByQuality(a: array<Individual>)
    modifies a
    ensures SortedByQuality(a[..]) && multiset(a[..]) == multiset(old(a[..]))
  {
    if a.Length == 0 {
      return;
    }
    var i := 1;
    while i < a.Length
      invariant 1 <= i <= a.Length
      invariant SortedByQuality(a[..i])
      invariant multiset(a[..]) == multiset(old(a[..]))
    {
      InsertOne(a, i);
      i := i + 1;
    }
    assert a[..i] == a[..];
  }

  /** One pass of insertion: slot i sinks left past every larger quality. */
  method InsertOne(a: array<Individual>, i: int)
    requires 1 <= i < a.Length && SortedByQuality(a[..i])
    modifies a
    ensures SortedByQuality(a[..i + 1]) && multiset(a[..]) == multiset(old(a[..]))
    ensures a[i + 1..] == old(a[i + 1..])
  {
    var j := i;
    while j > 0 && a[j - 1].quality > a[j].quality
      invariant 0 <= j <= i
      invariant forall k, l :: 0 <= k < l <= i && k != j && l != j ==> a[k].quality <= a[l].quality
      invariant forall l :: j < l <= i ==> a[j].quality < a[l].quality
      invariant multiset(a[..]) == multiset(old(a[..]))
      invariant a[i + 1..] == old(a[i + 1..])
    {
      Swap(a, j);
      j := j - 1;
    }
  }

  /** Exchanges slots j - 1 and j. */
  method Swap(a: array<Individual>, j: int)
    requires 1 <= j < a.Length
    modifies a
    ensures a[j - 1] == old(a[j]) && a[j] == old(a[j - 1])
    ensures forall k :: 0 <= k < a.Length && k != j - 1 && k != j ==> a[k] == old(a[k])
    ensures multiset(a[..]) == multiset(old(a[..]))
  {
    a[j - 1], a[j] := a[j], a[j - 1];
  }

  // ----- replacement of the lower half

  const HALF := POPULATION_SIZE / 2

  /** The draws of one slot of the replacement loop: the selector
      rand() % 100, the parent draws behind POPULATION_SIZE / 2 + rand() %
      (POPULATION_SIZE / 2), the draws of the bundle operators (ten are
      enough for every branch) and cross's channel and crossover draws. */
  datatype SlotDraw = SlotDraw(sel: nat, a: nat, b: nat, ops: seq<Paths.OpDraw>, channel: nat, pick: nat)

  predicate WellDrawn(d: SlotDraw) {
    |d.ops| >= 10
  }

  /** The upper-half slot a parent draw names. */
  function Parent(r: nat): (i: int)
    ensures HALF <= i < POPULATION_SIZE
  {
    HALF + r % HALF
  }

  /** The upper half of the population: the parents, all with non-empty bundles. */
  predicate Parents(s: seq<Individual>) {
    |s| == POPULATION_SIZE && forall k :: HALF <= k < POPULATION_SIZE ==> NonEmpty(s[k].paths)
  }

  /** `for(j < n) population[i].mutate(img)`, one draw per call. */
  function MutateMany(x: Individual, ops: seq<Paths.OpDraw>): (y: Individual)
    ensures StitchCount(y.paths) == StitchCount(x.paths) && SameColors(x.paths, y.paths)
    ensures NonEmpty(x.paths) ==> NonEmpty(y.paths)
    ensures ops != [] ==> y.quality == NO_QUALITY
    decreases |ops|
  {
    if ops == [] then x else Mutate(MutateMany(x, ops[..|ops| - 1]), ops[|ops| - 1])
  }

  function GrowMany(x: Individual, ops: seq<Paths.OpDraw>): (y: Individual)
    requires NonEmpty(x.paths)
    ensures StitchCount(y.paths) == StitchCount(x.paths) + |ops| && SameColors(x.paths, y.paths)
    ensures NonEmpty(y.paths)
    ensures ops != [] ==> y.quality == NO_QUALITY
    decreases |ops|
  {
    if ops == [] then x else Grow(GrowMany(x, ops[..|ops| - 1]), ops[|ops| - 1])
  }

  /** What the replacement loop writes into a lower slot: by the selector,
      ten mutations, ten grows, one mutation, one grow or one shrink of the
      parent, or a cross of the two parents. */
  function Offspring(s: seq<Individual>, d: SlotDraw, stitch: int): Individual
    requires Parents(s) && WellDrawn(d)
  {
    var sel := d.sel % 100;
    var x := s[Parent(d.a)];
    if sel < 10 then MutateMany(x, d.ops[..10])
    else if sel < 20 then GrowMany(x, d.ops[..10])
    else if sel < 40 then Mutate(x, d.ops[0])
    else if sel < 60 then Grow(x, d.ops[0])
    else if sel < 80 then Shrink(x, d.ops[0])
    else CrossSpec(x, s[Parent(d.b)], d.channel, d.pick, stitch)
  }

  /** cross keeps every path of a non-empty bundle non-empty. */
  lemma CrossNonEmpty(a: Individual, b: Individual, channel: nat, pick: nat, stitch: int)
    requires NonEmpty(a.paths)
    ensures NonEmpty(CrossSpec(a, b, channel, pick, stitch).paths)
  {
    var c := channel % 4;
    var pa, pb := PathOf(a.paths, c), PathOf(b.paths, c);
    var pts := Points(pa.steps, pb.steps, |pa.steps|, stitch);
    if pts != [] {
      CrossSplices(a, b, channel, pick, stitch);
      NonEmptyWithPath(a.paths, c, PathOf(CrossSpec(a, b, channel, pick, stitch).paths, c));
    }
  }

  /** Every offspring is stale, non-empty and has its first parent's
      colours; its stitch count follows the branch the selector takes. */
  lemma OffspringFacts(s: seq<Individual>, d: SlotDraw, stitch: int)
    requires Parents(s) && WellDrawn(d)
    ensures Offspring(s, d, stitch).quality == NO_QUALITY
    ensures NonEmpty(Offspring(s, d, stitch).paths)
    ensures SameColors(s[Parent(d.a)].paths, Offspring(s, d, stitch).paths)
    ensures var n, m := StitchCount(s[Parent(d.a)].paths), StitchCount(Offspring(s, d, stitch).paths);
      var sel := d.sel % 100;
      (sel < 10 ==> m == n) && (10 <= sel < 20 ==> m == n + 10) && (20 <= sel < 40 ==> m == n) &&
      (40 <= sel < 60 ==> m == n + 1) && (60 <= sel < 80 ==> m <= n)
  {
    var x := s[Parent(d.a)];
    if d.sel % 100 >= 80 {
      CrossNonEmpty(x, s[Parent(d.b)], d.channel, d.pick, stitch);
      CrossCopiesA(x, s[Parent(d.b)], d.channel, d.pick, stitch, 0);
    }
  }

  /** The replacement reads its sources from the upper half only. */
  lemma OffspringReadsUpperHalf(s: seq<Individual>, t: seq<Individual>, d: SlotDraw, stitch: int)
    requires Parents(s) && Parents(t) && WellDrawn(d) && s[HALF..] == t[HALF..]
    ensures Offspring(s, d, stitch) == Offspring(t, d, stitch)
  {
    assert s[Parent(d.a)] == s[HALF..][Parent(d.a) - HALF] == t[Parent(d.a)];
    assert s[Parent(d.b)] == s[HALF..][Parent(d.b) - HALF] == t[Parent(d.b)];
  }

  /** One iteration of the replacement loop, computing the new bundle. */
  method MakeOffspring(pop: array<Individual>, d: SlotDraw, stitch: int) returns (y: Individual)
    requires Parents(pop[..]) && WellDrawn(d)
    ensures y == Offspring(pop[..], d, stitch)
  {
    var sel := d.sel % 100;
    var ai := Parent(d.a);
    assert pop[ai] == pop[..][ai];
    y := pop[ai];
    if sel < 20 {
      var j := 0;
      while j < 10
        invariant 0 <= j <= 10 && NonEmpty(y.paths)
        invariant y == if sel < 10 then MutateMany(pop[ai], d.ops[..j]) else GrowMany(pop[ai], d.ops[..j])
      {
        assert d.ops[..j + 1][..j] == d.ops[..j];
        if sel < 10 {
          y := Mutate(y, d.ops[j]);
        } else {
          y := Grow(y, d.ops[j]);
        }
        j := j + 1;
      }
    } else if sel < 40 {
      y := Mutate(y, d.ops[0]);
    } else if sel < 60 {
      y := Grow(y, d.ops[0]);
    } else if sel < 80 {
      y := Shrink(y, d.ops[0]);
    } else {
      var bi := Parent(d.b);
      assert pop[bi] == pop[..][bi];
      y := Cross(y, pop[bi], d.channel, d.pick, stitch);
    }
  }

  /** The replacement loop of main: slot i < POPULATION_SIZE / 2 gets the
      offspring its draws select; the upper half is left alone. */
  method ReplaceLowerHalf(pop: array<Individual>, draws: seq<SlotDraw>, stitch: int)
    requires Parents(pop[..]) && |draws| == HALF
    requires forall i :: 0 <= i < HALF ==> WellDrawn(draws[i])
    modifies pop
    ensures forall i :: 0 <= i < HALF ==> pop[i] == Offspring(old(pop[..]), draws[i], stitch)
    ensures pop[HALF..] == old(pop[HALF..])
  {
    ghost var s := pop[..];
    var i := 0;
    while i < HALF
      invariant 0 <= i <= HALF && Parents(pop[..])
      invariant forall k :: 0 <= k < i ==> pop[k] == Offspring(s, draws[k], stitch)
      invariant pop[i..] == s[i..]
    {
      assert pop[..][HALF..] == s[HALF..] by {
        assert pop[..][HALF..] == pop[i..][HALF - i..];
        assert s[HALF..] == s[i..][HALF - i..];
      }
      OffspringReadsUpperHalf(pop[..], s, draws[i], stitch);
      var y := MakeOffspring(pop, draws[i], stitch);
      pop[i] := y;
      assert pop[i + 1..] == old(pop[i + 1..]) by {
        assert pop[i + 1..] == s[i + 1..];
      }
      i := i + 1;
    }
  }

  // ----- one generation

  predicate AllNonEmpty(s: seq<Individual>) {
    forall k :: 0 <= k < |s| ==> NonEmpty(s[k].paths)
  }

  /** `sorted` is the population `s` after the sort of main. */
  predicate Ranked(sorted: seq<Individual>, s: seq<Individual>) {
    SortedByQuality(sorted) && multiset(sorted) == multiset(s) && |sorted| == |s|
  }

  lemma PermutationKeepsNonEmpty(s: seq<Individual>, t: seq<Individual>)
    requires multiset(s) == multiset(t) && AllNonEmpty(t)
    ensures AllNonEmpty(s)
  {
    forall k | 0 <= k < |s|
      ensures NonEmpty(s[k].paths)
    {
      assert s[k] in multiset(t);
    }
  }

  /** The evaluation keeps every bundle. */
  lemma EvaluateAllKeepsNonEmpty(s: seq<Individual>, rating: RGBW -> int)
    requires AllNonEmpty(s)
    ensures AllNonEmpty(EvaluateAll(s, rating))
  {
    forall k | 0 <= k < |s|
      ensures NonEmpty(EvaluateAll(s, rating)[k].paths)
    {
      EvaluatedScore(s[k], rating);
    }
  }

  /** One pass of the main loop: evaluate the stale slots, sort by quality,
      and overwrite the lower half with offspring of the upper half. The new
      upper half is the sorted evaluated population's upper half, in order;
      every lower slot is stale; every bundle stays non-empty. */
  method Generation(pop: array<Individual>, rating: RGBW -> int, draws: seq<SlotDraw>, stitch: int)
    requires pop.Length == POPULATION_SIZE && AllNonEmpty(pop[..])
    requires |draws| == HALF && forall i :: 0 <= i < HALF ==> WellDrawn(draws[i])
    modifies pop
    ensures AllNonEmpty(pop[..]) && SortedByQuality(pop[HALF..])
    ensures forall i :: 0 <= i < HALF ==> pop[i].quality == NO_QUALITY
    ensures exists sorted :: (Ranked(sorted, EvaluateAll(old(pop[..]), rating)) && Parents(sorted) &&
      pop[HALF..] == sorted[HALF..] && forall i :: 0 <= i < HALF ==> pop[i] == Offspring(sorted, draws[i], stitch))
  {
    Evaluate(pop, rating);
    EvaluateAllKeepsNonEmpty(old(pop[..]), rating);
    ghost var evaluated := pop[..];
    SortByQuality(pop);
    ghost var sorted := pop[..];
    PermutationKeepsNonEmpty(sorted, evaluated);
    ReplaceLowerHalf(pop, draws, stitch);
    forall i | 0 <= i < HALF
      ensures pop[i].quality == NO_QUALITY && NonEmpty(pop[i].paths)
    {
      OffspringFacts(sorted, draws[i], stitch);
    }
    forall i | HALF <= i < POPULATION_SIZE
      ensures pop[i] == sorted[i]
    {
      assert pop[i] == pop[HALF..][i - HALF];
    }
    assert Ranked(sorted, EvaluateAll(old(pop[..]), rating)) && Parents(sorted);
  }

  /** The population setup of main: POPULATION_SIZE fresh bundles, each
      given initPaths with spiral distance 5 * DEFAULT_STITCH and 100
      mutations and 200 grows per path. */
  method InitPopulation(w: int, h: int, stitch: int, draws: seq<seq<InitDraws>>) returns (pop: array<Individual>)
    requires w >= 0 && h >= 0 && stitch != 0 && |draws| == POPULATION_SIZE
    requires forall i :: 0 <= i < POPULATION_SIZE ==> |draws[i]| == 4
    requires forall i, c :: 0 <= i < POPULATION_SIZE && 0 <= c < 4 ==>
      |draws[i][c].mutates| == INIT_MUTATES && |draws[i][c].grows| == INIT_GROWS
    ensures fresh(pop) && pop.Length == POPULATION_SIZE && AllNonEmpty(pop[..])
    ensures forall i :: 0 <= i < POPULATION_SIZE ==> (pop[i].quality == NO_QUALITY &&
      SameColors(NewRGBW(), pop[i].paths) && StitchCount(pop[i].paths) >= 24 + 4 * INIT_GROWS)
    ensures forall i, c :: 0 <= i < POPULATION_SIZE && 0 <= c < 4 ==>
      InitPathOf(w, h, PathOf(NewRGBW(), c), PathOf(pop[i].paths, c), 5 * stitch, draws[i][c])
  {
    pop := new Individual[POPULATION_SIZE];
    var i := 0;
    while i < POPULATION_SIZE
      invariant 0 <= i <= POPULATION_SIZE
      invariant forall k :: 0 <= k < i ==> (NonEmpty(pop[k].paths) &&
        pop[k].quality == NO_QUALITY && SameColors(NewRGBW(), pop[k].paths) && StitchCount(pop[k].paths) >= 24 + 4 * INIT_GROWS)
      invariant forall k, c :: 0 <= k < i && 0 <= c < 4 ==>
        InitPathOf(w, h, PathOf(NewRGBW(), c), PathOf(pop[k].paths, c), 5 * stitch, draws[k][c])
    {
      var x := NewIndividual(w, h, stitch, draws[i]);
      pop[i] := x;
      i := i + 1;
    }
  }

  /** One slot of the setup: initPaths on a fresh bundle, not yet rated. */
  method NewIndividual(w: int, h: int, stitch: int, ds: seq<InitDraws>) returns (x: Individual)
    requires w >= 0 && h >= 0 && stitch != 0 && |ds| == 4
    requires forall c :: 0 <= c < 4 ==> |ds[c].mutates| == INIT_MUTATES && |ds[c].grows| == INIT_GROWS
    ensures NonEmpty(x.paths) && x.quality == NO_QUALITY
    ensures SameColors(NewRGBW(), x.paths) && StitchCount(x.paths) >= 24 + 4 * INIT_GROWS
    ensures forall c :: 0 <= c < 4 ==> InitPathOf(w, h, PathOf(NewRGBW(), c), PathOf(x.paths, c), 5 * stitch, ds[c])
  {
    var paths := InitPaths(NewRGBW(), w, h, 5 * stitch, ds[0], ds[1], ds[2], ds[3]);
    x := Individual(paths, NO_QUALITY);
    forall c | 0 <= c < 4
      ensures InitPathOf(w, h, PathOf(NewRGBW(), c), PathOf(x.paths, c), 5 * stitch, ds[c])
    {
      assert [ds[0], ds[1], ds[2], ds[3]][c] == ds[c];
    }
  }
}
