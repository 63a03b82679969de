/** One stitch path (struct Path) and its three edit operators.

    Path::mutate, Path::grow and Path::shrink are textually identical in
    path-evolving.c++ and path-guessing3.c++ (path-guessing.c++ has mutate
    and grow only, with the same bodies). Each operator edits one waypoint
    and leaves every other absolute vertex where it was. The random numbers
    the source draws are parameters here; each requires clause states the
    range the source draws from. */
module Paths {
  import opened Geometry

  /** Largest component of a random waypoint displacement. */
  const MAXSTITCH := 20

  /** Paths shorter than this are left alone by mutate. */
  const MIN_MUTATE_LENGTH := 20

  datatype Color = Color(r: int, g: int, b: int)

  datatype Path = Path(steps: seq<Step>, color: Color)

  /** A displacement drawn as (rand() % (2 * MAXSTITCH + 1)) - MAXSTITCH per axis. */
  predicate SmallOffset(d: Step) {
    -MAXSTITCH <= d.x <= MAXSTITCH && -MAXSTITCH <= d.y <= MAXSTITCH
  }

  /** Path::mutate: move the vertex after step i by d. */
  function Mutate(p: Path, i: int, d: Step): (q: Path)
    requires |p.steps| >= MIN_MUTATE_LENGTH ==> 1 <= i <= |p.steps| - 2
    ensures q.color == p.color && |q.steps| == |p.steps|
    ensures Total(q.steps) == Total(p.steps)
    ensures |p.steps| < MIN_MUTATE_LENGTH ==> q == p
  {
    if |p.steps| < MIN_MUTATE_LENGTH then p
    else
      var s := p.steps[i := Add(p.steps[i], d)][i + 1 := Sub(p.steps[i + 1], d)];
      MutatePos(p.steps, s, i, d, |s|);
      p.(steps := s)
  }

  lemma {:induction false} MutatePos(s: seq<Step>, t: seq<Step>, i: int, d: Step, k: nat)
    requires 0 <= i < i + 1 < |s| == |t|
    requires t == s[i := Add(s[i], d)][i + 1 := Sub(s[i + 1], d)]
    requires k <= |s|
    ensures Pos(t, k) == if k == i + 1 then Add(Pos(s, k), d) else Pos(s, k)
  {
    if k > 0 {
      MutatePos(s, t, i, d, k - 1);
    }
  }

  /** Only vertex i + 1 moves, and it moves by exactly d. */
  lemma MutateMovesOneVertex(p: Path, i: int, d: Step, k: nat)
    requires |p.steps| >= MIN_MUTATE_LENGTH && 1 <= i <= |p.steps| - 2
    requires k <= |p.steps|
    ensures Pos(Mutate(p, i, d).steps, k) == if k == i + 1 then Add(Pos(p.steps, k), d) else Pos(p.steps, k)
  {
    var s := p.steps[i := Add(p.steps[i], d)][i + 1 := Sub(p.steps[i + 1], d)];
    MutatePos(p.steps, s, i, d, k);
  }

  /** Mutating the same waypoint by -d undoes a mutation by d. */
  lemma MutateInverse(p: Path, i: int, d: Step)
    requires |p.steps| >= MIN_MUTATE_LENGTH ==> 1 <= i <= |p.steps| - 2
    ensures Mutate(Mutate(p, i, d), i, Neg(d)) == p
  {
    if |p.steps| >= MIN_MUTATE_LENGTH {
      var q := Mutate(p, i, d);
      var r := Mutate(q, i, Neg(d));
      assert r.steps == p.steps;
    }
  }

  /** Path::grow on a non-empty path with insert = k: a new vertex at offset
      d from vertex k, and step k shortened so vertex k + 1 stays put. */
  function Grow(p: Path, k: int, d: Step): (q: Path)
    requires 0 <= k < |p.steps|
    ensures q.color == p.color && |q.steps| == |p.steps| + 1
    ensures Total(q.steps) == Total(p.steps)
  {
    var s := p.steps[..k] + [d, Sub(p.steps[k], d)] + p.steps[k + 1..];
    GrowPos(p.steps, k, d, |p.steps|);
    p.(steps := s)
  }

  lemma {:induction false} GrowPos(s: seq<Step>, k: int, d: Step, j: nat)
    requires 0 <= k < |s| && j <= |s|
    ensures var t := s[..k] + [d, Sub(s[k], d)] + s[k + 1..];
      |t| == |s| + 1 &&
      (j <= k ==> Pos(t, j) == Pos(s, j)) &&
      (j == k ==> Pos(t, j + 1) == Add(Pos(s, k), d)) &&
      (j > k ==> Pos(t, j + 1) == Pos(s, j))
  {
    var t := s[..k] + [d, Sub(s[k], d)] + s[k + 1..];
    if j == 0 {
      if k == 0 {
        assert t[0] == d;
      }
    } else {
      GrowPos(s, k, d, j - 1);
      if j <= k {
        assert t[j - 1] == s[j - 1];
      } else if j == k + 1 {
        GrowPos(s, k, d, k);
        assert t[k + 1] == Sub(s[k], d);
      } else {
        assert t[j] == s[j - 1];
      }
    }
  }

  /** Every old vertex keeps its absolute position: vertices 0..k keep
      their index, vertex k + 1 is the new one at Pos(k) + d, and old
      vertex j > k is now vertex j + 1. */
  lemma GrowKeepsVertices(p: Path, k: int, d: Step, j: nat)
    requires 0 <= k < |p.steps| && j <= |p.steps|
    ensures j <= k ==> Pos(Grow(p, k, d).steps, j) == Pos(p.steps, j)
    ensures Pos(Grow(p, k, d).steps, k + 1) == Add(Pos(p.steps, k), d)
    ensures j > k ==> Pos(Grow(p, k, d).steps, j + 1) == Pos(p.steps, j)
  {
    GrowPos(p.steps, k, d, j);
    GrowPos(p.steps, k, d, k);
  }

  /** Path::shrink with i drawn from [0, len - 2]: step i absorbs step i + 1,
      which removes vertex i + 1. Paths of fewer than two steps are left alone. */
  function Shrink(p: Path, i: int): (q: Path)
    requires |p.steps| >= 2 ==> 0 <= i <= |p.steps| - 2
    ensures q.color == p.color
    ensures |q.steps| == if |p.steps| < 2 then |p.steps| else |p.steps| - 1
    ensures Total(q.steps) == Total(p.steps)
    ensures |p.steps| < 2 ==> q == p
  {
    if |p.steps| < 2 then p
    else
      var s := p.steps[..i] + [Add(p.steps[i], p.steps[i + 1])] + p.steps[i + 2..];
      ShrinkPos(p.steps, i, |s|);
      p.(steps := s)
  }

  lemma {:induction false} ShrinkPos(s: seq<Step>, i: int, j: nat)
    requires 0 <= i <= |s| - 2 && j <= |s| - 1
    ensures var t := s[..i] + [Add(s[i], s[i + 1])] + s[i + 2..];
      |t| == |s| - 1 &&
      (j <= i ==> Pos(t, j) == Pos(s, j)) &&
      (j > i ==> Pos(t, j) == Pos(s, j + 1))
  {
    var t := s[..i] + [Add(s[i], s[i + 1])] + s[i + 2..];
    if j > 0 {
      ShrinkPos(s, i, j - 1);
      if j <= i {
        assert t[j - 1] == s[j - 1];
      } else if j == i + 1 {
        assert t[i] == Add(s[i], s[i + 1]);
      } else {
        assert t[j - 1] == s[j];
      }
    }
  }

  /** Removing vertex i + 1 leaves every other vertex where it was. */
  lemma ShrinkKeepsVertices(p: Path, i: int, j: nat)
    requires |p.steps| >= 2 && 0 <= i <= |p.steps| - 2 && j < |p.steps|
    ensures j <= i ==> Pos(Shrink(p, i).steps, j) == Pos(p.steps, j)
    ensures j > i ==> Pos(Shrink(p, i).steps, j) == Pos(p.steps, j + 1)
  {
    ShrinkPos(p.steps, i, j);
  }

  /** shrink at k undoes grow at k. */
  lemma ShrinkUndoesGrow(p: Path, k: int, d: Step)
    requires 0 <= k < |p.steps|
    ensures Shrink(Grow(p, k, d), k) == p
  {
    var g := Grow(p, k, d);
    var s := Shrink(g, k);
    assert g.steps[k] == d && g.steps[k + 1] == Sub(p.steps[k], d);
    assert g.steps[..k] == p.steps[..k];
    assert g.steps[k + 2..] == p.steps[k + 1..];
    assert s.steps == p.steps[..k] + [p.steps[k]] + p.steps[k + 1..];
    assert p.steps == p.steps[..k] + [p.steps[k]] + p.steps[k + 1..];
  }

  /** grow at i with the removed step as the offset undoes shrink at i. */
  lemma GrowUndoesShrink(p: Path, i: int)
    requires |p.steps| >= 2 && 0 <= i <= |p.steps| - 2
    ensures Grow(Shrink(p, i), i, p.steps[i]) == p
  {
    var s := Shrink(p, i);
    var g := Grow(s, i, p.steps[i]);
    assert s.steps[i] == Add(p.steps[i], p.steps[i + 1]);
    assert s.steps[..i] == p.steps[..i];
    assert s.steps[i + 1..] == p.steps[i + 2..];
    assert g.steps == p.steps[..i] + [p.steps[i], p.steps[i + 1]] + p.steps[i + 2..];
    assert p.steps == p.steps[..i] + [p.steps[i], p.steps[i + 1]] + p.steps[i + 2..];
  }

  // The raw rand() values one operator call consumes, reduced exactly as
  // the source reduces them.

  /** (rand() % (2 * MAXSTITCH + 1)) - MAXSTITCH */
  function Offset(r: nat): (v: int)
    ensures -MAXSTITCH <= v <= MAXSTITCH
  {
    r % (2 * MAXSTITCH + 1) - MAXSTITCH
  }

  datatype OpDraw = OpDraw(channel: nat, index: nat, dx: nat, dy: nat)

  function DrawnOffset(o: OpDraw): Step {
    Step(Offset(o.dx), Offset(o.dy))
  }

  function MutateDrawn(p: Path, o: OpDraw): Path {
    if |p.steps| < MIN_MUTATE_LENGTH then p
    else Mutate(p, 1 + o.index % (|p.steps| - 2), DrawnOffset(o))
  }

  function GrowDrawn(p: Path, o: OpDraw): Path
    requires |p.steps| > 0
  {
    Grow(p, o.index % |p.steps|, DrawnOffset(o))
  }

  function ShrinkDrawn(p: Path, o: OpDraw): Path {
    if |p.steps| < 2 then p else Shrink(p, o.index % (|p.steps| - 1))
  }

  /** A canvas coordinate inside [0, w) x [0, h). */
  predicate OnCanvas(w: int, h: int, v: Step) {
    0 <= v.x < w && 0 <= v.y < h
  }

  /** generateRandomPath(s, r, g, b): s->w * s->h / DEFAULT_STITCH tries;
      each draws a step with components in [-DEFAULT_STITCH, DEFAULT_STITCH]
      (`rand() % (2 * DEFAULT_STITCH + 1) - DEFAULT_STITCH`, written
      `rand() % 21 - 10` in path-guessing.c++) and keeps it only when the pen,
      which starts at the canvas centre, stays on the canvas. */
  method GenerateRandomPath(w: int, h: int, stitch: int, color: Color, draws: seq<(nat, nat)>) returns (p: Path)
    requires w >= 0 && h >= 0 && stitch >= 1
    requires |draws| == w * h / stitch
    ensures p.color == color
    ensures |p.steps| <= w * h / stitch
    ensures forall i :: 0 <= i < |p.steps| ==> -stitch <= p.steps[i].x <= stitch && -stitch <= p.steps[i].y <= stitch
    ensures forall k :: 1 <= k <= |p.steps| ==> OnCanvas(w, h, Vertex(Step(w / 2, h / 2), p.steps, k))
    ensures w >= 1 && h >= 1 ==> OnCanvas(w, h, Vertex(Step(w / 2, h / 2), p.steps, 0))
  {
    var origin := Step(w / 2, h / 2);
    var x, y := w / 2, h / 2;
    p := Path([], color);
    var n := w * h / stitch;
    var i := 0;
    while i < n
      invariant 0 <= i <= n && |p.steps| <= i && p.color == color
      invariant Step(x, y) == Vertex(origin, p.steps, |p.steps|)
      invariant forall j :: 0 <= j < |p.steps| ==> -stitch <= p.steps[j].x <= stitch && -stitch <= p.steps[j].y <= stitch
      invariant forall k :: 1 <= k <= |p.steps| ==> OnCanvas(w, h, Vertex(origin, p.steps, k))
    {
      var rx := draws[i].0 % (2 * stitch + 1) - stitch;
      var ry := draws[i].1 % (2 * stitch + 1) - stitch;
      if x + rx >= 0 && x + rx < w && y + ry >= 0 && y + ry < h {
        x, y := x + rx, y + ry;
        ghost var old_steps := p.steps;
        p := p.(steps := p.steps + [Step(rx, ry)]);
        PosPrefix(p.steps, old_steps, |old_steps|);
        forall k | 1 <= k <= |old_steps|
          ensures Vertex(origin, p.steps, k) == Vertex(origin, old_steps, k)
        {
          PosPrefix(p.steps, old_steps, k);
        }
      }
      i := i + 1;
    }
  }
}
