/** Integer step vectors and the absolute vertices they define.

    A stitch path stores only relative steps; its absolute vertices are the
    running sums of the steps, taken from a fixed origin (the canvas centre
    in the optimisers, the first start pixel in the fill tools). Pos(s, k)
    is the offset of vertex k from that origin. */
module Geometry {

  datatype Step = Step(x: int, y: int)

  const Zero := Step(0, 0)

  function Add(a: Step, b: Step): Step { Step(a.x + b.x, a.y + b.y) }

  function Sub(a: Step, b: Step): Step { Step(a.x - b.x, a.y - b.y) }

  function Neg(a: Step): Step { Step(-a.x, -a.y) }

  /** Offset of the vertex reached after the first k steps. */
  function Pos(s: seq<Step>, k: nat): Step
    requires k <= |s|
  {
    if k == 0 then Zero else Add(Pos(s, k - 1), s[k - 1])
  }

  /** Net displacement of the whole path: the offset of its end point. */
  function Total(s: seq<Step>): Step {
    Pos(s, |s|)
  }

  /** Pos(s, k) depends on the first k steps only. */
  lemma {:induction false} PosPrefix(s: seq<Step>, t: seq<Step>, k: nat)
    requires k <= |s| && k <= |t|
    requires s[..k] == t[..k]
    ensures Pos(s, k) == Pos(t, k)
  {
    if k > 0 {
      assert s[..k - 1] == t[..k - 1] by {
        assert s[..k - 1] == s[..k][..k - 1];
        assert t[..k - 1] == t[..k][..k - 1];
      }
      assert s[k - 1] == s[..k][k - 1] == t[..k][k - 1] == t[k - 1];
      PosPrefix(s, t, k - 1);
    }
  }

  /** Walking s then the first k steps of t ends at Total(s) + Pos(t, k). */
  lemma {:induction false} PosConcat(s: seq<Step>, t: seq<Step>, k: nat)
    requires k <= |t|
    ensures Pos(s + t, |s| + k) == Add(Total(s), Pos(t, k))
  {
    if k == 0 {
      PosPrefix(s + t, s, |s|);
    } else {
      PosConcat(s, t, k - 1);
      assert (s + t)[|s| + k - 1] == t[k - 1];
    }
  }

  lemma TotalConcat(s: seq<Step>, t: seq<Step>)
    ensures Total(s + t) == Add(Total(s), Total(t))
  {
    PosConcat(s, t, |t|);
  }

  /** The absolute vertex k of a path drawn from origin o. */
  function Vertex(o: Step, s: seq<Step>, k: nat): Step
    requires k <= |s|
  {
    Add(o, Pos(s, k))
  }
}
