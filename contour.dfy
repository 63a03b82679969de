/** The turn of the contour walk in path-filling.c++ and path-filling2.c++:
    standing on (x, y) with heading dir, first turn counter-clockwise
    (dir := (dir + 7) % 8, at most 9 tries) until the neighbour ahead holds
    foreground, then clockwise (dir := (dir + 1) % 8, without bound) while
    the neighbour one eighth further clockwise holds foreground. */
module Contour {
  import opened Pixels
  import opened Compass

  /** Every foreground pixel lies off the border. The fill tools read the
      neighbours of foreground pixels without a bounds check. */
  ghost predicate Framed(img: Image)
    reads img
  {
    forall x, y :: Inside(img, x, y) && Fg(img, x, y) ==> Interior(img, x, y)
  }

  /** The neighbour in direction d holds foreground. */
  predicate FgAt(img: Image, x: int, y: int, d: nat)
    requires Interior(img, x, y)
    reads img
  {
    Fg(img, x + DirX(d), y + DirY(d))
  }

  ghost predicate HasFgNeighbour(img: Image, x: int, y: int)
    requires Interior(img, x, y)
    reads img
  {
    exists d: nat :: d < 8 && FgAt(img, x, y, d)
  }

  ghost predicate HasBgNeighbour(img: Image, x: int, y: int)
    requires Interior(img, x, y)
    reads img
  {
    exists d: nat :: d < 8 && !FgAt(img, x, y, d)
  }

  /** The counter-clockwise loop from heading dir after j tries. */
  function Ccw(img: Image, x: int, y: int, dir: nat, j: nat): (d: nat)
    requires Interior(img, x, y) && dir < 8 && j <= 9
    reads img
    ensures d < 8
    decreases 9 - j
  {
    if !FgAt(img, x, y, dir) && j < 9 then Ccw(img, x, y, (dir + 7) % 8, j + 1) else dir
  }

  /** The clockwise loop from heading dir after k turns. The loop of the
      source has no bound; where a background neighbour exists it stops
      before the eighth turn (CwStopsEarly), so the bound here never ends it. */
  function Cw(img: Image, x: int, y: int, dir: nat, k: nat): (d: nat)
    requires Interior(img, x, y) && dir < 8 && k <= 8
    reads img
    ensures d < 8
    decreases 8 - k
  {
    if k < 8 && FgAt(img, x, y, (dir + 1) % 8) then Cw(img, x, y, (dir + 1) % 8, k + 1) else dir
  }

  /** The heading after both loops. */
  function Turned(img: Image, x: int, y: int, dir: nat): nat
    requires Interior(img, x, y) && dir < 8
    reads img
  {
    Cw(img, x, y, Ccw(img, x, y, dir, 0), 0)
  }

  /** Either the counter-clockwise loop stops on a foreground neighbour, or
      every heading it tried was background. */
  lemma {:induction false} CcwSearch(img: Image, x: int, y: int, dir: nat, j: nat)
    requires Interior(img, x, y) && dir < 8 && j <= 9
    ensures FgAt(img, x, y, Ccw(img, x, y, dir, j)) ||
            forall m :: 0 <= m < 9 - j ==> !FgAt(img, x, y, Acw(dir, m))
    decreases 9 - j
  {
    if !FgAt(img, x, y, dir) && j < 9 {
      var d' := (dir + 7) % 8;
      CcwSearch(img, x, y, d', j + 1);
      if !FgAt(img, x, y, Ccw(img, x, y, d', j + 1)) {
        forall m | 0 <= m < 9 - j
          ensures !FgAt(img, x, y, Acw(dir, m))
        {
          if m > 0 {
            AcwStep(dir, m - 1);
            assert !FgAt(img, x, y, Acw(d', m - 1));
          }
        }
      }
    }
  }

  /** The counter-clockwise loop ends on foreground exactly when some
      neighbour is foreground. */
  lemma CcwFinds(img: Image, x: int, y: int, dir: nat)
    requires Interior(img, x, y) && dir < 8
    ensures FgAt(img, x, y, Ccw(img, x, y, dir, 0)) <==> HasFgNeighbour(img, x, y)
  {
    CcwSearch(img, x, y, dir, 0);
    if HasFgNeighbour(img, x, y) {
      var e: nat :| e < 8 && FgAt(img, x, y, e);
      var m := AcwHits(dir, e);
    }
  }

  /** The clockwise loop keeps a foreground heading, and it stops on one
      whose clockwise neighbour is background unless all the headings
      dir + 1, ..., dir + (8 - k) are foreground. */
  lemma {:induction false} CwSearch(img: Image, x: int, y: int, dir: nat, k: nat)
    requires Interior(img, x, y) && dir < 8 && k <= 8
    ensures FgAt(img, x, y, dir) ==> FgAt(img, x, y, Cw(img, x, y, dir, k))
    ensures !FgAt(img, x, y, (Cw(img, x, y, dir, k) + 1) % 8) ||
            forall m :: 1 <= m <= 8 - k ==> FgAt(img, x, y, Cwise(dir, m))
    decreases 8 - k
  {
    if k < 8 && FgAt(img, x, y, (dir + 1) % 8) {
      var d' := (dir + 1) % 8;
      CwSearch(img, x, y, d', k + 1);
      forall m | 2 <= m <= 8 - k
        ensures Cwise(d', m - 1) == Cwise(dir, m)
      {
        CwiseStep(dir, m - 1);
      }
    }
  }

  /** Where a neighbour is background the clockwise loop of the source stops
      before its eighth turn: the bound of Cw is never what ends it. */
  lemma CwStopsEarly(img: Image, x: int, y: int, dir: nat, k: nat)
    requires Interior(img, x, y) && dir < 8 && k <= 8 && HasBgNeighbour(img, x, y)
    requires forall m :: 1 <= m <= k ==> FgAt(img, x, y, Cwise(dir, m))
    ensures k < 8
  {
    var e: nat :| e < 8 && !FgAt(img, x, y, e);
    var m := CwiseHits(dir, e);
  }

  /** The turn heads for a foreground neighbour exactly when one exists, and
      the neighbour one eighth further clockwise is always background: the
      walk keeps background on its clockwise side. */
  lemma TurnedFacts(img: Image, x: int, y: int, dir: nat)
    requires Interior(img, x, y) && dir < 8 && HasBgNeighbour(img, x, y)
    ensures Turned(img, x, y, dir) < 8
    ensures FgAt(img, x, y, Turned(img, x, y, dir)) <==> HasFgNeighbour(img, x, y)
    ensures !FgAt(img, x, y, (Turned(img, x, y, dir) + 1) % 8)
  {
    var d1 := Ccw(img, x, y, dir, 0);
    CcwFinds(img, x, y, dir);
    CwSearch(img, x, y, d1, 0);
    if forall m :: 1 <= m <= 8 ==> FgAt(img, x, y, Cwise(d1, m)) {
      CwStopsEarly(img, x, y, d1, 8);
    }
  }

  /** The counter-clockwise loop. */
  method TurnBack(img: Image, x: int, y: int, dir: nat) returns (d: nat)
    requires Interior(img, x, y) && dir < 8
    ensures d == Ccw(img, x, y, dir, 0)
  {
    d := dir;
    var j := 0;
    while Red(img[x + DirX(d), y + DirY(d)]) == 0 && j < 9
      invariant 0 <= j <= 9 && d < 8
      invariant Ccw(img, x, y, d, j) == Ccw(img, x, y, dir, 0)
      decreases 9 - j
    {
      j, d := j + 1, (d + 7) % 8;
    }
  }

  lemma CwUnfold(img: Image, x: int, y: int, d: nat, k: nat)
    requires Interior(img, x, y) && d < 8 && k < 8
    ensures FgAt(img, x, y, (d + 1) % 8) ==> Cw(img, x, y, d, k) == Cw(img, x, y, (d + 1) % 8, k + 1)
    ensures !FgAt(img, x, y, (d + 1) % 8) ==> Cw(img, x, y, d, k) == d
  {
  }

  /** dirx and diry reduce their argument modulo 8. */
  lemma FgAtWrap(img: Image, x: int, y: int, d: nat)
    requires Interior(img, x, y) && d < 8
    ensures FgAt(img, x, y, d + 1) == FgAt(img, x, y, (d + 1) % 8)
  {
    Turns(d);
  }

  /** One turn of the clockwise loop keeps its invariant. */
  lemma CwAdvance(img: Image, x: int, y: int, dir: nat, d: nat, k: nat)
    requires Interior(img, x, y) && dir < 8 && HasBgNeighbour(img, x, y)
    requires d < 8 && k <= 8 && d == Cwise(dir, k) && FgAt(img, x, y, d + 1)
    requires forall m :: 1 <= m <= k ==> FgAt(img, x, y, Cwise(dir, m))
    ensures k < 8 && Cwise(dir, k + 1) == (d + 1) % 8
    ensures Cw(img, x, y, d, k) == Cw(img, x, y, (d + 1) % 8, k + 1)
    ensures forall m :: 1 <= m <= k + 1 ==> FgAt(img, x, y, Cwise(dir, m))
  {
    CwStopsEarly(img, x, y, dir, k);
    FgAtWrap(img, x, y, d);
    ModAdd(dir + k, 1);
    CwUnfold(img, x, y, d, k);
  }

  /** The clockwise loop, which stops because a neighbour is background. */
  method TurnOn(img: Image, x: int, y: int, dir: nat) returns (d: nat)
    requires Interior(img, x, y) && dir < 8 && HasBgNeighbour(img, x, y)
    ensures d == Cw(img, x, y, dir, 0)
  {
    d := dir;
    ghost var k := 0;
    while FgAt(img, x, y, d + 1)
      invariant d < 8 && k <= 8 && d == Cwise(dir, k)
      invariant Cw(img, x, y, d, k) == Cw(img, x, y, dir, 0)
      invariant forall m :: 1 <= m <= k ==> FgAt(img, x, y, Cwise(dir, m))
      decreases 8 - k
    {
      CwAdvance(img, x, y, dir, d, k);
      d, k := (d + 1) % 8, k + 1;
    }
    CwStopsEarly(img, x, y, dir, k);
    FgAtWrap(img, x, y, d);
    CwUnfold(img, x, y, d, k);
  }

  /** Both loops of the turn. */
  method Turn(img: Image, x: int, y: int, dir: nat) returns (d: nat)
    requires Interior(img, x, y) && dir < 8 && HasBgNeighbour(img, x, y)
    ensures d == Turned(img, x, y, dir)
  {
    d := TurnBack(img, x, y, dir);
    d := TurnOn(img, x, y, d);
  }
}
