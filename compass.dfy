/** The eight-direction table of the contour fills (dirx/diry in
    path-filling.c++ and path-filling2.c++). Direction 0 points left and
    each increment turns one eighth clockwise on screen (y grows downwards);
    both tables are indexed with dir % 8. */
module Compass {

  function DirX(dir: nat): (dx: int)
    ensures -1 <= dx <= 1
  {
    [-1, -1, 0, 1, 1, 1, 0, -1][dir % 8]
  }

  function DirY(dir: nat): (dy: int)
    ensures -1 <= dy <= 1
  {
    [0, -1, -1, -1, 0, 1, 1, 1][dir % 8]
  }

  /** The index of an offset in the table. */
  function DirOf(dx: int, dy: int): (d: nat)
    requires -1 <= dx <= 1 && -1 <= dy <= 1 && (dx, dy) != (0, 0)
    ensures d < 8 && DirX(d) == dx && DirY(d) == dy
  {
    if dx == -1 then (if dy == 0 then 0 else if dy == -1 then 1 else 7)
    else if dx == 0 then (if dy == -1 then 2 else 6)
    else (if dy == -1 then 3 else if dy == 0 then 4 else 5)
  }

  /** The eight directions are the eight distinct non-zero neighbour
      offsets, and the index is read modulo 8. */
  lemma EightNeighbours(d: nat, e: nat)
    requires d < 8 && e < 8
    ensures (DirX(d), DirY(d)) != (0, 0)
    ensures d != e ==> (DirX(d), DirY(d)) != (DirX(e), DirY(e))
    ensures DirOf(DirX(d), DirY(d)) == d
    ensures DirX(d + 8) == DirX(d) && DirY(d + 8) == DirY(d)
  {
  }

  /** Four steps on is the opposite direction. */
  lemma Opposite(d: nat)
    ensures DirX(d + 4) == -DirX(d) && DirY(d + 4) == -DirY(d)
  {
    ModAdd(d, 4);
  }

  /** The two updates of dir keep it in [0, 8) and turn by one eighth:
      (dir + 7) % 8 counter-clockwise, (dir + 1) % 8 clockwise. */
  lemma Turns(dir: nat)
    requires dir < 8
    ensures (dir + 7) % 8 < 8 && (dir + 1) % 8 < 8
    ensures DirX((dir + 1) % 8) == DirX(dir + 1) && DirY((dir + 1) % 8) == DirY(dir + 1)
    ensures DirX(((dir + 7) % 8) + 1) == DirX(dir) && DirY(((dir + 7) % 8) + 1) == DirY(dir)
  {
  }

  /** The heading after m counter-clockwise turns from dir, and after m
      clockwise turns. */
  function Acw(dir: nat, m: nat): nat { (dir + 7 * m) % 8 }

  function Cwise(dir: nat, m: nat): nat { (dir + m) % 8 }

  lemma ModAdd(a: nat, b: nat)
    ensures (a % 8 + b) % 8 == (a + b) % 8
  {
    var q := a / 8;
    assert a == 8 * q + a % 8;
  }

  /** One counter-clockwise turn, then m more, is m + 1 turns. */
  lemma AcwStep(dir: nat, m: nat)
    ensures Acw((dir + 7) % 8, m) == Acw(dir, m + 1)
  {
    ModAdd(dir + 7, 7 * m);
  }

  lemma CwiseStep(dir: nat, m: nat)
    ensures Cwise((dir + 1) % 8, m) == Cwise(dir, m + 1)
  {
    ModAdd(dir + 1, m);
  }

  /** The first eight counter-clockwise turns visit every heading. */
  lemma AcwHits(dir: nat, e: nat) returns (m: nat)
    requires dir < 8 && e < 8
    ensures m < 8 && Acw(dir, m) == e
  {
    m := (dir + 8 - e) % 8;
  }

  /** So do headings dir + 1, ..., dir + 8. */
  lemma CwiseHits(dir: nat, e: nat) returns (m: nat)
    requires dir < 8 && e < 8
    ensures 1 <= m <= 8 && Cwise(dir, m) == e
  {
    m := (e + 7 - dir) % 8 + 1;
  }
}
