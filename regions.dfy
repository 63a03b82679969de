/** The two flood fills of path-filling2.c++ and path-filling3.c++.

    Both walk the 8-connected foreground region of a pixel depth first,
    marking each pixel they enter with the low bit of its green byte; a
    pixel is open while its red byte is non-zero and its green byte is zero.
    remainingAreaRec stops after a budget of pixels and hasAreaAbove asks
    whether the budget ran out; moveToTopLeftRec visits the whole region and
    keeps its first pixel in row-major order.

    A run of the search is described by the sequence `order` of the pixels
    it entered: a chain through the open set S (distinct members of S, each
    after the first adjacent to an earlier one). When the search ends without
    running out of budget, the chain is closed: every open neighbour of one of
    its pixels is in it, so it holds every pixel a chain from its start can
    reach. */
module Regions {
  import opened Pixels
  import Nearest

  /** q is one of the nine pixels of the 3 x 3 block around p. */
  predicate Adjacent(p: (int, int), q: (int, int)) {
    -1 <= p.0 - q.0 <= 1 && -1 <= p.1 - q.1 <= 1
  }

  function Elems(s: seq<(int, int)>): set<(int, int)> {
    set p | p in s
  }

  /** Distinct members of S, each after the first adjacent to an earlier one. */
  ghost predicate Chain(S: set<(int, int)>, ch: seq<(int, int)>) {
    (forall k :: 0 <= k < |ch| ==> ch[k] in S)
    && (forall k, l :: 0 <= k < l < |ch| ==> ch[k] != ch[l])
    && (forall l :: 0 < l < |ch| ==> HasParent(ch, l))
  }

  /** ch[l] is adjacent to an earlier pixel of ch. */
  ghost predicate HasParent(ch: seq<(int, int)>, l: int)
    requires 0 <= l < |ch|
  {
    exists k :: 0 <= k < l && Adjacent(ch[k], ch[l])
  }

  /** Every member of S adjacent to a pixel of ch[from..] is in ch. */
  ghost predicate ClosedFrom(S: set<(int, int)>, ch: seq<(int, int)>, from: nat) {
    forall k, q :: from <= k < |ch| && q in S && Adjacent(ch[k], q) ==> q in ch
  }

  /** The region of p in S has at least n pixels: some chain of n pixels starts at p. */
  ghost predicate RegionHas(S: set<(int, int)>, p: (int, int), n: nat) {
    exists ch :: Chain(S, ch) && |ch| == n && n > 0 && ch[0] == p
  }

  /** q lies in the region of p in S: some chain from p passes through q. */
  ghost predicate Reaches(S: set<(int, int)>, p: (int, int), q: (int, int)) {
    exists ch :: Chain(S, ch) && |ch| > 0 && ch[0] == p && q in ch
  }

  /** Not yet visited foreground: `pixel & 0xff && !(pixel & 0xff00)`. */
  predicate Open(img: Image, x: int, y: int)
    requires Inside(img, x, y)
    reads img
  {
    Red(img[x, y]) != 0 && Green(img[x, y]) == 0
  }

  /** S is exactly the set of open pixels of img. */
  ghost predicate OpenSet(img: Image, S: set<(int, int)>)
    reads img
  {
    (forall p :: p in S ==> Inside(img, p.0, p.1))
    && (forall x, y :: Inside(img, x, y) ==> (Open(img, x, y) <==> (x, y) in S))
  }

  /** The pixels of `order` are marked and every other pixel is as it was. */
  ghost predicate MarkedExactly(before: seq<seq<Pixel>>, img: Image, order: seq<(int, int)>)
    reads img
  {
    |before| == img.Length0
    && (forall i :: 0 <= i < |before| ==> |before[i]| == img.Length1)
    && forall x, y :: Inside(img, x, y) ==>
         img[x, y] == (if (x, y) in order then Mark(before[x][y]) else before[x][y])
  }

  // ----- chains

  /** A chain followed by a chain through what it left of S, whose first pixel
      is adjacent to the first chain's start, is a chain. */
  lemma ChainAppend(S: set<(int, int)>, o: seq<(int, int)>, sub: seq<(int, int)>)
    requires Chain(S, o) && |o| > 0
    requires Chain(S - Elems(o), sub)
    requires |sub| > 0 ==> Adjacent(o[0], sub[0])
    ensures Chain(S, o + sub)
  {
    var c := o + sub;
    forall l | 0 < l < |c|
      ensures HasParent(c, l)
    {
      if l < |o| {
        assert c[l] == o[l];
        assert HasParent(o, l);
        var k :| 0 <= k < l && Adjacent(o[k], o[l]);
        assert c[k] == o[k] && Adjacent(c[k], c[l]);
      } else if l == |o| {
        assert c[0] == o[0] && c[l] == sub[0] && Adjacent(c[0], c[l]);
      } else {
        var j := l - |o|;
        assert c[l] == sub[j];
        assert HasParent(sub, j);
        var k :| 0 <= k < j && Adjacent(sub[k], sub[j]);
        assert c[|o| + k] == sub[k] && Adjacent(c[|o| + k], c[l]);
      }
    }
    DistinctAppend(S, o, sub);
  }

  /** The members of a chain and of a chain through what it left of S are
      distinct. */
  lemma DistinctAppend(S: set<(int, int)>, o: seq<(int, int)>, sub: seq<(int, int)>)
    requires Chain(S, o) && Chain(S - Elems(o), sub)
    ensures forall k :: 0 <= k < |o + sub| ==> (o + sub)[k] in S
    ensures forall k, l :: 0 <= k < l < |o + sub| ==> (o + sub)[k] != (o + sub)[l]
  {
    var c := o + sub;
    assert forall k :: 0 <= k < |c| ==> c[k] in S;
    forall k, l | 0 <= k < l < |c|
      ensures c[k] != c[l]
    {
      if l >= |o| && k < |o| {
        assert c[l] == sub[l - |o|] && c[l] in S - Elems(o);
        assert c[k] == o[k] && c[k] in Elems(o);
      }
    }
  }

  /** Appending a chain closed in what was left of S keeps closure from `from`. */
  lemma ClosedAppend(S: set<(int, int)>, o: seq<(int, int)>, sub: seq<(int, int)>, from: nat)
    requires ClosedFrom(S, o, from) && ClosedFrom(S - Elems(o), sub, 0)
    ensures ClosedFrom(S, o + sub, from)
  {
    var c := o + sub;
    forall k, q | from <= k < |c| && q in S && Adjacent(c[k], q)
      ensures q in c
    {
      if k < |o| {
        assert c[k] == o[k];
        assert q in o;
      } else {
        assert c[k] == sub[k - |o|];
        if q !in o {
          assert q in S - Elems(o);
          assert q in sub;
        }
      }
    }
  }

  /** Every pixel of a chain from the start of a closed chain is in the closed chain. */
  lemma {:induction false} ClosedHolds(S: set<(int, int)>, order: seq<(int, int)>, ch: seq<(int, int)>, l: nat)
    requires Chain(S, order) && |order| > 0 && ClosedFrom(S, order, 0)
    requires Chain(S, ch) && |ch| > 0 && ch[0] == order[0]
    requires l < |ch|
    ensures ch[l] in order
    decreases l
  {
    if l > 0 {
      assert HasParent(ch, l);
      var k :| 0 <= k < l && Adjacent(ch[k], ch[l]);
      ClosedHolds(S, order, ch, k);
      var i :| 0 <= i < |order| && order[i] == ch[k];
      assert ch[l] in S;
    }
  }

  lemma {:induction false} DistinctElems(s: seq<(int, int)>)
    requires forall k, l :: 0 <= k < l < |s| ==> s[k] != s[l]
    ensures |Elems(s)| == |s|
    decreases |s|
  {
    if s != [] {
      var t := s[..|s| - 1];
      DistinctElems(t);
      assert Elems(s) == Elems(t) + {s[|s| - 1]};
      assert s[|s| - 1] !in Elems(t);
    }
  }

  lemma {:induction false} ElemsBound(s: seq<(int, int)>)
    ensures |Elems(s)| <= |s|
    decreases |s|
  {
    if s != [] {
      var t := s[..|s| - 1];
      ElemsBound(t);
      assert Elems(s) == Elems(t) + {s[|s| - 1]};
    }
  }

  lemma {:induction false} SubsetSize(a: set<(int, int)>, b: set<(int, int)>)
    requires a <= b
    ensures |a| <= |b|
    decreases |a|
  {
    if a != {} {
      var p :| p in a;
      SubsetSize(a - {p}, b - {p});
    }
  }

  /** A closed chain is as long as any chain from its start: it is the whole region. */
  lemma ClosedIsLargest(S: set<(int, int)>, order: seq<(int, int)>, ch: seq<(int, int)>)
    requires Chain(S, order) && |order| > 0 && ClosedFrom(S, order, 0)
    requires Chain(S, ch) && |ch| > 0 && ch[0] == order[0]
    ensures |ch| <= |order|
  {
    forall l | 0 <= l < |ch|
      ensures ch[l] in order
    {
      ClosedHolds(S, order, ch, l);
    }
    assert Elems(ch) <= Elems(order);
    SubsetSize(Elems(ch), Elems(order));
    DistinctElems(ch);
    ElemsBound(order);
  }

  /** A region whose closed chain is shorter than n does not have n pixels. */
  lemma ClosedBelow(S: set<(int, int)>, order: seq<(int, int)>, n: nat)
    requires Chain(S, order) && |order| > 0 && ClosedFrom(S, order, 0) && |order| < n
    ensures !RegionHas(S, order[0], n)
  {
    if RegionHas(S, order[0], n) {
      var ch :| Chain(S, ch) && |ch| == n && n > 0 && ch[0] == order[0];
      ClosedIsLargest(S, order, ch);
    }
  }

  // ----- remainingAreaRec

  /** After the loops have stood at (dx, dy), the neighbour q of (x, y) has been looked at. */
  predicate Done(x: int, y: int, q: (int, int), dy: int, dx: int) {
    q.1 - y < dy || (q.1 - y == dy && q.0 - x < dx)
  }

  ghost predicate NeighboursIn(S: set<(int, int)>, o: seq<(int, int)>, x: int, y: int, dy: int, dx: int) {
    forall q :: q in S && Adjacent((x, y), q) && Done(x, y, q, dy, dx) ==> q in o
  }

  /** Once all nine neighbours of the chain's start have been looked at,
      closure from the second pixel becomes closure from the first. */
  lemma AllNeighboursDone(S: set<(int, int)>, o: seq<(int, int)>, x: int, y: int)
    requires |o| > 0 && o[0] == (x, y)
    requires ClosedFrom(S, o, 1) && NeighboursIn(S, o, x, y, 2, -1)
    ensures ClosedFrom(S, o, 0)
  {
    forall k, q | 0 <= k < |o| && q in S && Adjacent(o[k], q)
      ensures q in o
    {
      if k == 0 {
        assert Done(x, y, q, 2, -1);
      }
    }
  }

  /** remainingAreaRec: with a positive budget, mark (x, y), then enter each
      open pixel of its 3 x 3 block in row-major order with what is left of
      the budget. The result is the budget left; `order` lists the pixels
      entered. */
  method RemainingAreaRec(img: Image, x: int, y: int, area: int, ghost S: set<(int, int)>)
    returns (r: int, ghost order: seq<(int, int)>)
    requires OpenSet(img, S)
    requires area > 0 ==> (x, y) in S
    modifies img
    decreases area, 0
    ensures area <= 0 ==> r == 0 && order == []
    ensures area > 0 ==> 0 <= r < area && |order| == area - r && order[0] == (x, y)
    ensures Chain(S, order)
    ensures r > 0 ==> ClosedFrom(S, order, 0)
    ensures MarkedExactly(old(Snapshot(img)), img, order)
    ensures OpenSet(img, S - Elems(order))
  {
    if area <= 0 {
      return 0, [];
    }
    ghost var before := Snapshot(img);
    img[x, y] := Mark(img[x, y]);
    order := [(x, y)];
    r := area - 1;
    assert OpenSet(img, S - Elems(order)) by {
      assert Elems(order) == {(x, y)};
    }
    var dy := -1;
    while dy < 2
      invariant -1 <= dy <= 2
      invariant 0 <= r < area && |order| == area - r && order[0] == (x, y)
      invariant Chain(S, order)
      invariant r > 0 ==> ClosedFrom(S, order, 1) && NeighboursIn(S, order, x, y, dy, -1)
      invariant MarkedExactly(before, img, order)
      invariant OpenSet(img, S - Elems(order))
    {
      var dx := -1;
      while dx < 2
        invariant -1 <= dx <= 2
        invariant 0 <= r < area && |order| == area - r && order[0] == (x, y)
        invariant Chain(S, order)
        invariant r > 0 ==> ClosedFrom(S, order, 1) && NeighboursIn(S, order, x, y, dy, dx)
        invariant MarkedExactly(before, img, order)
        invariant OpenSet(img, S - Elems(order))
      {
        r, order := VisitNeighbour(img, x, y, dx, dy, r, S, order, before);
        dx := dx + 1;
      }
      dy := dy + 1;
    }
    if r > 0 {
      AllNeighboursDone(S, order, x, y);
    }
  }

  /** One pass of the inner loop of remainingAreaRec: look at the neighbour
      (x + dx, y + dy) and, when it is in bounds and open, enter it with the
      budget r. */
  method VisitNeighbour(img: Image, x: int, y: int, dx: int, dy: int, r: int,
                        ghost S: set<(int, int)>, ghost o: seq<(int, int)>, ghost before: seq<seq<Pixel>>)
    returns (r': int, ghost o': seq<(int, int)>)
    requires -1 <= dx <= 1 && -1 <= dy <= 1
    requires 0 <= r && |o| > 0 && o[0] == (x, y)
    requires Chain(S, o)
    requires r > 0 ==> ClosedFrom(S, o, 1) && NeighboursIn(S, o, x, y, dy, dx)
    requires MarkedExactly(before, img, o)
    requires OpenSet(img, S - Elems(o))
    modifies img
    decreases r, 1
    ensures 0 <= r' <= r && |o'| == |o| + (r - r') && o'[0] == (x, y)
    ensures Chain(S, o')
    ensures r' > 0 ==> ClosedFrom(S, o', 1) && NeighboursIn(S, o', x, y, dy, dx + 1)
    ensures MarkedExactly(before, img, o')
    ensures OpenSet(img, S - Elems(o'))
  {
    r', o' := r, o;
    var nx, ny := x + dx, y + dy;
    if ny < 0 || ny >= img.Length1 || nx < 0 || nx >= img.Length0 {
      return;
    }
    if Red(img[nx, ny]) != 0 && Green(img[nx, ny]) == 0 {
      ghost var S' := S - Elems(o);
      ghost var mid := Snapshot(img);
      ghost var sub;
      r', sub := RemainingAreaRec(img, nx, ny, r, S');
      o' := o + sub;
      ChainAppend(S, o, sub);
      if r' > 0 {
        ClosedAppend(S, o, sub, 1);
        assert (nx, ny) == sub[0] && (nx, ny) in o';
      }
      assert S' - Elems(sub) == S - Elems(o');
      forall i, j | Inside(img, i, j)
        ensures img[i, j] == (if (i, j) in o' then Mark(before[i][j]) else before[i][j])
      {
        if (i, j) in sub {
          assert (i, j) in S';
        }
      }
    }
  }

  /** hasAreaAbove: clear every mark, then ask whether a search with budget
      `area` from (x, y) uses it all. It answers whether the 8-connected
      foreground region of (x, y) has at least `area` pixels; the red, blue
      and alpha bytes of the image are left as they were. */
  method HasAreaAbove(img: Image, x: int, y: int, area: int) returns (b: bool)
    requires area > 0 ==> Inside(img, x, y) && Fg(img, x, y)
    modifies img
    ensures area <= 0 ==> b
    ensures area > 0 ==> (b <==> RegionHas(old(FgSet(img)), (x, y), area))
    ensures forall i, j :: Inside(img, i, j) ==>
              img[i, j] == ClearGreen(old(img[i, j]))
              || (Red(old(img[i, j])) != 0 && img[i, j] == Mark(ClearGreen(old(img[i, j]))))
  {
    ghost var S := FgSet(img);
    ClearMarks(img);
    assert OpenSet(img, S) by {
      assert forall p :: p in S ==> Inside(img, p.0, p.1);
    }
    ghost var cleared := Snapshot(img);
    var r;
    ghost var order;
    r, order := RemainingAreaRec(img, x, y, area, S);
    b := r == 0;
    if area > 0 {
      if b {
        assert Chain(S, order) && |order| == area && order[0] == (x, y);
      } else {
        ClosedBelow(S, order, area);
      }
    }
  }

  /** The loops that open hasAreaAbove and moveToTopLeft:
      `pixel(img, x, y) &= 0xffff00ff` over the whole image. */
  method ClearMarks(img: Image)
    modifies img
    ensures forall i, j :: Inside(img, i, j) ==> img[i, j] == ClearGreen(old(img[i, j]))
  {
    var y := 0;
    while y < img.Length1
      invariant 0 <= y <= img.Length1
      invariant forall i, j :: Inside(img, i, j) ==>
                  img[i, j] == if j < y then ClearGreen(old(img[i, j])) else old(img[i, j])
    {
      var x := 0;
      while x < img.Length0
        invariant 0 <= x <= img.Length0
        invariant forall i, j :: Inside(img, i, j) ==>
                    img[i, j] == if j < y || (j == y && i < x) then ClearGreen(old(img[i, j])) else old(img[i, j])
      {
        img[x, y] := ClearGreen(img[x, y]);
        x := x + 1;
      }
      y := y + 1;
    }
  }

  // ----- moveToTopLeft

  /** (x, y) is p, or comes before it in row-major order. */
  predicate NotAfter(x: int, y: int, p: (int, int)) {
    !Nearest.Before(p.0, p.1, x, y)
  }

  /** moveToTopLeftRec: mark (sx, sy), move (x, y) to it when it comes first
      in row-major order, and enter every open pixel of its 3 x 3 block. The
      search visits the whole region: `order` is a closed chain from
      (sx, sy), and the result is the first of (x, y) and the region's pixels. */
  method MoveToTopLeftRec(img: Image, x: int, y: int, sx: int, sy: int, ghost S: set<(int, int)>)
    returns (x': int, y': int, ghost order: seq<(int, int)>)
    requires OpenSet(img, S) && (sx, sy) in S
    modifies img
    decreases S, 0
    ensures |order| > 0 && order[0] == (sx, sy)
    ensures Chain(S, order) && ClosedFrom(S, order, 0)
    ensures MarkedExactly(old(Snapshot(img)), img, order)
    ensures OpenSet(img, S - Elems(order))
    ensures (x', y') == (x, y) || (x', y') in order
    ensures NotAfter(x', y', (x, y)) && forall p :: p in order ==> NotAfter(x', y', p)
  {
    ghost var before := Snapshot(img);
    img[sx, sy] := Mark(img[sx, sy]);
    x', y' := x, y;
    if Nearest.Before(sx, sy, x, y) {
      x', y' := sx, sy;
    }
    order := [(sx, sy)];
    assert OpenSet(img, S - Elems(order)) by {
      assert Elems(order) == {(sx, sy)};
    }
    var dy := -1;
    while dy < 2
      invariant -1 <= dy <= 2
      invariant Entering(img, S, before, order, sx, sy, dy, -1) && TopLeft(x, y, x', y', order)
    {
      var dx := -1;
      while dx < 2
        invariant -1 <= dx <= 2
        invariant Entering(img, S, before, order, sx, sy, dy, dx) && TopLeft(x, y, x', y', order)
      {
        x', y', order := MoveNeighbour(img, x, y, x', y', sx, sy, dx, dy, S, order, before);
        dx := dx + 1;
      }
      RowDone(S, order, sx, sy, dy);
      dy := dy + 1;
    }
    AllNeighboursDone(S, order, sx, sy);
  }

  /** The state of moveToTopLeftRec's loops on entry to neighbour (dx, dy):
      `o` is a chain through S from (sx, sy), closed from its second pixel and
      holding every open neighbour already looked at; exactly its pixels are
      marked, and the rest of S is still open. */
  ghost predicate Entering(img: Image, S: set<(int, int)>, before: seq<seq<Pixel>>, o: seq<(int, int)>,
                           sx: int, sy: int, dy: int, dx: int)
    reads img
  {
    |o| > 0 && o[0] == (sx, sy) && Chain(S, o) && ClosedFrom(S, o, 1) && NeighboursIn(S, o, sx, sy, dy, dx)
    && MarkedExactly(before, img, o) && OpenSet(img, S - Elems(o))
  }

  /** (x, y) is (x0, y0) or a pixel of o, and none of them comes before it. */
  ghost predicate TopLeft(x0: int, y0: int, x: int, y: int, o: seq<(int, int)>) {
    ((x, y) == (x0, y0) || (x, y) in o)
    && NotAfter(x, y, (x0, y0)) && forall p :: p in o ==> NotAfter(x, y, p)
  }

  /** Past the last column of row dy is the start of row dy + 1. */
  lemma RowDone(S: set<(int, int)>, o: seq<(int, int)>, x: int, y: int, dy: int)
    requires NeighboursIn(S, o, x, y, dy, 2)
    ensures NeighboursIn(S, o, x, y, dy + 1, -1)
  {
  }

  /** One pass of the inner loop of moveToTopLeftRec: enter the neighbour
      (sx + dx, sy + dy) when it is in bounds and open. */
  method MoveNeighbour(img: Image, x0: int, y0: int, x: int, y: int, sx: int, sy: int, dx: int, dy: int,
                       ghost S: set<(int, int)>, ghost o: seq<(int, int)>, ghost before: seq<seq<Pixel>>)
    returns (x': int, y': int, ghost o': seq<(int, int)>)
    requires -1 <= dx <= 1 && -1 <= dy <= 1
    requires Entering(img, S, before, o, sx, sy, dy, dx) && TopLeft(x0, y0, x, y, o)
    modifies img
    decreases S - Elems(o), 1
    ensures Entering(img, S, before, o', sx, sy, dy, dx + 1) && TopLeft(x0, y0, x', y', o')
  {
    x', y', o' := x, y, o;
    var nx, ny := sx + dx, sy + dy;
    if ny < 0 || ny >= img.Length1 || nx < 0 || nx >= img.Length0 {
      return;
    }
    if Red(img[nx, ny]) != 0 && Green(img[nx, ny]) == 0 {
      ghost var S' := S - Elems(o);
      ghost var sub;
      x', y', sub := MoveToTopLeftRec(img, x, y, nx, ny, S');
      o' := o + sub;
      ChainAppend(S, o, sub);
      ClosedAppend(S, o, sub, 1);
      assert (nx, ny) == sub[0] && (nx, ny) in o';
      assert S' - Elems(sub) == S - Elems(o');
      forall i, j | Inside(img, i, j)
        ensures img[i, j] == (if (i, j) in o' then Mark(before[i][j]) else before[i][j])
      {
        if (i, j) in sub {
          assert (i, j) in S';
        }
      }
    }
  }

  /** moveToTopLeft: clear every mark, then move (x, y) to the first pixel,
      in row-major order, of its 8-connected foreground region. */
  method MoveToTopLeft(img: Image, x: int, y: int) returns (x': int, y': int)
    requires Inside(img, x, y) && Fg(img, x, y)
    modifies img
    ensures Inside(img, x', y') && Fg(img, x', y')
    ensures Reaches(old(FgSet(img)), (x, y), (x', y'))
    ensures forall q :: Reaches(old(FgSet(img)), (x, y), q) ==> NotAfter(x', y', q)
    ensures forall i, j :: Inside(img, i, j) ==>
              img[i, j] == ClearGreen(old(img[i, j]))
              || (Red(old(img[i, j])) != 0 && img[i, j] == Mark(ClearGreen(old(img[i, j]))))
  {
    ghost var S := FgSet(img);
    ClearMarks(img);
    assert OpenSet(img, S) by {
      assert forall p :: p in S ==> Inside(img, p.0, p.1);
    }
    ghost var order;
    x', y', order := MoveToTopLeftRec(img, x, y, x, y, S);
    assert Reaches(S, (x, y), (x', y'));
    forall q | Reaches(S, (x, y), q)
      ensures NotAfter(x', y', q)
    {
      var ch :| Chain(S, ch) && |ch| > 0 && ch[0] == (x, y) && q in ch;
      var l :| 0 <= l < |ch| && ch[l] == q;
      ClosedHolds(S, order, ch, l);
    }
  }
}
