/**
 The funny pointer lists of components/gui/GUI/JPEG/jdmainct.c for one component.  A row group has `g`
 sample rows and an iMCU row `l` of them; the workspace has l + 2g physical rows.  Position q of a list,
 from -g up to l + 3g, is element q + g of a sequence.
 */
module ContextPointers {

  /** Group height, iMCU row height, and the number of sample rows of the image. */
  datatype Shape = Shape(g: int, l: int, d: int) {
    predicate Ok() { 1 <= g && 2 * g <= l && 1 <= d }
  }

  /** The rows kept in the workspace, by image row number, and the two pointer lists. */
  datatype Comp = Comp(rows: seq<int>, x0: seq<int>, x1: seq<int>)

  predicate Sized(s: Shape, c: Comp) {
    |c.rows| == s.l + 2 * s.g && |c.x0| == s.l + 4 * s.g && |c.x1| == s.l + 4 * s.g
  }

  function List(c: Comp, w: int): seq<int> { if w == 0 then c.x0 else c.x1 }

  /** The physical row at position `q` of the plain part of list `w`: the second list swaps its last four groups. */
  function Base(s: Shape, w: int, q: int): int {
    if w == 0 || q < s.l - 2 * s.g then q
    else if q < s.l then q + 2 * s.g
    else q - 2 * s.g
  }

  /** The normal state of a list: it wraps around at both ends. */
  function Normal(s: Shape, w: int, q: int): int {
    if q < 0 then Base(s, w, q + s.l + 2 * s.g)
    else if q < s.l + 2 * s.g then Base(s, w, q)
    else Base(s, w, q - (s.l + 2 * s.g))
  }

  predicate Plain(s: Shape, x: seq<int>, w: int)
    requires |x| == s.l + 4 * s.g && s.g >= 0
  {
    forall k :: s.g <= k < s.l + 3 * s.g ==> x[k] == Base(s, w, k - s.g)
  }

  predicate Wrapped(s: Shape, x: seq<int>, w: int)
    requires |x| == s.l + 4 * s.g && s.g >= 0
  {
    forall k :: 0 <= k < s.l + 4 * s.g ==> x[k] == Normal(s, w, k - s.g)
  }

  /** Above the top of the image the first row is repeated. */
  predicate Topped(s: Shape, x: seq<int>)
    requires |x| == s.l + 4 * s.g && s.g >= 0 && s.l >= 0
  {
    forall k :: 0 <= k < s.g ==> x[k] == 0
  }

  // ----- the three pointer routines -----

  /** make_funny_pointers */
  method MakeFunny(s: Shape, c: Comp) returns (c': Comp)
    requires s.Ok() && Sized(s, c)
    ensures Sized(s, c') && c'.rows == c.rows && Plain(s, c'.x0, 0) && Topped(s, c'.x0) && Plain(s, c'.x1, 1)
  {
    var x0, x1 := c.x0, c.x1;
    var i := 0;
    while i < s.l + 2 * s.g
      invariant 0 <= i <= s.l + 2 * s.g && |x0| == |c.x0| && |x1| == |c.x1|
      invariant forall k :: s.g <= k < s.g + i ==> x0[k] == k - s.g && x1[k] == k - s.g
    {
      x0, x1 := x0[i + s.g := i], x1[i + s.g := i];
      i := i + 1;
    }
    x1 := SwapGroups(s, x1);
    i := 0;
    while i < s.g
      invariant 0 <= i <= s.g && |x0| == |c.x0|
      invariant forall k :: s.g <= k < s.l + 3 * s.g ==> x0[k] == k - s.g
      invariant forall k :: 0 <= k < i ==> x0[k] == 0
    {
      x0 := x0[i := x0[s.g]];
      i := i + 1;
    }
    c' := Comp(c.rows, x0, x1);
  }

  /** The last four row groups of the second list, pairwise swapped. */
  method SwapGroups(s: Shape, x: seq<int>) returns (x1: seq<int>)
    requires s.Ok() && |x| == s.l + 4 * s.g && Plain(s, x, 0)
    ensures |x1| == |x| && Plain(s, x1, 1)
  {
    x1 := x;
    var i := 0;
    while i < 2 * s.g
      invariant 0 <= i <= 2 * s.g && |x1| == |x|
      invariant forall k :: s.g <= k < s.l + 3 * s.g ==>
                  x1[k] == if s.l - s.g <= k < s.l - s.g + i then k + s.g
                           else if s.l + s.g <= k < s.l + s.g + i then k - 3 * s.g else k - s.g
    {
      x1 := x1[s.l - s.g + i := s.l + i];
      x1 := x1[s.l + s.g + i := s.l - 2 * s.g + i];
      i := i + 1;
    }
  }

  /** The last row group of the plain part goes on top, the first one below. */
  predicate WrapOf(s: Shape, x: seq<int>, x': seq<int>)
    requires s.Ok() && |x| == |x'| == s.l + 4 * s.g
  {
    && (forall k :: 0 <= k < s.g ==> x'[k] == x[k + s.l + 2 * s.g])
    && (forall k :: s.g <= k < s.l + 3 * s.g ==> x'[k] == x[k])
    && (forall k :: s.l + 3 * s.g <= k < s.l + 4 * s.g ==> x'[k] == x[k - s.l - 2 * s.g])
  }

  lemma WrapPlain(s: Shape, x: seq<int>, x': seq<int>, w: int)
    requires s.Ok() && |x| == |x'| == s.l + 4 * s.g && WrapOf(s, x, x') && Plain(s, x, w)
    ensures Wrapped(s, x', w)
  {
    hide Base;
    forall k | 0 <= k < s.l + 4 * s.g ensures x'[k] == Normal(s, w, k - s.g) {
      var k' := if k < s.g then k + s.l + 2 * s.g else if k < s.l + 3 * s.g then k else k - s.l - 2 * s.g;
      assert x'[k] == x[k'];
      assert x[k'] == Base(s, w, k' - s.g);
    }
  }

  /** set_wraparound_pointers */
  method SetWraparound(s: Shape, c: Comp) returns (c': Comp)
    requires s.Ok() && Sized(s, c)
    ensures Sized(s, c') && c'.rows == c.rows && WrapOf(s, c.x0, c'.x0) && WrapOf(s, c.x1, c'.x1)
  {
    var x0 := Wrap(s, c.x0);
    var x1 := Wrap(s, c.x1);
    c' := Comp(c.rows, x0, x1);
  }

  method Wrap(s: Shape, x: seq<int>) returns (x': seq<int>)
    requires s.Ok() && |x| == s.l + 4 * s.g
    ensures |x'| == |x| && WrapOf(s, x, x')
  {
    x' := x;
    var i := 0;
    while i < s.g
      invariant 0 <= i <= s.g && |x'| == |x|
      invariant forall k :: 0 <= k < i ==> x'[k] == x[k + s.l + 2 * s.g]
      invariant forall k :: s.g <= k < s.l + 3 * s.g ==> x'[k] == x[k]
      invariant forall k :: s.l + 3 * s.g <= k < s.l + 3 * s.g + i ==> x'[k] == x[k - s.l - 2 * s.g]
    {
      x' := x'[i := x'[s.l + 2 * s.g + i]];
      x' := x'[s.l + 3 * s.g + i := x'[i + s.g]];
      i := i + 1;
    }
  }

  /** Nondummy sample rows in the last iMCU row. */
  function RowsLeft(s: Shape): (n: int)
    requires s.Ok()
    ensures 1 <= n <= s.l
  {
    if s.d % s.l == 0 then s.l else s.d % s.l
  }

  /** The list with the last real row repeated for two row groups. */
  predicate Bottomed(s: Shape, x: seq<int>, x': seq<int>)
    requires s.Ok() && |x| == |x'| == s.l + 4 * s.g
  {
    var left := RowsLeft(s);
    forall k :: 0 <= k < s.l + 4 * s.g ==> x'[k] == if left + s.g <= k < left + 3 * s.g then x[left - 1 + s.g] else x[k]
  }

  /** The pointer part of set_bottom_pointers. */
  method SetBottom(s: Shape, c: Comp, w: int) returns (c': Comp)
    requires s.Ok() && Sized(s, c) && (w == 0 || w == 1)
    ensures Sized(s, c') && c'.rows == c.rows && Bottomed(s, List(c, w), List(c', w))
    ensures List(c', 1 - w) == List(c, 1 - w)
  {
    hide RowsLeft;
    var left := RowsLeft(s);
    var x := List(c, w);
    ghost var was := x;
    var i := 0;
    while i < 2 * s.g
      invariant 0 <= i <= 2 * s.g && |x| == |was|
      invariant forall k :: 0 <= k < s.l + 4 * s.g ==> x[k] == if left + s.g <= k < left + s.g + i
              then was[left - 1 + s.g] else was[k]
    {
      x := x[left + i + s.g := x[left - 1 + s.g]];
      i := i + 1;
    }
    c' := if w == 0 then c.(x0 := x) else c.(x1 := x);
  }
}
