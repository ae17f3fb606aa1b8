/**
 The values behind components/stdlib/coslib/rbtree.hpp: a `Shape` is a whole tree, a `Path` is the
 way from the root down to one position (a shape with a hole).  The functions below say what the
 pointer code computes; the lemmas say what that computation keeps.  Keys are carried in the shape,
 `N` is the type of the intrusive nodes.
 */
module RbShape {

  datatype Color = Red | Black

  datatype Side = Left | Right {
    function Other(): Side {
      if this == Left then Right else Left
    }
  }

  datatype Shape<N> =
    | Nil
    | Bin(color: Color, left: Shape<N>, key: int, node: N, right: Shape<N>)

  /** `Down` is one step: the hole hangs on `side` of `node`, and `other` on its other side. */
  datatype Path<N> =
    | Top
    | Down(up: Path<N>, side: Side, color: Color, key: int, node: N, other: Shape<N>)

  datatype Entry<N> = Entry(key: int, node: N)

  function Child<N>(t: Shape<N>, s: Side): Shape<N>
    requires t.Bin?
  {
    if s == Left then t.left else t.right
  }

  /** A tree with `hole` on side `s` of the node and `other` on the opposite side. */
  function Make<N>(s: Side, c: Color, hole: Shape<N>, k: int, n: N, other: Shape<N>): Shape<N> {
    if s == Left then Bin(c, hole, k, n, other) else Bin(c, other, k, n, hole)
  }

  function Plug<N>(path: Path<N>, t: Shape<N>): Shape<N> {
    match path
    case Top => t
    case Down(up, s, c, k, n, o) => Plug(up, Make(s, c, t, k, n, o))
  }

  function ColorOf<N>(t: Shape<N>): Color {
    if t.Nil? then Black else t.color
  }

  // ----- what a tree contains -----

  function InOrder<N>(t: Shape<N>): seq<Entry<N>> {
    match t
    case Nil => []
    case Bin(_, l, k, n, r) => InOrder(l) + [Entry(k, n)] + InOrder(r)
  }

  /** The entries before the hole. */
  function Before<N>(path: Path<N>): seq<Entry<N>> {
    match path
    case Top => []
    case Down(up, Left, _, _, _, _) => Before(up)
    case Down(up, Right, _, k, n, o) => Before(up) + InOrder(o) + [Entry(k, n)]
  }

  /** The entries after the hole. */
  function After<N>(path: Path<N>): seq<Entry<N>> {
    match path
    case Top => []
    case Down(up, Left, _, k, n, o) => [Entry(k, n)] + InOrder(o) + After(up)
    case Down(up, Right, _, _, _, _) => After(up)
  }

  lemma {:induction false} InOrderPlug<N>(path: Path<N>, t: Shape<N>)
    ensures InOrder(Plug(path, t)) == Before(path) + InOrder(t) + After(path)
    decreases path
  {
    match path
    case Top =>
    case Down(up, s, c, k, n, o) =>
      InOrderPlug(up, Make(s, c, t, k, n, o));
  }

  ghost function Nodes<N>(t: Shape<N>): set<N> {
    match t
    case Nil => {}
    case Bin(_, l, _, n, r) => Nodes(l) + {n} + Nodes(r)
  }

  lemma {:induction false} NodesInOrder<N>(t: Shape<N>)
    ensures Nodes(t) == set e | e in InOrder(t) :: e.node
  {
    match t
    case Nil =>
    case Bin(_, l, k, n, r) =>
      NodesInOrder(l);
      NodesInOrder(r);
      assert Entry(k, n) in InOrder(t);
      assert forall e :: e in InOrder(t) <==> e in InOrder(l) || e == Entry(k, n) || e in InOrder(r);
  }

  ghost function PathNodes<N>(path: Path<N>): set<N> {
    match path
    case Top => {}
    case Down(up, _, _, _, n, o) => PathNodes(up) + {n} + Nodes(o)
  }

  /** No node occurs twice. */
  ghost predicate Apart<N>(t: Shape<N>) {
    match t
    case Nil => true
    case Bin(_, l, _, n, r) =>
      Apart(l) && Apart(r) && Nodes(l) !! Nodes(r) && n !in Nodes(l) && n !in Nodes(r)
  }

  ghost predicate PathApart<N>(path: Path<N>) {
    match path
    case Top => true
    case Down(up, _, _, _, n, o) =>
      PathApart(up) && Apart(o) && PathNodes(up) !! Nodes(o) && n !in PathNodes(up) && n !in Nodes(o)
  }

  /** Weak search order: keys never decrease from left to right. */
  ghost predicate Sorted<N>(es: seq<Entry<N>>) {
    forall i, j :: 0 <= i < j < |es| ==> es[i].key <= es[j].key
  }

  // ----- the red-black rules -----

  /** Black nodes on the leftmost path. */
  function Height<N>(t: Shape<N>): nat {
    match t
    case Nil => 0
    case Bin(c, l, _, _, _) => Height(l) + if c == Black then 1 else 0
  }

  /** Every path down from the root passes the same number of black nodes. */
  predicate Balanced<N>(t: Shape<N>) {
    match t
    case Nil => true
    case Bin(_, l, _, _, r) => Balanced(l) && Balanced(r) && Height(l) == Height(r)
  }

  /** No red node has a red child. */
  predicate RedOk<N>(t: Shape<N>) {
    match t
    case Nil => true
    case Bin(c, l, _, _, r) =>
      && RedOk(l) && RedOk(r)
      && (c == Red ==> ColorOf(l) == Black && ColorOf(r) == Black)
  }

  predicate RedBlack<N>(t: Shape<N>) {
    Balanced(t) && RedOk(t) && ColorOf(t) == Black
  }

  /** The hole takes exactly the trees of black height `h`. */
  predicate PathBalanced<N>(path: Path<N>, h: nat) {
    match path
    case Top => true
    case Down(up, _, c, _, _, o) =>
      Balanced(o) && Height(o) == h && PathBalanced(up, h + if c == Black then 1 else 0)
  }

  /** The no-red-red rule outside the hole, when the hole's root has colour `c`. */
  predicate PathRedOk<N>(path: Path<N>, c: Color) {
    match path
    case Top => true
    case Down(up, _, pc, _, _, o) =>
      && RedOk(o)
      && (pc == Red ==> c == Black && ColorOf(o) == Black)
      && PathRedOk(up, pc)
  }

  /** The topmost node of the path is black. */
  predicate TopBlack<N>(path: Path<N>) {
    match path
    case Top => true
    case Down(up, _, c, _, _, _) => if up.Top? then c == Black else TopBlack(up)
  }

  lemma {:induction false} BalancedPlug<N>(path: Path<N>, t: Shape<N>)
    ensures Balanced(Plug(path, t)) <==> Balanced(t) && PathBalanced(path, Height(t))
    decreases path
  {
    match path
    case Top =>
    case Down(up, s, c, k, n, o) =>
      var m := Make(s, c, t, k, n, o);
      BalancedPlug(up, m);
      if Balanced(m) {
        assert Height(m) == Height(t) + if c == Black then 1 else 0;
      }
  }

  lemma {:induction false} RedOkPlug<N>(path: Path<N>, t: Shape<N>)
    ensures RedOk(Plug(path, t)) <==> RedOk(t) && PathRedOk(path, ColorOf(t))
    decreases path
  {
    match path
    case Top =>
    case Down(up, s, c, k, n, o) =>
      RedOkPlug(up, Make(s, c, t, k, n, o));
  }

  lemma {:induction false} TopColorPlug<N>(path: Path<N>, t: Shape<N>)
    requires path.Down?
    ensures ColorOf(Plug(path, t)) == Black <==> TopBlack(path)
    decreases path
  {
    var Down(up, s, c, k, n, o) := path;
    if up.Down? {
      TopColorPlug(up, Make(s, c, t, k, n, o));
    }
  }

  // ----- rotation -----

  /** Rotate towards `s`: the child on the other side takes the place of the root. */
  function Rotate<N>(t: Shape<N>, s: Side): (r: Shape<N>)
    requires t.Bin? && Child(t, s.Other()).Bin?
  {
    var y := Child(t, s.Other());
    var x := Make(s, t.color, Child(t, s), t.key, t.node, Child(y, s));
    Make(s, y.color, x, y.key, y.node, Child(y, s.Other()))
  }

  /** Exchange the colours of the root and its child on side `s`. */
  function SwapColor<N>(t: Shape<N>, s: Side): Shape<N>
    requires t.Bin? && Child(t, s).Bin?
  {
    var y := Child(t, s);
    Make(s, y.color, y.(color := t.color), t.key, t.node, Child(t, s.Other()))
  }

  /** Recolour the child on side `s`. */
  function PaintChild<N>(t: Shape<N>, s: Side, c: Color): Shape<N>
    requires t.Bin? && Child(t, s).Bin?
  {
    Make(s, t.color, Child(t, s).(color := c), t.key, t.node, Child(t, s.Other()))
  }

  lemma RotateApart<N>(t: Shape<N>, s: Side)
    requires t.Bin? && Child(t, s.Other()).Bin?
    ensures Nodes(Rotate(t, s)) == Nodes(t)
    ensures Apart(t) ==> Apart(Rotate(t, s))
  {
    var y := Child(t, s.Other());
    assert Nodes(y) == Nodes(y.left) + {y.node} + Nodes(y.right);
    if s == Left {
      assert Rotate(t, s) == Bin(y.color, Bin(t.color, t.left, t.key, t.node, y.left), y.key, y.node, y.right);
      if Apart(t) {
        assert Apart(y);
        assert Apart(Bin(t.color, t.left, t.key, t.node, y.left));
      }
    } else {
      assert Rotate(t, s) == Bin(y.color, y.left, y.key, y.node, Bin(t.color, y.right, t.key, t.node, t.right));
      if Apart(t) {
        assert Apart(y);
        assert Apart(Bin(t.color, y.right, t.key, t.node, t.right));
      }
    }
  }

  lemma RotateInOrder<N>(t: Shape<N>, s: Side)
    requires t.Bin? && Child(t, s.Other()).Bin?
    ensures InOrder(Rotate(t, s)) == InOrder(t)
  {
    var y := Child(t, s.Other());
    if s == Left {
      calc {
        InOrder(t);
        InOrder(t.left) + [Entry(t.key, t.node)] + (InOrder(y.left) + [Entry(y.key, y.node)] + InOrder(y.right));
        (InOrder(t.left) + [Entry(t.key, t.node)] + InOrder(y.left)) + [Entry(y.key, y.node)] + InOrder(y.right);
      }
    } else {
      calc {
        InOrder(t);
        (InOrder(y.left) + [Entry(y.key, y.node)] + InOrder(y.right)) + [Entry(t.key, t.node)] + InOrder(t.right);
        InOrder(y.left) + [Entry(y.key, y.node)] + (InOrder(y.right) + [Entry(t.key, t.node)] + InOrder(t.right));
      }
    }
  }

  // ----- insertion -----

  /** The shape after adjustInsert on the root of `t`, which hangs at `path`. */
  function AdjustInsert<N>(path: Path<N>, t: Shape<N>): (r: Shape<N>)
    requires t.Bin? && TopBlack(path)
    decreases path
  {
    if path.Top? then t.(color := Black)
    else if path.color == Black then Plug(path, t)
    else
      var Down(up, ps, pc, pk, pn, sib) := path;
      var Down(top, gs, gc, gk, gn, uncle) := up;
      assert TopBlack(up) && TopBlack(top);
      if ColorOf(uncle) == Red then
        AdjustInsert(top, Make(gs, Red, Make(ps, Black, t, pk, pn, sib), gk, gn, uncle.(color := Black)))
      else
        var p := Make(ps, pc, t, pk, pn, sib);
        var p' := if ps != gs then Rotate(p, ps.Other()) else p;
        Plug(top, SwapColor(Rotate(Make(gs, gc, p', gk, gn, uncle), gs.Other()), gs.Other()))
  }

  /** The empty place that the key belongs to: equal keys go to the right. */
  function Descend<N>(path: Path<N>, t: Shape<N>, k: int): (q: Path<N>)
    requires TopBlack(path) && (path.Top? ==> ColorOf(t) == Black)
    ensures TopBlack(q)
    decreases t
  {
    match t
    case Nil => path
    case Bin(c, l, tk, tn, r) =>
      if k < tk then Descend(Down(path, Left, c, tk, tn, r), l, k)
      else Descend(Down(path, Right, c, tk, tn, l), r, k)
  }

  /** The tree after insert: an empty tree takes the node as its black root. */
  function Insert<N>(t: Shape<N>, c: Color, k: int, n: N): (r: Shape<N>)
    requires ColorOf(t) == Black
  {
    AdjustInsert(Descend(Top, t, k), Bin(c, Nil, k, n, Nil))
  }

  lemma {:induction false} AdjustInsertInOrder<N>(path: Path<N>, t: Shape<N>)
    requires t.Bin? && TopBlack(path)
    ensures InOrder(AdjustInsert(path, t)) == Before(path) + InOrder(t) + After(path)
    decreases path
  {
    if path.Top? {
    } else if path.color == Black {
      InOrderPlug(path, t);
    } else {
      var Down(up, ps, pc, pk, pn, sib) := path;
      var Down(top, gs, gc, gk, gn, uncle) := up;
      InOrderPlug(path, t);
      if ColorOf(uncle) == Red {
        var g := Make(gs, Red, Make(ps, Black, t, pk, pn, sib), gk, gn, uncle.(color := Black));
        AdjustInsertInOrder(top, g);
        InOrderPlug(top, Make(gs, gc, Make(ps, pc, t, pk, pn, sib), gk, gn, uncle));
      } else {
        var p := Make(ps, pc, t, pk, pn, sib);
        if ps != gs { RotateInOrder(p, ps.Other()); }
        var p' := if ps != gs then Rotate(p, ps.Other()) else p;
        var g := Make(gs, gc, p', gk, gn, uncle);
        RotateInOrder(g, gs.Other());
        InOrderPlug(top, SwapColor(Rotate(g, gs.Other()), gs.Other()));
        InOrderPlug(top, Make(gs, gc, p, gk, gn, uncle));
      }
    }
  }

  predicate AllAtMost<N>(es: seq<Entry<N>>, k: int) {
    forall i :: 0 <= i < |es| ==> es[i].key <= k
  }

  predicate AllAbove<N>(es: seq<Entry<N>>, k: int) {
    forall i :: 0 <= i < |es| ==> k < es[i].key
  }

  lemma SortedParts<N>(a: seq<Entry<N>>, e: Entry<N>, b: seq<Entry<N>>)
    requires Sorted(a + [e] + b)
    ensures Sorted(a) && Sorted(b) && AllAtMost(a, e.key)
    ensures forall i :: 0 <= i < |b| ==> e.key <= b[i].key
  {
    var s := a + [e] + b;
    assert forall i :: 0 <= i < |a| ==> a[i] == s[i];
    assert s[|a|] == e;
    assert forall i :: 0 <= i < |b| ==> b[i] == s[|a| + 1 + i];
  }

  lemma Regroup<E>(b: seq<E>, l: seq<E>, e: E, r: seq<E>, a: seq<E>)
    ensures b + (l + [e] + r) + a == b + l + ([e] + r + a)
    ensures b + (l + [e] + r) + a == (b + l + [e]) + r + a
  {
  }

  /** The descent splits the entries into those not above the key and those above it. */
  lemma {:induction false} DescendSplits<N>(path: Path<N>, t: Shape<N>, k: int)
    requires TopBlack(path) && (path.Top? ==> ColorOf(t) == Black)
    requires Sorted(InOrder(t)) && AllAtMost(Before(path), k) && AllAbove(After(path), k)
    ensures var q := Descend(path, t, k);
            && Before(q) + After(q) == Before(path) + InOrder(t) + After(path)
            && AllAtMost(Before(q), k) && AllAbove(After(q), k)
    decreases t
  {
    match t
    case Nil =>
    case Bin(c, l, tk, tn, r) =>
      var e := Entry(tk, tn);
      SortedParts(InOrder(l), e, InOrder(r));
      Regroup(Before(path), InOrder(l), e, InOrder(r), After(path));
      if k < tk {
        var down := Down(path, Left, c, tk, tn, r);
        assert AllAbove(InOrder(r), k);
        assert AllAbove(After(down), k);
        DescendSplits(down, l, k);
      } else {
        var down := Down(path, Right, c, tk, tn, l);
        assert AllAtMost(InOrder(l), k);
        assert AllAtMost(Before(down), k);
        DescendSplits(down, r, k);
      }
  }

  /** Insertion keeps weak search order and adds exactly the given node, behind its equals. */
  lemma InsertInOrder<N>(t: Shape<N>, c: Color, k: int, n: N) returns (a: seq<Entry<N>>, b: seq<Entry<N>>)
    requires ColorOf(t) == Black && Sorted(InOrder(t))
    ensures InOrder(t) == a + b && AllAtMost(a, k) && AllAbove(b, k)
    ensures InOrder(Insert(t, c, k, n)) == a + [Entry(k, n)] + b
    ensures Sorted(InOrder(Insert(t, c, k, n)))
  {
    var top: Path<N> := Top;
    assert AllAtMost(Before(top), k) && AllAbove(After(top), k);
    hide Sorted, AllAtMost, AllAbove, Descend, AdjustInsert;
    DescendSplits(top, t, k);
    var q := Descend(top, t, k);
    a, b := Before(q), After(q);
    assert Before(top) + InOrder(t) + After(top) == InOrder(t);
    AdjustInsertInOrder(q, Bin(c, Nil, k, n, Nil));
    SortedInsert(a, Entry(k, n), b);
  }

  lemma SortedInsert<N>(a: seq<Entry<N>>, e: Entry<N>, b: seq<Entry<N>>)
    requires Sorted(a + b) && AllAtMost(a, e.key) && AllAbove(b, e.key)
    ensures Sorted(a + [e] + b)
  {
    var s, r := a + b, a + [e] + b;
    forall i, j | 0 <= i < j < |r| ensures r[i].key <= r[j].key {
      if i < |a| && j < |a| {
        assert r[i] == s[i] && r[j] == s[j];
      } else if i > |a| {
        assert r[i] == s[i - 1] && r[j] == s[j - 1];
      }
    }
  }

  /** Recolouring and rotating repair a single red-red conflict at the hole. */
  lemma {:induction false} AdjustInsertRedBlack<N>(path: Path<N>, t: Shape<N>)
    requires t.Bin? && t.color == Red && TopBlack(path)
    requires Balanced(t) && RedOk(t)
    requires PathBalanced(path, Height(t)) && PathRedOk(path, Black)
    ensures RedBlack(AdjustInsert(path, t))
    decreases path
  {
    if path.Top? {
    } else if path.color == Black {
      BalancedPlug(path, t);
      RedOkPlug(path, t);
      TopColorPlug(path, t);
    } else {
      var Down(up, ps, pc, pk, pn, sib) := path;
      var Down(top, gs, gc, gk, gn, uncle) := up;
      if ColorOf(uncle) == Red {
        var p := Make(ps, Black, t, pk, pn, sib);
        var g := Make(gs, Red, p, gk, gn, uncle.(color := Black));
        assert Balanced(p) && RedOk(p) && Height(p) == Height(t) + 1;
        assert Balanced(uncle.(color := Black));
        assert RedOk(uncle.(color := Black));
        assert Balanced(g) && RedOk(g) && Height(g) == Height(t) + 1 by {
          if gs == Left {} else {}
        }
        PathRedOkBlack(top, gc);
        AdjustInsertRedBlack(top, g);
      } else {
        RotateRepairs(t, ps, pk, pn, sib, gs, gk, gn, uncle);
        var p := Make(ps, pc, t, pk, pn, sib);
        var p' := if ps != gs then Rotate(p, ps.Other()) else p;
        var g := SwapColor(Rotate(Make(gs, gc, p', gk, gn, uncle), gs.Other()), gs.Other());
        BalancedPlug(top, g);
        RedOkPlug(top, g);
        if top.Down? { TopColorPlug(top, g); }
      }
    }
  }

  lemma PathRedOkBlack<N>(path: Path<N>, c: Color)
    requires PathRedOk(path, c)
    ensures PathRedOk(path, Black)
  {
  }

  /** The rotation cases of adjustInsert: the conflict disappears and the height stays. */
  lemma RotateRepairs<N>(t: Shape<N>, ps: Side, pk: int, pn: N, sib: Shape<N>, gs: Side, gk: int, gn: N,
      uncle: Shape<N>)
    requires t.Bin? && t.color == Red && Balanced(t) && RedOk(t)
    requires Balanced(sib) && RedOk(sib) && ColorOf(sib) == Black && Height(sib) == Height(t)
    requires Balanced(uncle) && RedOk(uncle) && ColorOf(uncle) == Black && Height(uncle) == Height(t)
    ensures var p := Make(ps, Red, t, pk, pn, sib);
            var p' := if ps != gs then Rotate(p, ps.Other()) else p;
            var g := SwapColor(Rotate(Make(gs, Black, p', gk, gn, uncle), gs.Other()), gs.Other());
            Balanced(g) && RedOk(g) && g.color == Black && Height(g) == Height(t) + 1
  {
    var p := Make(ps, Red, t, pk, pn, sib);
    if gs == Left && ps == Left {
      var g := Bin(Black, t, pk, pn, Bin(Red, sib, gk, gn, uncle));
      assert g == SwapColor(Rotate(Make(gs, Black, p, gk, gn, uncle), gs.Other()), gs.Other());
    } else if gs == Left {
      var p' := Bin(Red, Bin(Red, sib, pk, pn, t.left), t.key, t.node, t.right);
      assert p' == Rotate(p, ps.Other());
      var g := Bin(Black, Bin(Red, sib, pk, pn, t.left), t.key, t.node, Bin(Red, t.right, gk, gn, uncle));
      assert g == SwapColor(Rotate(Make(gs, Black, p', gk, gn, uncle), gs.Other()), gs.Other());
    } else if ps == Right {
      var g := Bin(Black, Bin(Red, uncle, gk, gn, sib), pk, pn, t);
      assert g == SwapColor(Rotate(Make(gs, Black, p, gk, gn, uncle), gs.Other()), gs.Other());
    } else {
      var p' := Bin(Red, t.left, t.key, t.node, Bin(Red, t.right, pk, pn, sib));
      assert p' == Rotate(p, ps.Other());
      var g := Bin(Black, Bin(Red, uncle, gk, gn, t.left), t.key, t.node, Bin(Red, t.right, pk, pn, sib));
      assert g == SwapColor(Rotate(Make(gs, Black, p', gk, gn, uncle), gs.Other()), gs.Other());
    }
  }

  /** The descent only moves the hole. */
  lemma {:induction false} DescendPlug<N>(path: Path<N>, t: Shape<N>, k: int)
    requires TopBlack(path) && (path.Top? ==> ColorOf(t) == Black)
    ensures Plug(Descend(path, t, k), Nil) == Plug(path, t)
    ensures t.Bin? || path.Down? ==> Descend(path, t, k).Down?
    decreases t
  {
    match t
    case Nil =>
    case Bin(c, l, tk, tn, r) =>
      if k < tk {
        DescendPlug(Down(path, Left, c, tk, tn, r), l, k);
      } else {
        DescendPlug(Down(path, Right, c, tk, tn, l), r, k);
      }
  }

  /** An imbalance below the inserted position survives every repair. */
  lemma {:induction false} ImbalanceStays<N>(path: Path<N>, t: Shape<N>)
    requires t.Bin? && TopBlack(path)
    requires !Balanced(t.left) || !Balanced(t.right)
    ensures !Balanced(AdjustInsert(path, t))
    decreases path
  {
    if path.Top? {
    } else if path.color == Black {
      BalancedPlug(path, t);
    } else {
      var Down(up, ps, pc, pk, pn, sib) := path;
      var Down(top, gs, gc, gk, gn, uncle) := up;
      if ColorOf(uncle) == Red {
        var p := Make(ps, Black, t, pk, pn, sib);
        assert !Balanced(p);
        ImbalanceStays(top, Make(gs, Red, p, gk, gn, uncle.(color := Black)));
      } else {
        var p := Make(ps, pc, t, pk, pn, sib);
        var p' := if ps != gs then Rotate(p, ps.Other()) else p;
        var g := SwapColor(Rotate(Make(gs, gc, p', gk, gn, uncle), gs.Other()), gs.Other());
        assert !Balanced(g) by {
          if gs == Left && ps == Left {} else if gs == Left {} else if ps == Left {} else {}
        }
        BalancedPlug(top, g);
      }
    }
  }

  /** A black leaf hung into a balanced tree unbalances it for good. */
  lemma {:induction false} BlackLeafUnbalances<N>(path: Path<N>, k: int, n: N)
    requires path.Down? && TopBlack(path) && PathBalanced(path, 0)
    ensures !Balanced(AdjustInsert(path, Bin(Black, Nil, k, n, Nil)))
  {
    var t := Bin(Black, Nil, k, n, Nil);
    if path.color == Black {
      BalancedPlug(path, t);
    } else {
      var Down(up, ps, pc, pk, pn, sib) := path;
      var Down(top, gs, gc, gk, gn, uncle) := up;
      if ColorOf(uncle) == Red {
        var p := Make(ps, Black, t, pk, pn, sib);
        assert !Balanced(p);
        ImbalanceStays(top, Make(gs, Red, p, gk, gn, uncle.(color := Black)));
      } else {
        var p := Make(ps, pc, t, pk, pn, sib);
        var p' := if ps != gs then Rotate(p, ps.Other()) else p;
        var g := SwapColor(Rotate(Make(gs, gc, p', gk, gn, uncle), gs.Other()), gs.Other());
        assert !Balanced(g) by {
          if gs == Left && ps == Left {} else if gs == Left {} else if ps == Left {} else {}
        }
        BalancedPlug(top, g);
      }
    }
  }

  /**
   insert never sets the colour of the node it is given.  The red-black rules survive exactly when
   that node is red or the tree is empty.
   */
  lemma InsertRedBlackIff<N>(t: Shape<N>, c: Color, k: int, n: N)
    requires RedBlack(t)
    ensures RedBlack(Insert(t, c, k, n)) <==> c == Red || t.Nil?
  {
    var q := Descend(Top, t, k);
    DescendPlug(Top, t, k);
    BalancedPlug(q, Nil);
    RedOkPlug(q, Nil);
    if t.Nil? {
    } else if c == Red {
      AdjustInsertRedBlack(q, Bin(c, Nil, k, n, Nil));
    } else {
      BlackLeafUnbalances(q, k, n);
    }
  }

  // ----- removal -----

  /** What adjustLeave needs of the tree: wherever it looks for the neighbour of a black node, there is one. */
  predicate Payable<N>(path: Path<N>, t: Shape<N>)
    decreases path
  {
    if path.Top? then t.Bin?
    else
      var Down(up, side, pc, pk, pn, nb) := path;
      || ColorOf(t) == Red
      || (&& nb.Bin?
          && (nb.color == Red ==> Child(nb, side).Bin?)
          && (CanClimb(path, t) ==> Payable(up, Climbed(path, t))))
  }

  /** adjustLeave paints the neighbour red and goes on with the parent. */
  predicate CanClimb<N>(path: Path<N>, t: Shape<N>) {
    && path.Down? && ColorOf(t) == Black && path.color == Black && path.other.Bin? && path.other.color == Black
    && ColorOf(path.other.left) == Black && ColorOf(path.other.right) == Black
  }

  function Climbed<N>(path: Path<N>, t: Shape<N>): Shape<N>
    requires CanClimb(path, t)
  {
    Make(path.side, Black, t, path.key, path.node, path.other.(color := Red))
  }

  /** `t` is one black node short of what its place needs, and everything else is in order. */
  predicate Short<N>(path: Path<N>, t: Shape<N>) {
    && Balanced(t) && RedOk(t)
    && PathBalanced(path, Height(t) + 1) && PathRedOk(path, Black) && TopBlack(path)
    && (path.Top? ==> t.Bin?)
  }

  /**
   The part of adjustLeave after a red neighbour has been rotated away: the neighbour `nb` of the
   short subtree `t` is black.  `side` is the side of `t`.
   */
  function FixNeighbor<N>(side: Side, pc: Color, t: Shape<N>, pk: int, pn: N, nb: Shape<N>): (r: Shape<N>)
    requires nb.Bin?
  {
    var far := side.Other();
    if pc == Red && ColorOf(nb.left) == Black && ColorOf(nb.right) == Black then
      SwapColor(Make(side, pc, t, pk, pn, nb), far)
    else
      var nb' := if ColorOf(Child(nb, side)) == Red && ColorOf(Child(nb, far)) == Black
                 then Rotate(SwapColor(nb, side), far) else nb;
      if ColorOf(Child(nb', far)) == Red then
        Rotate(SwapColor(Make(side, pc, t, pk, pn, PaintChild(nb', far, Black)), far), side)
      else
        Make(side, pc, t, pk, pn, nb')
  }

  /** The whole tree after adjustLeave on the root of `t` (possibly nil), which hangs at `path`. */
  function AdjustLeave<N>(path: Path<N>, t: Shape<N>): (r: Shape<N>)
    requires Payable(path, t)
    decreases path
  {
    if path.Top? then t.(color := Black)
    else if ColorOf(t) == Red then Plug(path, t.(color := Black))
    else
      var Down(up, side, pc, pk, pn, nb) := path;
      if nb.color == Red then
        Plug(up, Make(side, pc, FixNeighbor(side, Red, t, pk, pn, Child(nb, side)),
                      nb.key, nb.node, Child(nb, side.Other())))
      else if CanClimb(path, t) then
        AdjustLeave(up, Climbed(path, t))
      else
        Plug(up, FixNeighbor(side, pc, t, pk, pn, nb))
  }

  /** Painting the neighbour red moves the shortage one level up. */
  lemma StepUp<N>(path: Path<N>, t: Shape<N>)
    requires Short(path, t) && CanClimb(path, t)
    ensures Short(path.up, Climbed(path, t))
  {
    var m, nb := Climbed(path, t), path.other.(color := Red);
    assert Balanced(nb) && RedOk(nb) && Height(nb) == Height(t);
    if path.side == Left {
      assert Balanced(m) && RedOk(m) && Height(m) == Height(t) + 1;
    } else {
      assert Balanced(m) && RedOk(m) && Height(m) == Height(t) + 1;
    }
  }

  /** In a red-black tree that is short in one place the shortage can be paid. */
  lemma {:induction false} ShortPays<N>(path: Path<N>, t: Shape<N>)
    requires Short(path, t)
    ensures Payable(path, t)
    decreases path
  {
    if CanClimb(path, t) {
      StepUp(path, t);
      ShortPays(path.up, Climbed(path, t));
    }
  }

  lemma FixNeighborInOrder<N>(side: Side, pc: Color, t: Shape<N>, pk: int, pn: N, nb: Shape<N>)
    requires nb.Bin?
    ensures InOrder(FixNeighbor(side, pc, t, pk, pn, nb)) == InOrder(Make(side, pc, t, pk, pn, nb))
  {
    var far := side.Other();
    if pc == Red && ColorOf(nb.left) == Black && ColorOf(nb.right) == Black {
    } else {
      var turn := ColorOf(Child(nb, side)) == Red && ColorOf(Child(nb, far)) == Black;
      var nb' := if turn then Rotate(SwapColor(nb, side), far) else nb;
      if turn {
        RotateInOrder(SwapColor(nb, side), far);
        assert InOrder(SwapColor(nb, side)) == InOrder(nb);
      }
      if ColorOf(Child(nb', far)) == Red {
        var p := Make(side, pc, t, pk, pn, PaintChild(nb', far, Black));
        assert InOrder(PaintChild(nb', far, Black)) == InOrder(nb');
        assert InOrder(SwapColor(p, far)) == InOrder(p);
        RotateInOrder(SwapColor(p, far), side);
      }
    }
  }

  /** With a black neighbour one or two rotations pay the shortage back. */
  lemma FixNeighborBalanced<N>(side: Side, pc: Color, t: Shape<N>, pk: int, pn: N, nb: Shape<N>)
    requires Balanced(t) && RedOk(t) && ColorOf(t) == Black
    requires nb.Bin? && Balanced(nb) && RedOk(nb) && nb.color == Black && Height(nb) == Height(t) + 1
    requires pc == Red || ColorOf(nb.left) == Red || ColorOf(nb.right) == Red
    ensures var r := FixNeighbor(side, pc, t, pk, pn, nb);
            && Balanced(r) && RedOk(r)
            && Height(r) == Height(t) + 1 + (if pc == Black then 1 else 0)
            && (pc == Black ==> ColorOf(r) == Black)
  {
    var far := side.Other();
    var near, dist := Child(nb, side), Child(nb, far);
    var r := FixNeighbor(side, pc, t, pk, pn, nb);
    if ColorOf(near) == Black && ColorOf(dist) == Black {
      assert r == Make(side, Black, t, pk, pn, nb.(color := Red));
      if side == Left {} else {}
    } else if ColorOf(dist) == Red {
      assert r == Make(side, pc, Make(side, Black, t, pk, pn, near), nb.key, nb.node, dist.(color := Black)) by {
        if side == Left {} else {}
      }
      if side == Left {} else {}
    } else {
      assert r == Make(side, pc, Make(side, Black, t, pk, pn, Child(near, side)), near.key, near.node,
                       Make(side, Black, Child(near, far), nb.key, nb.node, dist)) by {
        if side == Left {} else {}
      }
      if side == Left {} else {}
    }
  }

  lemma {:induction false} AdjustLeaveInOrder<N>(path: Path<N>, t: Shape<N>)
    requires Payable(path, t)
    ensures InOrder(AdjustLeave(path, t)) == Before(path) + InOrder(t) + After(path)
    decreases path
  {
    if path.Top? {
    } else if ColorOf(t) == Red {
      InOrderPlug(path, t.(color := Black));
    } else {
      InOrderPlug(path, t);
      var Down(up, side, pc, pk, pn, nb) := path;
      if nb.color == Red {
        var near, dist := Child(nb, side), Child(nb, side.Other());
        FixNeighborInOrder(side, Red, t, pk, pn, near);
        var p := Make(side, pc, t, pk, pn, nb);
        var q := Make(side, pc, Make(side, Red, t, pk, pn, near), nb.key, nb.node, dist);
        assert q == Rotate(SwapColor(p, side.Other()), side);
        RotateInOrder(SwapColor(p, side.Other()), side);
        assert InOrder(SwapColor(p, side.Other())) == InOrder(p);
        var q' := Make(side, pc, FixNeighbor(side, Red, t, pk, pn, near), nb.key, nb.node, dist);
        assert InOrder(q') == InOrder(q);
        InOrderPlug(up, q');
        InOrderPlug(up, p);
      } else if CanClimb(path, t) {
        AdjustLeaveInOrder(up, Climbed(path, t));
        InOrderPlug(up, Make(side, pc, t, pk, pn, nb));
      } else {
        FixNeighborInOrder(side, pc, t, pk, pn, nb);
        InOrderPlug(up, FixNeighbor(side, pc, t, pk, pn, nb));
        InOrderPlug(up, Make(side, pc, t, pk, pn, nb));
      }
    }
  }

  /** adjustLeave restores all red-black rules. */
  lemma {:induction false} AdjustLeaveRedBlack<N>(path: Path<N>, t: Shape<N>)
    requires Short(path, t)
    ensures Payable(path, t) && RedBlack(AdjustLeave(path, t))
    decreases path
  {
    ShortPays(path, t);
    if path.Top? {
    } else if ColorOf(t) == Red {
      Replug(path, t.(color := Black));
    } else {
      var Down(up, side, pc, pk, pn, nb) := path;
      if nb.color == Red {
        var near, dist := Child(nb, side), Child(nb, side.Other());
        var f := FixNeighbor(side, Red, t, pk, pn, near);
        FixNeighborBalanced(side, Red, t, pk, pn, near);
        var q := Make(side, pc, f, nb.key, nb.node, dist);
        assert Balanced(q) && RedOk(q) && Height(q) == Height(t) + 2 by {
          if side == Left {} else {}
        }
        Replug(up, q);
      } else if CanClimb(path, t) {
        StepUp(path, t);
        AdjustLeaveRedBlack(up, Climbed(path, t));
      } else {
        var f := FixNeighbor(side, pc, t, pk, pn, nb);
        FixNeighborBalanced(side, pc, t, pk, pn, nb);
        if pc == Red { PathRedOkBlack(up, pc); }
        Replug(up, f);
      }
    }
  }

  lemma Replug<N>(path: Path<N>, t: Shape<N>)
    requires Balanced(t) && RedOk(t) && PathBalanced(path, Height(t)) && PathRedOk(path, ColorOf(t))
    requires TopBlack(path) && (path.Top? ==> ColorOf(t) == Black)
    ensures RedBlack(Plug(path, t))
  {
    BalancedPlug(path, t);
    RedOkPlug(path, t);
    if path.Down? { TopColorPlug(path, t); }
  }

  /** Take out a node of colour `c` whose place is `path` and whose only child, if any, is `t`. */
  function Splice<N>(path: Path<N>, c: Color, t: Shape<N>): (r: Shape<N>)
    requires c == Black && !(path.Top? && t.Nil?) ==> Payable(path, t)
  {
    if path.Top? && t.Nil? then Nil
    else if c == Black then AdjustLeave(path, t)
    else Plug(path, t)
  }

  /** The last node of a tree, with its left subtree. */
  function Last<N>(t: Shape<N>): (m: Shape<N>)
    requires t.Bin?
    ensures m.Bin? && m.right.Nil?
  {
    if t.right.Nil? then t else Last(t.right)
  }

  /** Where that node hangs. */
  function LastPath<N>(path: Path<N>, t: Shape<N>): (q: Path<N>)
    requires t.Bin?
    ensures path.Down? ==> q.Down?
    decreases t
  {
    if t.right.Nil? then path else LastPath(Down(path, Right, t.color, t.key, t.node, t.left), t.right)
  }

  /**
   The whole tree after leave on the root of `t`.  A node with two children first changes places
   and colours with the last node of its left subtree.
   */
  function Leave<N>(path: Path<N>, t: Shape<N>): (r: Shape<N>)
    requires t.Bin? && RedBlack(Plug(path, t))
  {
    if t.left.Nil? then
      SpliceAllowed(path, t.color, t.key, t.node, t.right, Right);
      Splice(path, t.color, t.right)
    else if t.right.Nil? then
      SpliceAllowed(path, t.color, t.key, t.node, t.left, Left);
      Splice(path, t.color, t.left)
    else
      var m := Last(t.left);
      var q := LastPath(Down(path, Left, t.color, m.key, m.node, t.right), t.left);
      SwapAllowed(path, t, Left);
      SpliceAllowed(q, m.color, t.key, t.node, m.left, Left);
      Splice(q, m.color, m.left)
  }

  lemma SpliceAllowed<N>(path: Path<N>, c: Color, k: int, n: N, t: Shape<N>, s: Side)
    requires RedBlack(Plug(path, Make(s, c, t, k, n, Nil)))
    ensures c == Black && !(path.Top? && t.Nil?) ==> Short(path, t) && Payable(path, t)
    ensures c == Red ==> t.Nil? && PathRedOk(path, Black) && PathBalanced(path, 0) && TopBlack(path) && path.Down?
  {
    var m := Make(s, c, t, k, n, Nil);
    BalancedPlug(path, m);
    RedOkPlug(path, m);
    PathRedOkBlack(path, c);
    if path.Down? { TopColorPlug(path, m); }
    if c == Black && !(path.Top? && t.Nil?) { ShortPays(path, t); }
  }

  lemma {:induction false} LastPlug<N>(path: Path<N>, t: Shape<N>)
    requires t.Bin?
    ensures Plug(LastPath(path, t), Last(t)) == Plug(path, t)
    decreases t
  {
    if t.right.Bin? {
      LastPlug(Down(path, Right, t.color, t.key, t.node, t.left), t.right);
    }
  }

  /** Exchanging two nodes together with their colours leaves the skeleton alone. */
  lemma SwapAllowed<N>(path: Path<N>, t: Shape<N>, s: Side)
    requires t.Bin? && t.left.Bin? && RedBlack(Plug(path, t))
    ensures var m := Last(t.left);
            var q := LastPath(Down(path, Left, t.color, m.key, m.node, t.right), t.left);
            RedBlack(Plug(q, Make(s, m.color, m.left, t.key, t.node, Nil)))
  {
    var m := Last(t.left);
    var base := Down(path, Left, t.color, m.key, m.node, t.right);
    var q := LastPath(base, t.left);
    LastPlug(base, t.left);
    BalancedPlug(path, t);
    BalancedPlug(path, t.(key := m.key, node := m.node));
    RedOkPlug(path, t);
    RedOkPlug(path, t.(key := m.key, node := m.node));
    var m' := Make(s, m.color, m.left, t.key, t.node, Nil);
    BalancedPlug(q, m);
    BalancedPlug(q, m');
    RedOkPlug(q, m);
    RedOkPlug(q, m');
    if path.Down? {
      TopColorPlug(path, t);
      TopColorPlug(path, t.(key := m.key, node := m.node));
    }
    TopColorPlug(q, m);
    TopColorPlug(q, m');
  }

  /** The tree with its last node, and what hangs below it, replaced by `u`. */
  function ReplaceLast<N>(t: Shape<N>, u: Shape<N>): Shape<N>
    requires t.Bin?
  {
    if t.right.Nil? then u else t.(right := ReplaceLast(t.right, u))
  }

  /** The parent of the last node. */
  function LastParent<N>(t: Shape<N>): N
    requires t.Bin? && t.right.Bin?
  {
    if t.right.right.Nil? then t.node else LastParent(t.right)
  }

  lemma {:induction false} LastNodes<N>(t: Shape<N>)
    requires t.Bin? && Apart(t)
    ensures var m := Last(t); m.node in Nodes(t) && Nodes(m) <= Nodes(t) && Apart(m)
    ensures t.right.Bin? ==> Nodes(Last(t)) <= Nodes(t.right) && t.node !in Nodes(Last(t)) && LastParent(t) in Nodes(t)
                             && LastParent(t) !in Nodes(Last(t))
  {
    if t.right.Bin? {
      LastNodes(t.right);
    }
  }

  lemma {:induction false} ReplaceLastApart<N>(t: Shape<N>, u: Shape<N>)
    requires t.Bin? && Apart(t) && Apart(u)
    requires Nodes(u) !! (Nodes(t) - Nodes(Last(t)))
    ensures Nodes(ReplaceLast(t, u)) == Nodes(t) - Nodes(Last(t)) + Nodes(u)
    ensures Apart(ReplaceLast(t, u))
  {
    LastNodes(t);
    if t.right.Bin? {
      ReplaceLastApart(t.right, u);
    }
  }

  lemma {:induction false} SpliceInOrder<N>(path: Path<N>, c: Color, t: Shape<N>)
    requires c == Black && !(path.Top? && t.Nil?) ==> Payable(path, t)
    ensures InOrder(Splice(path, c, t)) == Before(path) + InOrder(t) + After(path)
  {
    if path.Top? && t.Nil? {
    } else if c == Black {
      AdjustLeaveInOrder(path, t);
    } else {
      InOrderPlug(path, t);
    }
  }

  lemma Cut<E>(b: seq<E>, l: seq<E>, e: E, r: seq<E>, a: seq<E>)
    ensures b + (l + [e] + r) + a == (b + l) + [e] + (r + a)
    ensures b + l + ([e] + r + a) == (b + (l + [e])) + (r + a)
  {
  }

  lemma CutPair<E>(b: seq<E>, l: seq<E>, r: seq<E>, a: seq<E>)
    ensures l == [] ==> b + r + a == (b + l) + (r + a)
    ensures r == [] ==> b + l + a == (b + l) + (r + a)
  {
  }

  /** leave takes out exactly its own node and keeps everything else in order. */
  lemma LeaveInOrder<N>(path: Path<N>, t: Shape<N>)
    requires t.Bin? && RedBlack(Plug(path, t))
    ensures InOrder(Leave(path, t)) == (Before(path) + InOrder(t.left)) + (InOrder(t.right) + After(path))
    ensures InOrder(Plug(path, t))
            == (Before(path) + InOrder(t.left)) + [Entry(t.key, t.node)] + (InOrder(t.right) + After(path))
  {
    InOrderPlug(path, t);
    Cut(Before(path), InOrder(t.left), Entry(t.key, t.node), InOrder(t.right), After(path));
    CutPair(Before(path), InOrder(t.left), InOrder(t.right), After(path));
    if t.left.Nil? {
      SpliceAllowed(path, t.color, t.key, t.node, t.right, Right);
      SpliceInOrder(path, t.color, t.right);
    } else if t.right.Nil? {
      SpliceAllowed(path, t.color, t.key, t.node, t.left, Left);
      SpliceInOrder(path, t.color, t.left);
    } else {
      SwappedInOrder(path, t);
    }
  }

  lemma SwappedInOrder<N>(path: Path<N>, t: Shape<N>)
    requires t.Bin? && t.left.Bin? && t.right.Bin? && RedBlack(Plug(path, t))
    ensures InOrder(Leave(path, t)) == (Before(path) + InOrder(t.left)) + (InOrder(t.right) + After(path))
  {
    var m := Last(t.left);
    var base := Down(path, Left, t.color, m.key, m.node, t.right);
    var q := LastPath(base, t.left);
    SwapAllowed(path, t, Left);
    SpliceAllowed(q, m.color, t.key, t.node, m.left, Left);
    SpliceInOrder(q, m.color, m.left);
    LastOrder(base, t.left);
    var ls := InOrder(t.left);
    Cut(Before(path), ls[..|ls| - 1], Entry(m.key, m.node), InOrder(t.right), After(path));
  }

  /** The last node is the last entry; taking it out of the order leaves the rest. */
  lemma {:induction false} LastOrder<N>(path: Path<N>, t: Shape<N>)
    requires t.Bin?
    ensures var q := LastPath(path, t); var m := Last(t);
            && |InOrder(t)| > 0
            && InOrder(t) == InOrder(t)[..|InOrder(t)| - 1] + [Entry(m.key, m.node)]
            && Before(q) + InOrder(m.left) == Before(path) + InOrder(t)[..|InOrder(t)| - 1]
            && After(q) == After(path)
    decreases t
  {
    var m := Last(t);
    var es := InOrder(t);
    if t.right.Nil? {
      assert InOrder(t.right) == [];
      assert es == InOrder(t.left) + [Entry(t.key, t.node)];
    } else {
      var down := Down(path, Right, t.color, t.key, t.node, t.left);
      LastOrder(down, t.right);
      var rs := InOrder(t.right);
      var pre := InOrder(t.left) + [Entry(t.key, t.node)];
      assert es == pre + rs;
      assert es[..|es| - 1] == pre + rs[..|rs| - 1];
      assert Before(down) == Before(path) + pre;
    }
  }

  /** leave keeps all red-black rules. */
  lemma LeaveRedBlack<N>(path: Path<N>, t: Shape<N>)
    requires t.Bin? && RedBlack(Plug(path, t))
    ensures RedBlack(Leave(path, t))
  {
    if t.left.Nil? {
      SpliceAllowed(path, t.color, t.key, t.node, t.right, Right);
      SpliceRedBlack(path, t.color, t.key, t.node, t.right, Right);
    } else if t.right.Nil? {
      SpliceAllowed(path, t.color, t.key, t.node, t.left, Left);
      SpliceRedBlack(path, t.color, t.key, t.node, t.left, Left);
    } else {
      var m := Last(t.left);
      var q := LastPath(Down(path, Left, t.color, m.key, m.node, t.right), t.left);
      SwapAllowed(path, t, Left);
      SpliceAllowed(q, m.color, t.key, t.node, m.left, Left);
      SpliceRedBlack(q, m.color, t.key, t.node, m.left, Left);
    }
  }

  lemma SpliceRedBlack<N>(path: Path<N>, c: Color, k: int, n: N, t: Shape<N>, s: Side)
    requires RedBlack(Plug(path, Make(s, c, t, k, n, Nil)))
    ensures c == Black && !(path.Top? && t.Nil?) ==> Payable(path, t)
    ensures RedBlack(Splice(path, c, t))
  {
    SpliceAllowed(path, c, k, n, t, s);
    if path.Top? && t.Nil? {
    } else if c == Black {
      AdjustLeaveRedBlack(path, t);
    } else {
      Replug(path, t);
    }
  }

  // ----- removal and equal keys -----

  /** The key comparison of attach finds the side that the hole of `path` is on. */
  predicate FitsKey<N>(path: Path<N>, k: int) {
    path.Down? ==> (k < path.key <==> path.side == Left)
  }

  /** All key comparisons that leave makes find the right side. */
  predicate KeysFit<N>(path: Path<N>, t: Shape<N>)
    requires t.Bin?
  {
    if t.left.Nil? then (t.right.Bin? ==> FitsKey(path, t.right.key))
    else if t.right.Nil? then FitsKey(path, t.left.key)
    else
      var m := Last(t.left);
      var q := LastPath(Down(path, Left, t.color, m.key, m.node, t.right), t.left);
      && FitsKey(path, m.key)
      && (t.left.right.Bin? ==> FitsKey(q, t.key))
      && (m.left.Bin? ==> FitsKey(q, m.left.key))
  }

  lemma {:induction false} LastPathBottom<N>(p: Path<N>, q: Path<N>, t: Shape<N>)
    requires t.Bin? && t.right.Bin?
    ensures LastPath(p, t).Down? && LastPath(q, t).Down? && LastPath(p, t).side == Right && LastPath(q, t).side == Right
    ensures LastPath(p, t).key == LastPath(q, t).key && LastPath(p, t).node == LastPath(q, t).node
    decreases t
  {
    if t.right.right.Bin? {
      LastPathBottom(Down(p, Right, t.color, t.key, t.node, t.left), Down(q, Right, t.color, t.key, t.node, t.left),
          t.right);
    }
  }

  /** Where a key comparison goes wrong: the incoming node equals the parent whose left side is free. */
  predicate LeftTie<N>(path: Path<N>, k: int) {
    path.Down? && path.side == Left && k == path.key
  }

  /**
   The positions that leave cannot handle: the node that takes over the place equals the parent and
   belongs on its left, or the left child takes over while its own left child equals it.
   */
  predicate Clash<N>(path: Path<N>, t: Shape<N>)
    requires t.Bin?
  {
    if t.left.Nil? then t.right.Bin? && LeftTie(path, t.right.key)
    else if t.right.Nil? then LeftTie(path, t.left.key)
    else
      || LeftTie(path, Last(t.left).key)
      || (t.left.right.Nil? && t.left.left.Bin? && t.left.left.key == t.left.key)
  }

  lemma FitsIff<N>(path: Path<N>, t: Shape<N>, i: nat)
    requires i < |InOrder(t)| && Sorted(Before(path) + InOrder(t) + After(path))
    ensures FitsKey(path, InOrder(t)[i].key) <==> !LeftTie(path, InOrder(t)[i].key)
  {
    if path.Down? {
      var es := Before(path) + InOrder(t) + After(path);
      var j := |Before(path)| + i;
      assert es[j] == InOrder(t)[i];
      if path.side == Left {
        var g := |Before(path)| + |InOrder(t)|;
        assert es[g] == After(path)[0] == Entry(path.key, path.node);
      } else {
        var g := |Before(path)| - 1;
        assert es[g] == Before(path)[g] == Entry(path.key, path.node);
      }
    }
  }

  lemma {:induction false} LastParentOrder<N>(p: Path<N>, t: Shape<N>)
    requires t.Bin? && t.right.Bin? && Sorted(InOrder(t))
    ensures var q := LastPath(p, t); var m := Last(t);
            && q.key <= m.key && (m.left.Bin? ==> q.key <= m.left.key)
    decreases t
  {
    var rs := InOrder(t.right);
    SortedParts(InOrder(t.left), Entry(t.key, t.node), rs);
    if t.right.right.Nil? {
      var m := t.right;
      assert InOrder(m.right) == [];
      assert rs == InOrder(m.left) + [Entry(m.key, m.node)];
      assert rs[|rs| - 1] == Entry(m.key, m.node);
      if m.left.Bin? {
        assert InOrder(m.left)[|InOrder(m.left.left)|] == Entry(m.left.key, m.left.node);
        assert rs[|InOrder(m.left.left)|] == Entry(m.left.key, m.left.node);
      }
    } else {
      LastParentOrder(Down(p, Right, t.color, t.key, t.node, t.left), t.right);
    }
  }

  /** In a weakly ordered tree leave takes the right side everywhere exactly when there is no clash. */
  lemma KeysFitIff<N>(path: Path<N>, t: Shape<N>)
    requires t.Bin? && Sorted(InOrder(Plug(path, t)))
    ensures KeysFit(path, t) <==> !Clash(path, t)
  {
    InOrderPlug(path, t);
    var es := InOrder(t);
    SortedInner(Before(path), es, After(path));
    SortedParts(InOrder(t.left), Entry(t.key, t.node), InOrder(t.right));
    if t.left.Nil? {
      if t.right.Bin? {
        RootIndex(t.right);
        assert es == [Entry(t.key, t.node)] + InOrder(t.right);
        FitsIff(path, t, 1 + |InOrder(t.right.left)|);
      }
    } else if t.right.Nil? {
      RootIndex(t.left);
      assert es[|InOrder(t.left.left)|] == InOrder(t.left)[|InOrder(t.left.left)|];
      FitsIff(path, t, |InOrder(t.left.left)|);
    } else {
      KeysFitSwap(path, t);
    }
  }

  lemma RootIndex<N>(t: Shape<N>)
    requires t.Bin?
    ensures |InOrder(t.left)| < |InOrder(t)| && InOrder(t)[|InOrder(t.left)|] == Entry(t.key, t.node)
  {
  }

  lemma SortedInner<N>(a: seq<Entry<N>>, b: seq<Entry<N>>, c: seq<Entry<N>>)
    requires Sorted(a + b + c)
    ensures Sorted(b)
  {
    var s := a + b + c;
    assert forall i :: 0 <= i < |b| ==> b[i] == s[|a| + i];
  }

  lemma KeysFitSwap<N>(path: Path<N>, t: Shape<N>)
    requires t.Bin? && t.left.Bin? && t.right.Bin?
    requires Sorted(Before(path) + InOrder(t) + After(path)) && Sorted(InOrder(t)) && Sorted(InOrder(t.left))
    requires AllAtMost(InOrder(t.left), t.key)
    ensures KeysFit(path, t) <==> !Clash(path, t)
  {
    var l, m := t.left, Last(t.left);
    var ls := InOrder(l);
    LastOrder(Top, l);
    assert ls[|ls| - 1] == Entry(m.key, m.node);
    assert InOrder(t)[|ls| - 1] == ls[|ls| - 1];
    FitsIff(path, t, |ls| - 1);
    var base := Down(path, Left, t.color, m.key, m.node, t.right);
    if l.right.Bin? {
      LastParentOrder(base, l);
      LastPathBottom(base, base, l);
    } else {
      assert m == l && LastPath(base, l) == base;
      if l.left.Bin? {
        RootIndex(l.left);
        assert ls == InOrder(l.left) + [Entry(l.key, l.node)] + [];
        SortedParts(InOrder(l.left), Entry(l.key, l.node), []);
      }
    }
  }

  ghost predicate StrictlySorted<N>(es: seq<Entry<N>>) {
    forall i, j :: 0 <= i < j < |es| ==> es[i].key < es[j].key
  }

  /** Pairwise distinct keys rule every clash out. */
  lemma DistinctKeysFit<N>(path: Path<N>, t: Shape<N>)
    requires t.Bin? && StrictlySorted(InOrder(Plug(path, t)))
    ensures KeysFit(path, t)
  {
    hide KeysFit, Clash;
    InOrderPlug(path, t);
    KeysFitIff(path, t);
    DistinctNoClash(path, t);
  }

  lemma DistinctNoClash<N>(path: Path<N>, t: Shape<N>)
    requires t.Bin? && StrictlySorted(Before(path) + InOrder(t) + After(path))
    ensures !Clash(path, t)
  {
    hide StrictlySorted;
    var l, r, es := t.left, t.right, InOrder(t);
    if l.Nil? {
      if r.Bin? {
        RootIndex(r);
        assert es == [Entry(t.key, t.node)] + InOrder(r);
        NoTie(path, t, 1 + |InOrder(r.left)|);
      }
    } else if r.Nil? {
      RootIndex(l);
      assert es[|InOrder(l.left)|] == InOrder(l)[|InOrder(l.left)|];
      NoTie(path, t, |InOrder(l.left)|);
    } else {
      LastOrder(Top, l);
      assert es[|InOrder(l)| - 1] == InOrder(l)[|InOrder(l)| - 1];
      NoTie(path, t, |InOrder(l)| - 1);
      if l.right.Nil? && l.left.Bin? {
        NoInnerTie(path, t);
      }
    }
  }

  lemma NoInnerTie<N>(path: Path<N>, t: Shape<N>)
    requires t.Bin? && t.left.Bin? && t.left.left.Bin?
    requires StrictlySorted(Before(path) + InOrder(t) + After(path))
    ensures t.left.left.key != t.left.key
  {
    var l := t.left;
    RootIndex(l);
    RootIndex(l.left);
    var i, j := |InOrder(l.left.left)|, |InOrder(l.left)|;
    assert InOrder(l)[i] == InOrder(l.left)[i];
    assert InOrder(t)[i] == InOrder(l)[i] && InOrder(t)[j] == InOrder(l)[j];
    var all := Before(path) + InOrder(t) + After(path);
    assert all[|Before(path)| + i] == InOrder(t)[i] && all[|Before(path)| + j] == InOrder(t)[j];
  }

  lemma NoTie<N>(path: Path<N>, t: Shape<N>, i: nat)
    requires i < |InOrder(t)| && StrictlySorted(Before(path) + InOrder(t) + After(path))
    ensures !LeftTie(path, InOrder(t)[i].key)
  {
    if path.Down? && path.side == Left {
      var es := Before(path) + InOrder(t) + After(path);
      assert es[|Before(path)| + i] == InOrder(t)[i];
      assert es[|Before(path)| + |InOrder(t)|] == After(path)[0] == Entry(path.key, path.node);
    }
  }

  // ----- reading -----

  function First<N>(t: Shape<N>): (m: Shape<N>)
    requires t.Bin?
    ensures m.Bin? && m.left.Nil?
  {
    if t.left.Nil? then t else First(t.left)
  }

  lemma {:induction false} FirstInOrder<N>(t: Shape<N>)
    requires t.Bin?
    ensures |InOrder(t)| > 0 && InOrder(t)[0] == Entry(First(t).key, First(t).node)
  {
    if t.left.Bin? {
      FirstInOrder(t.left);
    }
  }

  /** The node that lookup stops at. */
  function Find<N>(t: Shape<N>, k: int): (r: Shape<N>)
    ensures r.Bin? ==> r.key == k
  {
    match t
    case Nil => Nil
    case Bin(_, l, tk, _, r) => if tk == k then t else if k < tk then Find(l, k) else Find(r, k)
  }

  /** lookup finds a node exactly when its key is in the tree. */
  lemma {:induction false} FindComplete<N>(t: Shape<N>, k: int)
    requires Sorted(InOrder(t))
    ensures Find(t, k).Bin? <==> exists e :: e in InOrder(t) && e.key == k
    ensures Find(t, k).Bin? ==> Entry(k, Find(t, k).node) in InOrder(t)
  {
    match t
    case Nil =>
    case Bin(_, l, tk, tn, r) =>
      SortedParts(InOrder(l), Entry(tk, tn), InOrder(r));
      FindComplete(l, k);
      FindComplete(r, k);
      assert InOrder(t)[|InOrder(l)|] == Entry(tk, tn);
      assert forall e :: e in InOrder(t) <==> e in InOrder(l) || e == Entry(tk, tn) || e in InOrder(r);
      forall e | e in InOrder(l) ensures e.key <= tk {}
      forall e | e in InOrder(r) ensures tk <= e.key {}
  }
}
