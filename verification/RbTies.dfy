/**
 leave of components/stdlib/coslib/rbtree.hpp when keys repeat.  attach(node) chooses the side by comparing
 keys, and an equal key goes to the right: a node that should take a left place lands over the link to the
 right subtree of the parent, which is then no longer in the tree.
 */
module RbTies {
  import opened RbShape

  // ----- where the node lands -----

  /** The place below the same parent when the other subtree is forgotten. */
  function Crossed<N>(path: Path<N>): Path<N>
    requires path.Down?
  {
    Down(path.up, Right, path.color, path.key, path.node, Nil)
  }

  /** Where attach puts a node with key `k` that is to take the place `path`. */
  function Landing<N>(path: Path<N>, k: int): Path<N> {
    if LeftTie(path, k) then Crossed(path) else path
  }

  /** The place of a node with two children after it has changed places with the last node of its left subtree. */
  function SwapPath<N>(path: Path<N>, t: Shape<N>): Path<N>
    requires t.Bin? && t.left.Bin?
  {
    var m := Last(t.left);
    LastPath(Down(path, Left, t.color, m.key, m.node, t.right), t.left)
  }

  predicate TwoChildren<N>(t: Shape<N>) {
    t.Bin? && t.left.Bin? && t.right.Bin?
  }

  /** The only subtree of the node when it is taken out. */
  function OutChild<N>(t: Shape<N>): Shape<N>
    requires t.Bin?
  {
    if t.left.Nil? then t.right else if t.right.Nil? then t.left else Last(t.left).left
  }

  /** Its colour by then. */
  function OutColor<N>(t: Shape<N>): Color
    requires t.Bin?
  {
    if TwoChildren(t) then Last(t.left).color else t.color
  }

  /** Its place by then. */
  function OutPlace<N>(path: Path<N>, t: Shape<N>): Path<N>
    requires t.Bin?
  {
    if TwoChildren(t) then SwapPath(Landing(path, Last(t.left).key), t) else path
  }

  /** The place its subtree takes. */
  function OutPath<N>(path: Path<N>, t: Shape<N>): Path<N>
    requires t.Bin?
  {
    var u := OutChild(t);
    if u.Bin? then Landing(OutPlace(path, t), u.key) else OutPlace(path, t)
  }

  /** adjustLeave finds a neighbour wherever it looks for one. */
  predicate Survives<N>(path: Path<N>, t: Shape<N>)
    requires t.Bin?
  {
    OutColor(t) == Black && !(OutPath(path, t).Top? && OutChild(t).Nil?) ==> Payable(OutPath(path, t), OutChild(t))
  }

  /** The whole tree after leave on the root of `t`, whatever the keys are. */
  function LeaveTied<N>(path: Path<N>, t: Shape<N>): (r: Shape<N>)
    requires t.Bin? && Survives(path, t)
  {
    Splice(OutPath(path, t), OutColor(t), OutChild(t))
  }

  /** Where all comparisons find the right side this is Leave. */
  lemma FitLeaves<N>(path: Path<N>, t: Shape<N>)
    requires t.Bin? && RedBlack(Plug(path, t)) && KeysFit(path, t)
    ensures Survives(path, t) && LeaveTied(path, t) == Leave(path, t)
  {
    hide RedBlack;
    if t.left.Nil? {
      SpliceAllowed(path, t.color, t.key, t.node, t.right, Right);
    } else if t.right.Nil? {
      SpliceAllowed(path, t.color, t.key, t.node, t.left, Left);
    } else {
      var m := Last(t.left);
      SwapAllowed(path, t, Left);
      SpliceAllowed(SwapPath(path, t), m.color, t.key, t.node, m.left, Left);
    }
  }

  // ----- what is lost -----

  /** The number of entries beside a place. */
  function Beside<N>(path: Path<N>): nat {
    |Before(path)| + |After(path)|
  }

  lemma CrossedBeside<N>(path: Path<N>)
    requires path.Down? && path.side == Left
    ensures Beside(path) == Beside(Crossed(path)) + |InOrder(path.other)|
  {
  }

  lemma {:induction false} NonEmpty<N>(t: Shape<N>)
    requires t.Bin?
    ensures |InOrder(t)| >= 1
  {
  }

  /** Beside the place that a node of a red-black tree loses by a tie there was something. */
  lemma SiblingThere<N>(path: Path<N>, t: Shape<N>)
    requires t.Bin? && (t.left.Bin? || t.right.Bin?) && path.Down? && RedBlack(Plug(path, t))
    ensures path.other.Bin?
  {
    BalancedPlug(path, t);
    RedOkPlug(path, t);
  }

  lemma LandingBeside<N>(path: Path<N>, t: Shape<N>, k: int)
    requires t.Bin? && (t.left.Bin? || t.right.Bin?) && RedBlack(Plug(path, t))
    ensures Beside(Landing(path, k)) <= Beside(path)
    ensures Beside(Landing(path, k)) == Beside(path) <==> !LeftTie(path, k)
  {
    hide RedBlack;
    if LeftTie(path, k) {
      SiblingThere(path, t);
      CrossedBeside(path);
      NonEmpty(path.other);
    }
  }

  /** Entries beside the lowered place, and its subtree: everything but the node itself. */
  lemma SwapBeside<N>(path: Path<N>, t: Shape<N>)
    requires TwoChildren(t)
    ensures Beside(SwapPath(path, t)) + |InOrder(Last(t.left).left)| == Beside(path) + |InOrder(t)| - 1
  {
    var m := Last(t.left);
    LastOrder(Down(path, Left, t.color, m.key, m.node, t.right), t.left);
  }

  /** leave takes out exactly one entry when all comparisons find the right side, and more otherwise. */
  lemma TiedLoses<N>(path: Path<N>, t: Shape<N>)
    requires t.Bin? && RedBlack(Plug(path, t)) && Sorted(InOrder(Plug(path, t))) && Survives(path, t)
    ensures |InOrder(LeaveTied(path, t))| <= |InOrder(Plug(path, t))| - 1
    ensures |InOrder(LeaveTied(path, t))| == |InOrder(Plug(path, t))| - 1 <==> KeysFit(path, t)
  {
    hide RedBlack, Sorted, KeysFit, Payable;
    KeysFitIff(path, t);
    InOrderPlug(path, t);
    SpliceInOrder(OutPath(path, t), OutColor(t), OutChild(t));
    if TwoChildren(t) {
      var m := Last(t.left);
      var p := Landing(path, m.key);
      LandingBeside(path, t, m.key);
      SwapBeside(p, t);
      InnerBeside(p, t);
    } else if OutChild(t).Bin? {
      LandingBeside(path, t, OutChild(t).key);
    }
  }

  /** After the exchange only the left child that has a left child of its own can tie. */
  lemma InnerBeside<N>(p: Path<N>, t: Shape<N>)
    requires TwoChildren(t)
    ensures var u, q := Last(t.left).left, SwapPath(p, t);
            u.Bin? ==>
              && Beside(Landing(q, u.key)) <= Beside(q)
              && (Beside(Landing(q, u.key)) == Beside(q) <==> !(t.left.right.Nil? && u.key == t.left.key))
  {
    var m := Last(t.left);
    var u, q := m.left, SwapPath(p, t);
    if t.left.right.Bin? {
      var base := Down(p, Left, t.color, m.key, m.node, t.right);
      LastPathBottom(base, base, t.left);
    } else if u.Bin? && u.key == t.left.key {
      CrossedBeside(q);
      NonEmpty(t.right);
    }
  }

  ghost predicate Free<N>(es: seq<Entry<N>>, n: N) {
    forall e :: e in es ==> e.node != n
  }

  lemma LandingFree<N>(path: Path<N>, k: int, n: N)
    requires Free(Before(path), n) && Free(After(path), n)
    ensures Free(Before(Landing(path, k)), n) && Free(After(Landing(path, k)), n)
  {
    if LeftTie(path, k) {
      var up, g := path.up, Entry(path.key, path.node);
      assert After(path) == [g] + InOrder(path.other) + After(up);
      assert After(path)[0] == g;
      assert Before(Crossed(path)) == Before(up) + [] + [g];
    }
  }

  lemma SwapFree<N>(p: Path<N>, t: Shape<N>, n: N)
    requires TwoChildren(t) && Free(Before(p), n) && Free(After(p), n) && Free(InOrder(t.left), n)
    requires Free(InOrder(t.right), n)
    ensures var q := SwapPath(p, t); Free(Before(q), n) && Free(After(q), n) && Free(InOrder(Last(t.left).left), n)
  {
    var m := Last(t.left);
    var base, ls := Down(p, Left, t.color, m.key, m.node, t.right), InOrder(t.left);
    LastOrder(base, t.left);
    assert ls[|ls| - 1] == Entry(m.key, m.node);
    assert After(base) == [Entry(m.key, m.node)] + InOrder(t.right) + After(p);
    var q := SwapPath(p, t);
    var es := Before(q) + InOrder(m.left);
    assert es == Before(p) + ls[..|ls| - 1];
    assert forall e :: e in ls[..|ls| - 1] ==> e in ls;
    assert Free(es, n);
    forall e | e in Before(q) ensures e.node != n { assert e in es; }
    forall e | e in InOrder(m.left) ensures e.node != n { assert e in es; }
  }

  /** The node itself is gone in any case. */
  lemma OutGone<N>(path: Path<N>, t: Shape<N>, n: N)
    requires t.Bin? && Survives(path, t)
    requires Free(Before(path), n) && Free(After(path), n) && Free(InOrder(t.left), n) && Free(InOrder(t.right), n)
    ensures Free(InOrder(LeaveTied(path, t)), n)
  {
    hide Free, Payable;
    SpliceInOrder(OutPath(path, t), OutColor(t), OutChild(t));
    if TwoChildren(t) {
      LandingFree(path, Last(t.left).key, n);
      SwapFree(Landing(path, Last(t.left).key), t, n);
    }
    if OutChild(t).Bin? { LandingFree(OutPlace(path, t), OutChild(t).key, n); }
    var a, b, c := Before(OutPath(path, t)), InOrder(OutChild(t)), After(OutPath(path, t));
    FreeJoin(a, b, c, n);
  }

  lemma FreeJoin<N>(a: seq<Entry<N>>, b: seq<Entry<N>>, c: seq<Entry<N>>, n: N)
    requires Free(a, n) && Free(b, n) && Free(c, n)
    ensures Free(a + b + c, n)
  {
  }

  // ----- where adjustLeave fails -----

  /** How far adjustLeave climbs. */
  function Summit<N>(path: Path<N>, t: Shape<N>): (r: (Path<N>, Shape<N>))
    decreases path
  {
    if CanClimb(path, t) then Summit(path.up, Climbed(path, t)) else (path, t)
  }

  /** The path `q` with `p` instead of its top. */
  function Graft<N>(q: Path<N>, p: Path<N>): Path<N> {
    if q.Top? then p else Down(Graft(q.up, p), q.side, q.color, q.key, q.node, q.other)
  }

  lemma {:induction false} LastPathGraft<N>(q: Path<N>, p: Path<N>, t: Shape<N>)
    requires t.Bin?
    ensures LastPath(Graft(q, p), t) == Graft(LastPath(q, t), p)
    decreases t
  {
    if t.right.Bin? {
      LastPathGraft(Down(q, Right, t.color, t.key, t.node, t.left), p, t.right);
    }
  }

  lemma SwapPathGraft<N>(p: Path<N>, t: Shape<N>)
    requires t.Bin? && t.left.Bin?
    ensures SwapPath(p, t) == Graft(SwapPath(Top, t), p)
  {
    var m := Last(t.left);
    LastPathGraft(Down(Top, Left, t.color, m.key, m.node, t.right), p, t.left);
  }

  /** A shortage that could be paid with `p` above cannot be paid with `p'` above: it climbs up to `p'`. */
  lemma {:induction false} ClimbsOut<N>(q: Path<N>, p: Path<N>, p': Path<N>, t: Shape<N>)
    requires Payable(Graft(q, p), t) && !Payable(Graft(q, p'), t)
    requires ColorOf(t) == Black && p'.Down? && p'.other.Nil?
    ensures Summit(Graft(q, p'), t).0 == p' && ColorOf(Summit(Graft(q, p'), t).1) == Black
    decreases q
  {
    if q.Down? {
      assert CanClimb(Graft(q, p), t) <==> CanClimb(Graft(q, p'), t);
      ClimbsOut(q.up, p, p', Climbed(Graft(q, p'), t));
    }
  }

  /**
   The one way in which leave fails: the node that takes over ties with the parent, the lowered node is a
   black leaf, and the shortage climbs to that parent, on whose left there is nothing any more.
   */
  lemma FailsWhere<N>(path: Path<N>, t: Shape<N>)
    requires t.Bin? && RedBlack(Plug(path, t)) && !Survives(path, t)
    ensures TwoChildren(t) && LeftTie(path, Last(t.left).key) && OutColor(t) == Black && OutChild(t).Nil?
    ensures Summit(OutPath(path, t), Nil).0 == Crossed(path) && ColorOf(Summit(OutPath(path, t), Nil).1) == Black
  {
    hide RedBlack;
    OutRed(path, t);
    if TwoChildren(t) {
      var m := Last(t.left);
      SwapAllowed(path, t, Left);
      SpliceAllowed(SwapPath(path, t), m.color, t.key, t.node, m.left, Left);
      SwapPathGraft(path, t);
      if LeftTie(path, m.key) {
        SwapPathGraft(Crossed(path), t);
        ClimbsOut(SwapPath(Top, t), path, Crossed(path), Nil);
      }
    } else {
      SpliceAllowed(path, t.color, t.key, t.node, OutChild(t), if t.left.Nil? then Right else Left);
    }
  }

  /** The only child of a node of a red-black tree is red, so taking the node out costs no climb. */
  lemma OutRed<N>(path: Path<N>, t: Shape<N>)
    requires t.Bin? && RedBlack(Plug(path, t))
    ensures OutChild(t).Bin? ==> OutChild(t).color == Red && OutColor(t) == Black
    ensures OutChild(t).Bin? ==> Survives(path, t)
  {
    BalancedPlug(path, t);
    RedOkPlug(path, t);
    if TwoChildren(t) {
      LastFine(t.left);
      OnlyRed(Last(t.left));
    } else {
      OnlyRed(t);
    }
  }

  lemma {:induction false} LastFine<N>(t: Shape<N>)
    requires t.Bin? && Balanced(t) && RedOk(t)
    ensures Balanced(Last(t)) && RedOk(Last(t))
  {
    if t.right.Bin? { LastFine(t.right); }
  }

  lemma OnlyRed<N>(t: Shape<N>)
    requires t.Bin? && Balanced(t) && RedOk(t) && (t.left.Nil? || t.right.Nil?)
    ensures var u := if t.left.Nil? then t.right else t.left; u.Bin? ==> u.color == Red && t.color == Black
  {
  }

  // ----- the smallest examples -----

  lemma LeafFacts(c: Color, k: int, n: int)
    ensures var t := Bin(c, Nil, k, n, Nil);
            Balanced(t) && RedOk(t) && Height(t) == (if c == Black then 1 else 0) && InOrder(t) == [Entry(k, n)]
  {
  }

  /** Four nodes with one key: taking out `x` also loses `s`. */
  lemma TieExample(k: int, g: int, s: int, x: int, y: int)
    ensures var path := Down(Top, Left, Black, k, g, Bin(Black, Nil, k, s, Nil));
            var t := Bin(Black, Bin(Red, Nil, k, y, Nil), k, x, Nil);
            && RedBlack(Plug(path, t)) && Sorted(InOrder(Plug(path, t))) && !KeysFit(path, t)
            && InOrder(Plug(path, t)) == [Entry(k, y), Entry(k, x), Entry(k, g), Entry(k, s)]
            && Survives(path, t) && InOrder(LeaveTied(path, t)) == [Entry(k, g), Entry(k, y)]
  {
    var sib, c := Bin(Black, Nil, k, s, Nil), Bin(Red, Nil, k, y, Nil);
    LeafFacts(Black, k, s);
    LeafFacts(Red, k, y);
    LeafFacts(Black, k, y);
    var t := Bin(Black, c, k, x, Nil);
    assert Balanced(t) && RedOk(t) && Height(t) == 1 && InOrder(t) == [Entry(k, y), Entry(k, x)];
    var path := Down(Top, Left, Black, k, g, sib);
    assert Plug(path, t) == Plug(path.up, Bin(Black, t, k, g, sib));
    assert InOrder(Plug(path, t)) == [Entry(k, y), Entry(k, x), Entry(k, g), Entry(k, s)];
    assert OutPath(path, t) == Crossed(path);
    assert LeaveTied(path, t) == Plug(Top, Bin(Black, Nil, k, g, c.(color := Black)));
  }

  /** Seven black nodes with one key: taking out `x` fails. */
  lemma FailExample(k: int, g: int, x: int, l: int, r: int, s: int, sl: int, sr: int)
    ensures var path := Down(Top, Left, Black, k, g,
                             Bin(Black, Bin(Black, Nil, k, sl, Nil), k, s, Bin(Black, Nil, k, sr, Nil)));
            var t := Bin(Black, Bin(Black, Nil, k, l, Nil), k, x, Bin(Black, Nil, k, r, Nil));
            && RedBlack(Plug(path, t)) && Sorted(InOrder(Plug(path, t))) && !Survives(path, t)
  {
    LeafFacts(Black, k, l);
    LeafFacts(Black, k, r);
    LeafFacts(Black, k, sl);
    LeafFacts(Black, k, sr);
    var bl, br := Bin(Black, Nil, k, l, Nil), Bin(Black, Nil, k, r, Nil);
    var sib := Bin(Black, Bin(Black, Nil, k, sl, Nil), k, s, Bin(Black, Nil, k, sr, Nil));
    var t := Bin(Black, bl, k, x, br);
    var path := Down(Top, Left, Black, k, g, sib);
    assert Balanced(t) && RedOk(t) && Height(t) == 2 && InOrder(t) == [Entry(k, l), Entry(k, x), Entry(k, r)];
    assert Balanced(sib) && RedOk(sib) && Height(sib) == 2 && InOrder(sib) == [Entry(k, sl), Entry(k, s), Entry(k, sr)];
    assert Plug(path, t) == Plug(Top, Bin(Black, t, k, g, sib));
    var q := Down(Crossed(path), Left, Black, k, l, br);
    assert OutPath(path, t) == q;
    assert CanClimb(q, Nil) && !Payable(Crossed(path), Climbed(q, Nil));
  }
}
