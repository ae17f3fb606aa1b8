/**
 The intrusive red-black tree of components/stdlib/coslib/rbtree.hpp.  All node records live in one
 memory indexed by address; the methods update links, parents and colours there in place, one field
 at a time, and reach every record through an address that must be mapped.  Each method is proved
 against the function of module RbShape that says what it computes.
 */
module RbTree {
  import opened RbShape
  import opened RbTies

  type Ref = int
  const NULL: Ref := 0
  const NIL: Ref := 1     // the shared sentinel

  datatype Cell = Cell(key: int, color: Color, parent: Ref, left: Ref, right: Ref, attached: bool) {
    function Link(s: Side): Ref {
      if s == Left then left else right
    }

    function With(s: Side, n: Ref): Cell {
      if s == Left then this.(left := n) else this.(right := n)
    }
  }

  type Mem = map<Ref, Cell>

  // ----- the links as a value -----

  ghost predicate Hangs(mem: Mem, t: Shape<Ref>, p: Ref) {
    t.Bin? ==> t.node in mem && mem[t.node].parent == p
  }

  /** The nodes below the link `n` are exactly the tree `t`. */
  ghost predicate Linked(mem: Mem, t: Shape<Ref>, n: Ref) {
    match t
    case Nil => n == NIL
    case Bin(c, l, k, m, r) =>
      && n == m && m != NIL && m != NULL && m in mem
      && mem[m].color == c && mem[m].key == k && mem[m].attached
      && Linked(mem, l, mem[m].left) && Linked(mem, r, mem[m].right)
      && Hangs(mem, l, m) && Hangs(mem, r, m)
  }

  function Above(path: Path<Ref>): Ref {
    if path.Top? then NULL else path.node
  }

  /** The nodes above and beside the link `hole` are exactly the path. */
  ghost predicate PathLinked(mem: Mem, path: Path<Ref>, hole: Ref, root: Ref) {
    match path
    case Top => root == hole
    case Down(up, s, c, k, m, o) =>
      && m != NIL && m != NULL && m in mem
      && mem[m].color == c && mem[m].key == k && mem[m].attached
      && mem[m].Link(s) == hole && Linked(mem, o, mem[m].Link(s.Other())) && Hangs(mem, o, m)
      && mem[m].parent == Above(up)
      && PathLinked(mem, up, m, root)
  }

  /** The sentinel is as its constructor leaves it: black, and without children of its own. */
  ghost predicate NilOk(mem: Mem) {
    NIL in mem && mem[NIL].color == Black && mem[NIL].key == -1 && mem[NIL].left == NULL && mem[NIL].right == NULL
  }

  /** The memory holds `t` hanging at `path`, reached by the link `hole`. */
  ghost predicate Holds(mem: Mem, root: Ref, path: Path<Ref>, t: Shape<Ref>, hole: Ref) {
    && NilOk(mem)
    && Apart(t) && PathApart(path) && Nodes(t) !! PathNodes(path)
    && Linked(mem, t, hole) && Hangs(mem, t, Above(path))
    && PathLinked(mem, path, hole, root)
  }

  ghost predicate Agree(mem: Mem, mem': Mem, ns: set<Ref>) {
    forall n :: n in ns && n in mem ==> n in mem' && mem'[n] == mem[n]
  }

  ghost function Span(path: Path<Ref>, t: Shape<Ref>): set<Ref> {
    Nodes(t) + PathNodes(path)
  }

  /** Nothing outside `ns` changes. */
  ghost predicate Quiet(mem: Mem, mem': Mem, ns: set<Ref>) {
    mem'.Keys == mem.Keys && forall n :: n in mem && n !in ns ==> mem'[n] == mem[n]
  }

  lemma {:induction false} LinkedFrame(mem: Mem, mem': Mem, t: Shape<Ref>, n: Ref)
    requires Linked(mem, t, n) && Agree(mem, mem', Nodes(t))
    ensures Linked(mem', t, n)
    decreases t
  {
    match t
    case Nil =>
    case Bin(c, l, k, m, r) =>
      LinkedFrame(mem, mem', l, mem[m].left);
      LinkedFrame(mem, mem', r, mem[m].right);
  }

  lemma {:induction false} PathFrame(mem: Mem, mem': Mem, path: Path<Ref>, hole: Ref, root: Ref)
    requires PathLinked(mem, path, hole, root) && Agree(mem, mem', PathNodes(path))
    ensures PathLinked(mem', path, hole, root)
    decreases path
  {
    match path
    case Top =>
    case Down(up, s, c, k, m, o) =>
      LinkedFrame(mem, mem', o, mem[m].Link(s.Other()));
      PathFrame(mem, mem', up, m, root);
  }

  /** A tree stays linked when only the parent link of its root changes. */
  lemma LinkedReparent(mem: Mem, mem': Mem, t: Shape<Ref>, n: Ref)
    requires Linked(mem, t, n) && Apart(t)
    requires t.Bin? ==> Agree(mem, mem', Nodes(t) - {t.node})
    requires t.Bin? ==> t.node in mem' && mem'[t.node] == mem[t.node].(parent := mem'[t.node].parent)
    ensures Linked(mem', t, n)
  {
    match t
    case Nil =>
    case Bin(c, l, k, m, r) =>
      LinkedFrame(mem, mem', l, mem[m].left);
      LinkedFrame(mem, mem', r, mem[m].right);
  }

  /** A path stays linked when its lowest link (or the root link) is redirected. */
  lemma PathRelink(mem: Mem, mem': Mem, path: Path<Ref>, hole: Ref, hole': Ref, root: Ref, root': Ref)
    requires PathLinked(mem, path, hole, root) && PathApart(path)
    requires root' == if path.Top? then hole' else root
    requires path.Down? ==>
               && Agree(mem, mem', PathNodes(path) - {path.node}) && path.node in mem'
               && mem'[path.node] == mem[path.node].With(path.side, hole')
    ensures PathLinked(mem', path, hole', root')
  {
    match path
    case Top =>
    case Down(up, s, c, k, m, o) =>
      LinkedFrame(mem, mem', o, mem[m].Link(s.Other()));
      PathFrame(mem, mem', up, m, root);
  }

  // ----- attach, detach and rotate on the memory -----

  /** attach: the sentinel gets no parent. */
  function Attached(mem: Mem, x: Ref, s: Side, n: Ref): Mem
    requires x in mem && n in mem
  {
    var mem1 := mem[x := mem[x].With(s, n)];
    if n == NIL then mem1 else mem1[n := mem1[n].(parent := x)]
  }

  function Detached(mem: Mem, x: Ref, s: Side): Mem
    requires x in mem && mem[x].Link(s) in mem
  {
    var n := mem[x].Link(s);
    if n == NIL then mem
    else
      var mem1 := mem[n := mem[n].(parent := NULL)];
      mem1[x := mem1[x].With(s, NIL)]
  }

  /** The pointers that rotate follows. */
  ghost predicate Turnable(mem: Mem, s: Side, ps: Side, x: Ref, y: Ref, b: Ref, g: Ref) {
    && NIL in mem && x in mem && y in mem && b in mem
    && x != NIL && y != NIL && x != NULL && y != NULL && x != y && x != b && y != b
    && mem[x].Link(s.Other()) == y && mem[y].Link(s) == b && mem[x].parent == g
    && (g != NULL ==>
          && g in mem && g != NIL && g != x && g != y && g != b
          && mem[g].Link(ps) == x && mem[g].Link(ps.Other()) != x)
  }

  /** What the detach and attach calls of rotate leave behind. */
  function RotateSteps(mem: Mem, s: Side, ps: Side, x: Ref, y: Ref, b: Ref, g: Ref): (m: Mem)
    requires Turnable(mem, s, ps, x, y, b, g)
  {
    var m1 := Detached(mem, x, s.Other());
    var m2 := Detached(m1, y, s);
    var m3 := if g == NULL then m2 else Attached(Detached(m2, g, ps), g, ps, y);
    var m4 := Attached(m3, y, s, x);
    if b == NIL then m4 else Attached(m4, x, s.Other(), b)
  }

  /** `y` takes the place of `x`, `b` moves over, and nothing else changes. */
  ghost predicate Rotated(mem: Mem, mem': Mem, s: Side, ps: Side, x: Ref, y: Ref, b: Ref, g: Ref)
    requires Turnable(mem, s, ps, x, y, b, g)
  {
    && mem'.Keys == mem.Keys
    && mem'[x] == mem[x].With(s.Other(), b).(parent := y)
    && mem'[y] == mem[y].With(s, x).(parent := g)
    && (b != NIL ==> mem'[b] == mem[b].(parent := x))
    && (g != NULL ==> mem'[g] == mem[g].With(ps, y))
    && (forall n :: n in mem && n != x && n != y && (n != b || b == NIL) && (n != g || g == NULL) ==> mem'[n] == mem[n])
  }

  lemma RotateStepsRotated(mem: Mem, s: Side, ps: Side, x: Ref, y: Ref, b: Ref, g: Ref)
    requires Turnable(mem, s, ps, x, y, b, g)
    ensures Rotated(mem, RotateSteps(mem, s, ps, x, y, b, g), s, ps, x, y, b, g)
  {
    var m1 := Detached(mem, x, s.Other());
    assert m1 == mem[y := mem[y].(parent := NULL)][x := mem[x].With(s.Other(), NIL)];
    var m2 := Detached(m1, y, s);
    assert b != NIL ==> m2 == m1[b := mem[b].(parent := NULL)][y := m1[y].With(s, NIL)];
  }

  lemma RotatePoints(mem: Mem, root: Ref, s: Side, path: Path<Ref>, t: Shape<Ref>, x: Ref)
    requires Holds(mem, root, path, t, x) && t.Bin? && Child(t, s.Other()).Bin?
    ensures x == t.node && Child(t, s.Other()).node in mem
    ensures var y := Child(t, s.Other()).node;
            var b := mem[y].Link(s);
            && Turnable(mem, s, if path.Top? then Left else path.side, x, y, b, Above(path))
            && x in Nodes(t) && y in Nodes(t) && (b != NIL ==> b in Nodes(t))
            && (path.Down? ==> path.node !in Nodes(t) && path.node != NULL)
  {
    var y := Child(t, s.Other());
    assert Linked(mem, y, mem[x].Link(s.Other()));
    assert Linked(mem, Child(y, s), mem[y.node].Link(s));
    assert Apart(y);
    if path.Down? {
      var o := path.other;
      assert o.Bin? ==> o.node in Nodes(o);
    }
  }

  /** The rotated subtree is linked as the rotated shape. */
  lemma RotateTree(mem: Mem, mem': Mem, s: Side, ps: Side, t: Shape<Ref>, b: Ref, g: Ref)
    requires Apart(t) && t.Bin? && Child(t, s.Other()).Bin? && Linked(mem, t, t.node)
    requires Turnable(mem, s, ps, t.node, Child(t, s.Other()).node, b, g) && g !in Nodes(t)
    requires Rotated(mem, mem', s, ps, t.node, Child(t, s.Other()).node, b, g)
    ensures Linked(mem', RbShape.Rotate(t, s), Child(t, s.Other()).node)
    ensures Hangs(mem', RbShape.Rotate(t, s), g)
  {
    var x, y := t.node, Child(t, s.Other());
    var ta, tb, tc := Child(t, s), Child(y, s), Child(y, s.Other());
    assert Apart(y) && Apart(tb) && Linked(mem, y, y.node) && Linked(mem, tb, b);
    assert Nodes(tb) + Nodes(tc) <= Nodes(y);
    assert tb.Bin? ==> tb.node in Nodes(tb);
    LinkedFrame(mem, mem', ta, mem[x].Link(s));
    LinkedFrame(mem, mem', tc, mem[y.node].Link(s.Other()));
    LinkedReparent(mem, mem', tb, b);
    assert ta.Bin? ==> ta.node in Nodes(ta);
    assert tc.Bin? ==> tc.node in Nodes(tc);
    var tx := Make(s, t.color, ta, t.key, t.node, tb);
    assert Linked(mem', tx, x);
  }

  lemma RotateMem(mem: Mem, mem': Mem, root: Ref, s: Side, path: Path<Ref>, t: Shape<Ref>, x: Ref, b: Ref)
    requires Holds(mem, root, path, t, x) && t.Bin? && Child(t, s.Other()).Bin?
    requires Turnable(mem, s, if path.Top? then Left else path.side, x, Child(t, s.Other()).node, b, Above(path))
    requires Rotated(mem, mem', s, if path.Top? then Left else path.side, x, Child(t, s.Other()).node, b, Above(path))
    ensures var y := Child(t, s.Other()).node;
            Holds(mem', if path.Top? then y else root, path, RbShape.Rotate(t, s), y)
    ensures Span(path, RbShape.Rotate(t, s)) == Span(path, t) && Quiet(mem, mem', Span(path, t))
  {
    hide Linked, PathLinked, Apart, PathApart;
    var y := Child(t, s.Other());
    RotatePoints(mem, root, s, path, t, x);
    RotateApart(t, s);
    NullOutside(mem, t, x);
    RotateTree(mem, mem', s, if path.Top? then Left else path.side, t, b, Above(path));
    PathRelink(mem, mem', path, x, y.node, root, if path.Top? then y.node else root);
  }

  lemma NullOutside(mem: Mem, t: Shape<Ref>, x: Ref)
    requires Linked(mem, t, x)
    ensures NULL !in Nodes(t) && NIL !in Nodes(t)
    ensures forall n :: n in Nodes(t) ==> n in mem
  {
  }

  // ----- moving the focus and painting -----

  lemma FocusDown(mem: Mem, root: Ref, path: Path<Ref>, t: Shape<Ref>, x: Ref, s: Side)
    requires Holds(mem, root, path, t, x) && t.Bin?
    ensures x == t.node && x in mem && x != NULL && x != NIL
    ensures Holds(mem, root, Down(path, s, t.color, t.key, t.node, Child(t, s.Other())), Child(t, s), mem[x].Link(s))
    ensures Span(Down(path, s, t.color, t.key, t.node, Child(t, s.Other())), Child(t, s)) == Span(path, t)
  {
  }

  lemma FocusUp(mem: Mem, root: Ref, path: Path<Ref>, t: Shape<Ref>, x: Ref)
    requires Holds(mem, root, path, t, x) && path.Down?
    ensures Holds(mem, root, path.up, Make(path.side, path.color, t, path.key, path.node, path.other), path.node)
    ensures path.node in mem && path.node != NULL && path.node != NIL && path.node != x
    ensures Span(path.up, Make(path.side, path.color, t, path.key, path.node, path.other)) == Span(path, t)
  {
    assert t.Bin? ==> x in Nodes(t);
    assert path.other.Bin? ==> path.other.node in Nodes(path.other);
  }

  /** Any focus describes the same tree. */
  lemma {:induction false} HoldsPlug(mem: Mem, root: Ref, path: Path<Ref>, t: Shape<Ref>, x: Ref)
    requires Holds(mem, root, path, t, x)
    ensures Holds(mem, root, Top, Plug(path, t), root)
    decreases path
  {
    if path.Down? {
      FocusUp(mem, root, path, t, x);
      HoldsPlug(mem, root, path.up, Make(path.side, path.color, t, path.key, path.node, path.other), path.node);
    }
  }

  lemma QuietRefl(mem: Mem, ns: set<Ref>)
    ensures Quiet(mem, mem, ns)
  {
  }

  lemma QuietAt(mem: Mem, mem': Mem, ns: set<Ref>, x: Ref)
    requires Quiet(mem, mem', ns) && x in mem && x !in ns
    ensures x in mem' && mem'[x] == mem[x]
  {
  }

  lemma QuietTrans(mem: Mem, mem': Mem, mem'': Mem, ns: set<Ref>)
    requires Quiet(mem, mem', ns) && Quiet(mem', mem'', ns)
    ensures Quiet(mem, mem'', ns)
  {
  }

  function Painted(mem: Mem, x: Ref, c: Color): Mem
    requires x in mem
  {
    mem[x := mem[x].(color := c)]
  }

  lemma PaintRoot(mem: Mem, root: Ref, path: Path<Ref>, t: Shape<Ref>, x: Ref, c: Color)
    requires Holds(mem, root, path, t, x) && t.Bin?
    ensures x in mem && Holds(Painted(mem, x, c), root, path, t.(color := c), x)
    ensures Span(path, t.(color := c)) == Span(path, t) && Quiet(mem, Painted(mem, x, c), Span(path, t))
  {
    var mem' := Painted(mem, x, c);
    LinkedFrame(mem, mem', t.left, mem[x].left);
    LinkedFrame(mem, mem', t.right, mem[x].right);
    PathFrame(mem, mem', path, x, root);
    assert t.left.Bin? ==> t.left.node in Nodes(t.left);
    assert t.right.Bin? ==> t.right.node in Nodes(t.right);
  }

  lemma PaintBelow(mem: Mem, root: Ref, path: Path<Ref>, t: Shape<Ref>, x: Ref, s: Side, c: Color)
    requires Holds(mem, root, path, t, x) && t.Bin? && Child(t, s).Bin?
    ensures x in mem && mem[x].Link(s) == Child(t, s).node && Child(t, s).node in mem
    ensures Holds(Painted(mem, Child(t, s).node, c), root, path, PaintChild(t, s, c), x)
    ensures Span(path, PaintChild(t, s, c)) == Span(path, t)
    ensures Quiet(mem, Painted(mem, Child(t, s).node, c), Span(path, t))
  {
    hide Holds, Span, Quiet;
    FocusDown(mem, root, path, t, x, s);
    HoleIs(mem, root, path, t, x, s);
    var down := Down(path, s, t.color, t.key, t.node, Child(t, s.Other()));
    PaintRoot(mem, root, down, Child(t, s), mem[x].Link(s), c);
    FocusUp(Painted(mem, Child(t, s).node, c), root, down, Child(t, s).(color := c), mem[x].Link(s));
  }

  lemma HoleIs(mem: Mem, root: Ref, path: Path<Ref>, t: Shape<Ref>, x: Ref, s: Side)
    requires Holds(mem, root, path, t, x) && t.Bin?
    ensures x in mem && x == t.node && mem[x].color == t.color && mem[x].parent == Above(path) && mem[x].key == t.key
    ensures mem[x].Link(s) in mem && mem[mem[x].Link(s)].color == ColorOf(Child(t, s))
    ensures mem[x].Link(s) == NIL <==> Child(t, s).Nil?
    ensures Child(t, s).Bin? ==> mem[x].Link(s) == Child(t, s).node && Child(t, s).node != x
    ensures path.Down? <==> mem[x].parent != NULL
    ensures NilOk(mem) && x != NIL && x != NULL
    ensures path.Down? ==>
              && path.node in mem && mem[path.node].color == path.color && mem[path.node].key == path.key
              && path.node != NULL && path.node != x
              && mem[path.node].Link(path.side) == x && mem[path.node].Link(path.side.Other()) != x
  {
    assert Linked(mem, Child(t, s), mem[x].Link(s));
    assert Child(t, s).Bin? ==> Child(t, s).node in Nodes(Child(t, s));
    if path.Down? {
      assert path.other.Bin? ==> path.other.node in Nodes(path.other);
    }
  }

  lemma PaintedCommute(mem: Mem, x: Ref, y: Ref, c: Color, d: Color)
    requires x in mem && y in mem && x != y
    ensures Painted(Painted(mem, x, c), y, d) == Painted(Painted(mem, y, d), x, c)
  {
  }

  lemma SwapBelow(mem: Mem, root: Ref, path: Path<Ref>, t: Shape<Ref>, x: Ref, s: Side)
    requires Holds(mem, root, path, t, x) && t.Bin? && Child(t, s).Bin?
    ensures var y := Child(t, s).node;
            && x in mem && y in mem && x != y
            && Holds(Painted(Painted(mem, x, Child(t, s).color), y, t.color), root, path, RbShape.SwapColor(t, s), x)
            && mem[x].color == t.color && mem[y].color == Child(t, s).color
            && mem[x].Link(s) == y
    ensures Span(path, RbShape.SwapColor(t, s)) == Span(path, t)
    ensures Quiet(mem, Painted(Painted(mem, x, Child(t, s).color), Child(t, s).node, t.color), Span(path, t))
  {
    hide Holds, Span, Quiet;
    HoleIs(mem, root, path, t, x, s);
    PaintRoot(mem, root, path, t, x, Child(t, s).color);
    var mem1 := Painted(mem, x, Child(t, s).color);
    PaintBelow(mem1, root, path, t.(color := Child(t, s).color), x, s, t.color);
    QuietTrans(mem, mem1, Painted(mem1, Child(t, s).node, t.color), Span(path, t));
  }

  /** A mapped node outside every tree, as remove and the constructor leave it. */
  ghost predicate Unlinked(mem: Mem, node: Ref) {
    && node in mem && node != NIL && node != NULL
    && mem[node].parent == NULL && mem[node].left == NIL && mem[node].right == NIL
  }

  /** Hanging an unlinked node into an empty place. */
  lemma AttachLeaf(mem: Mem, root: Ref, path: Path<Ref>, node: Ref)
    requires Holds(mem, root, path, Nil, NIL) && path.Down?
    requires Unlinked(mem, node) && mem[node].attached && node !in Span(path, Nil)
    ensures path.node in mem
    ensures var mem' := Attached(mem, path.node, path.side, node);
            var t := Bin(mem[node].color, Nil, mem[node].key, node, Nil);
            && Holds(mem', root, path, t, node)
            && Span(path, t) == Span(path, Nil) + {node} && Quiet(mem, mem', Span(path, Nil) + {node})
  {
    var mem' := Attached(mem, path.node, path.side, node);
    assert Nodes(Bin(mem[node].color, Nil, mem[node].key, node, Nil)) == {node};
    PathRelink(mem, mem', path, NIL, node, root, root);
  }

  function FixedFar(side: Side, pc: Color, t: Shape<Ref>, pk: int, pn: Ref, nb: Shape<Ref>): Shape<Ref>
    requires nb.Bin?
  {
    var far := side.Other();
    if ColorOf(Child(nb, far)) == Red then
      RbShape.Rotate(RbShape.SwapColor(Make(side, pc, t, pk, pn, PaintChild(nb, far, Black)), far), side)
    else
      Make(side, pc, t, pk, pn, nb)
  }

  /** What adjustLeave finds around the node it is called on. */
  lemma Neighbors(mem: Mem, root: Ref, path: Path<Ref>, t: Shape<Ref>, x: Ref)
    requires Holds(mem, root, path, t, x) && (path.Top? ==> t.Bin?)
    ensures x in mem && mem[x].color == ColorOf(t) && (path.Down? <==> Above(path) != NULL)
    ensures path.Down? ==>
              && path.node in mem && mem[path.node].color == path.color && mem[path.node].left in mem
                  && mem[path.node].right in mem
              && mem[path.node].Link(path.side) == x
              && (t.Bin? || path.other.Bin? ==> mem[path.node].Link(path.side.Other()) != x)
    ensures path.Down? ==>
              && var nb := path.other;
              && var n := mem[path.node].Link(path.side.Other());
              && n in mem && mem[n].color == ColorOf(nb) && (mem[n].left == NULL <==> nb.Nil?) && (nb.Nil? ==> n == NIL)
              && (nb.Bin? ==>
                    && n == nb.node
                    && mem[n].left in mem && mem[mem[n].left].color == ColorOf(nb.left)
                    && mem[n].right in mem && mem[mem[n].right].color == ColorOf(nb.right))
  {
    if path.Down? {
      var nb := path.other;
      assert Linked(mem, nb, mem[path.node].Link(path.side.Other()));
      assert nb.Bin? ==> nb.node in Nodes(nb);
      assert t.Bin? ==> x in Nodes(t);
      assert nb.Bin? ==> Linked(mem, nb.left, mem[nb.node].left) && Linked(mem, nb.right, mem[nb.node].right);
    }
  }

  /** Only the sentinel has null links. */
  lemma NoLinks(mem: Mem, root: Ref, path: Path<Ref>, t: Shape<Ref>, x: Ref, s: Side)
    requires Holds(mem, root, path, t, x) && t.Bin?
    ensures x in mem && mem[x].Link(s) in mem && (mem[mem[x].Link(s)].left == NULL <==> Child(t, s).Nil?)
  {
    var c := Child(t, s);
    assert Linked(mem, c, mem[x].Link(s));
    assert c.Bin? ==> Linked(mem, c.left, mem[c.node].left);
  }

  // ----- leaving the tree -----

  function SideByKey(mem: Mem, x: Ref, n: Ref): Side
    requires x in mem && n in mem
  {
    if mem[n].key < mem[x].key then Left else Right
  }

  function DetachedNode(mem: Mem, x: Ref, n: Ref): Mem
    requires x in mem && mem[x].left in mem && mem[x].right in mem
  {
    if mem[x].right == n then Detached(mem, x, Right)
    else if mem[x].left == n then Detached(mem, x, Left)
    else mem
  }

  /** The tree object as a whole: an empty tree has a null root. */
  ghost predicate TreeIs(mem: Mem, root: Ref, t: Shape<Ref>) {
    if t.Nil? then root == NULL && NilOk(mem) else Holds(mem, root, Top, t, root)
  }

  lemma {:induction false} PlugBin<N>(path: Path<N>, t: Shape<N>)
    requires t.Bin? || path.Down?
    ensures Plug(path, t).Bin?
    decreases path
  {
    if path.Down? {
      PlugBin(path.up, Make(path.side, path.color, t, path.key, path.node, path.other));
    }
  }

  lemma {:induction false} AdjustLeaveBin<N>(path: Path<N>, t: Shape<N>)
    requires Payable(path, t)
    ensures RbShape.AdjustLeave(path, t).Bin?
  {
    AdjustLeaveInOrder(path, t);
    assert |InOrder(RbShape.AdjustLeave(path, t))| > 0 by {
      if path.Down? {
        SidesNonEmpty(path);
      }
    }
  }

  lemma {:induction false} SidesNonEmpty<N>(path: Path<N>)
    requires path.Down?
    ensures |Before(path)| + |After(path)| > 0
  {
  }

  /** A change inside a part of the tree is a change inside the tree. */
  lemma QuietInto(mem: Mem, mem': Mem, part: set<Ref>, ns: set<Ref>)
    requires Quiet(mem, mem', part) && part <= ns
    ensures Quiet(mem, mem', ns)
  {
  }

  lemma LeafOut(mem: Mem, root: Ref, path: Path<Ref>, t: Shape<Ref>, x: Ref)
    requires Holds(mem, root, path, t, x) && t.Bin? && t.left.Nil? && t.right.Nil? && path.Down?
    ensures path.node in mem && path.node != NIL && mem[path.node].left in mem && mem[path.node].right in mem
    ensures var mem' := DetachedNode(mem, path.node, x);
            && Holds(mem', root, path, Nil, NIL) && Unlinked(mem', x)
            && x !in Span(path, Nil) && Span(path, Nil) <= Span(path, t)
            && mem'[path.node].Link(path.side) == NIL && mem'[x].color == mem[x].color && mem'[x].key == t.key
            && Quiet(mem, mem', Span(path, t))
  {
    HoleIs(mem, root, path, t, x, Left);
    HoleIs(mem, root, path, t, x, Right);
    var p := path.node;
    assert Linked(mem, path.other, mem[p].Link(path.side.Other()));
    var mem' := DetachedNode(mem, p, x);
    assert mem' == mem[x := mem[x].(parent := NULL)][p := mem[p].With(path.side, NIL)];
    assert Nodes(t) == {x};
    PathRelink(mem, mem', path, x, NIL, root, root);
  }

  /** The memory after the only child `y` of `x`, on side `cs`, has taken its place. */
  function SplicedOut(mem: Mem, path: Path<Ref>, x: Ref, cs: Side, y: Ref): Mem
    requires x in mem && y in mem && (path.Top? || path.node in mem)
  {
    var m := mem[x := mem[x].With(cs, NIL).(parent := NULL)][y := mem[y].(parent := Above(path))];
    if path.Top? then m else m[path.node := mem[path.node].With(path.side, y)]
  }

  lemma OneOut(mem: Mem, root: Ref, path: Path<Ref>, t: Shape<Ref>, x: Ref, cs: Side)
    requires Holds(mem, root, path, t, x) && t.Bin?
    requires Child(t, cs).Bin? && Child(t, cs.Other()).Nil? && FitsKey(path, Child(t, cs).key)
    ensures var y := Child(t, cs).node;
            && x in mem && y in mem && mem[x].Link(cs) == y
            && (path.Down? ==> path.node in mem && path.node != NIL)
            && var m1 := Detached(mem, x, cs);
            && (path.Top? ==> m1 == SplicedOut(mem, path, x, cs, y))
            && (path.Down? ==>
                  && path.node in m1 && m1[path.node].left in m1 && m1[path.node].right in m1
                  && var m2 := DetachedNode(m1, path.node, x);
                  && path.node in m2 && y in m2
                  && Attached(m2, path.node, SideByKey(m2, path.node, y), y) == SplicedOut(mem, path, x, cs, y))
            && SpliceDone(mem, SplicedOut(mem, path, x, cs, y), root, path, path, t, x, cs)
  {
    HoleIs(mem, root, path, t, x, cs);
    HoleIs(mem, root, path, t, x, cs.Other());
    var c := Child(t, cs);
    var y := c.node;
    assert y in Nodes(c) && y in Nodes(t) && x in Nodes(t);
    assert Linked(mem, c, y);
    var m1 := Detached(mem, x, cs);
    assert m1 == mem[y := mem[y].(parent := NULL)][x := mem[x].With(cs, NIL)];
    if path.Down? {
      var p := path.node;
      assert Linked(mem, path.other, mem[p].Link(path.side.Other()));
      var m2 := DetachedNode(m1, p, x);
      assert m2 == m1[x := m1[x].(parent := NULL)][p := mem[p].With(path.side, NIL)];
      assert SideByKey(m2, p, y) == path.side;
    }
    SpliceHolds(mem, root, path, t, x, cs);
  }

  /** The only child of `x`, which hung at `path`, now hangs at `q`, and `x` is out of the tree. */
  ghost predicate SpliceDone(mem: Mem, mem': Mem, root: Ref, path: Path<Ref>, q: Path<Ref>, t: Shape<Ref>, x: Ref,
      cs: Side)
    requires t.Bin? && Child(t, cs).Bin? && x in mem
  {
    && Holds(mem', if path.Top? then Child(t, cs).node else root, q, Child(t, cs), Child(t, cs).node)
    && Unlinked(mem', x) && mem'[x].color == mem[x].color && mem'[x].key == t.key
    && x !in Span(q, Child(t, cs)) && Span(q, Child(t, cs)) <= Span(path, t)
    && Quiet(mem, mem', Span(path, t))
  }

  lemma SpliceHolds(mem: Mem, root: Ref, path: Path<Ref>, t: Shape<Ref>, x: Ref, cs: Side)
    requires Holds(mem, root, path, t, x) && t.Bin? && x in mem
    requires Child(t, cs).Bin? && Child(t, cs.Other()).Nil? && Child(t, cs).node in mem
    requires path.Top? || path.node in mem
    ensures SpliceDone(mem, SplicedOut(mem, path, x, cs, Child(t, cs).node), root, path, path, t, x, cs)
  {
    HoleIs(mem, root, path, t, x, cs);
    HoleIs(mem, root, path, t, x, cs.Other());
    var c := Child(t, cs);
    var mem' := SplicedOut(mem, path, x, cs, c.node);
    assert c.node in Nodes(c) && Nodes(c) <= Nodes(t) && x in Nodes(t) && Apart(c);
    LinkedReparent(mem, mem', c, c.node);
    PathRelink(mem, mem', path, x, c.node, root, if path.Top? then c.node else root);
  }

  // ----- changing places with the last node of the left subtree -----

  /** The nodes around the exchange of `x` and `max`; `side` is the side of `x` below `g`. */
  datatype Swap = Swap(x: Ref, max: Ref, l: Ref, r: Ref, ml: Ref, mp: Ref, g: Ref, side: Side)

  ghost predicate Ready(mem: Mem, w: Swap) {
    && NIL in mem && w.x in mem && w.max in mem && w.l in mem && w.r in mem && w.ml in mem && w.mp in mem
    && w.x != NIL && w.max != NIL && w.l != NIL && w.r != NIL && w.mp != NIL
    && w.x != NULL && w.max != NULL && w.l != NULL && w.r != NULL
    && w.x != w.max && w.x != w.l && w.x != w.r && w.x != w.ml
    && w.max != w.r && w.max != w.ml && w.max != w.mp && w.l != w.r && w.l != w.ml && w.r != w.ml && w.r != w.mp
        && w.ml != w.mp
    && (w.mp == w.x <==> w.max == w.l)
    && mem[w.x].left == w.l && mem[w.x].right == w.r && mem[w.x].parent == w.g
    && mem[w.max].left == w.ml && mem[w.max].right == NIL && mem[w.max].parent == w.mp
    && (w.max != w.l ==> mem[w.mp].right == w.max && mem[w.mp].left in mem)
    && (w.g != NULL ==>
          && w.g in mem && w.g != NIL && w.g !in {w.x, w.max, w.l, w.r, w.ml, w.mp}
          && mem[w.g].Link(w.side) == w.x && mem[w.g].Link(w.side.Other()) != w.x
              && mem[w.g].Link(w.side.Other()) in mem)
  }

  /** The side on which attach puts the left subtree of `max` below `x`. */
  function SwapSide(mem: Mem, w: Swap): Side
    requires w.x in mem && w.ml in mem
  {
    SideByKey(mem, w.x, w.ml)
  }

  /** Both children of `x` detached. */
  function Childless(mem: Mem, w: Swap): Mem
    requires w.x in mem && w.l in mem && w.r in mem
  {
    mem[w.l := mem[w.l].(parent := NULL)][w.r := mem[w.r].(parent := NULL)][w.x := mem[w.x].(left := NIL, right := NIL)]
  }

  lemma ChildlessDone(mem: Mem, w: Swap)
    requires Ready(mem, w)
    ensures Detached(Detached(mem, w.x, Left), w.x, Right) == Childless(mem, w)
  {
    var m1 := Detached(mem, w.x, Left);
    assert m1 == mem[w.l := mem[w.l].(parent := NULL)][w.x := mem[w.x].(left := NIL)];
    assert m1[w.x].right == w.r;
  }

  /** ... and the left subtree of `max` moved below `x`. */
  function Handed(m: Mem, w: Swap): Mem
    requires w.x in m && w.ml in m && w.max in m
  {
    if w.ml == NIL then m
    else m[w.ml := m[w.ml].(parent := w.x)][w.max := m[w.max].(left := NIL)][w.x := m[w.x].With(SwapSide(m, w), w.ml)]
  }

  lemma HandedDone(m: Mem, w: Swap)
    requires w.x in m && w.ml in m && w.max in m && w.x != w.max && w.x != w.ml && w.max != w.ml
    requires m[w.max].left == w.ml && m[w.x].left == NIL && m[w.x].right == NIL
    ensures var m3 := Detached(m, w.max, Left);
            w.x in m3 && w.ml in m3 && Attached(m3, w.x, SideByKey(m3, w.x, w.ml), w.ml) == Handed(m, w)
  {
    if w.ml == NIL {
      assert m[w.x := m[w.x].With(SwapSide(m, w), NIL)] == m;
    }
  }

  /** ... and `x` detached from its parent. */
  function Orphaned(m: Mem, w: Swap): Mem
    requires w.x in m && (w.g == NULL || w.g in m)
  {
    if w.g == NULL then m else m[w.x := m[w.x].(parent := NULL)][w.g := m[w.g].With(w.side, NIL)]
  }

  lemma OrphanedDone(m: Mem, w: Swap)
    requires w.x in m && w.x != NIL && w.g in m && w.g != w.x && w.g != NULL
    requires m[w.g].Link(w.side) == w.x && m[w.g].Link(w.side.Other()) != w.x && m[w.g].Link(w.side.Other()) in m
    ensures DetachedNode(m, w.g, w.x) == Orphaned(m, w)
  {
  }

  /** `max` with `x` on its left and the right subtree of `x` on its right. */
  function FilledNear(m: Mem, w: Swap): Mem
    requires w.x in m && w.max in m && w.r in m
  {
    m[w.r := m[w.r].(parent := w.max)][w.x := m[w.x].(parent := w.max)][w.max := m[w.max].(left := w.x, right := w.r)]
  }

  lemma FilledNearDone(m: Mem, w: Swap)
    requires w.x in m && w.max in m && w.r in m && w.x != w.max && w.r != w.max && w.x != w.r
    requires w.x != NIL && w.max != NIL && w.r != NIL
    ensures Attached(Attached(m, w.max, Right, w.r), w.max, Left, w.x) == FilledNear(m, w)
  {
  }

  /** `x` in the place of `max`, which is loose now. */
  function Under(m: Mem, w: Swap): Mem
    requires w.x in m && w.max in m && w.mp in m
  {
    m[w.max := m[w.max].(parent := NULL)][w.mp := m[w.mp].(right := w.x)][w.x := m[w.x].(parent := w.mp)]
  }

  lemma UnderDone(m: Mem, w: Swap)
    requires w.x in m && w.max in m && w.mp in m && w.x != w.max && w.x != w.mp && w.max != w.mp
    requires w.x != NIL && w.max != NIL && w.mp != NIL
    requires m[w.mp].right == w.max && m[w.mp].left in m && !(m[w.x].key < m[w.mp].key)
    ensures var m1 := DetachedNode(m, w.mp, w.max);
            && w.mp in m1 && w.x in m1
            && Attached(m1, w.mp, SideByKey(m1, w.mp, w.x), w.x) == Under(m, w)
  {
    var m1 := DetachedNode(m, w.mp, w.max);
    assert m1 == m[w.max := m[w.max].(parent := NULL)][w.mp := m[w.mp].(right := NIL)];
  }

  /** `max` with both subtrees of `x`. */
  function FilledFar(m: Mem, w: Swap): Mem
    requires w.max in m && w.l in m && w.r in m
  {
    m[w.l := m[w.l].(parent := w.max)][w.r := m[w.r].(parent := w.max)][w.max := m[w.max].(left := w.l, right := w.r)]
  }

  lemma FilledFarDone(m: Mem, w: Swap)
    requires w.max in m && w.l in m && w.r in m && w.l != w.max && w.r != w.max && w.l != w.r
    requires w.l != NIL && w.r != NIL
    ensures Attached(Attached(m, w.max, Left, w.l), w.max, Right, w.r) == FilledFar(m, w)
  {
  }

  /** `max` below the parent of `x`. */
  function Topped(m: Mem, w: Swap): Mem
    requires w.max in m && (w.g == NULL || w.g in m)
  {
    if w.g == NULL then m else m[w.g := m[w.g].With(w.side, w.max)][w.max := m[w.max].(parent := w.g)]
  }

  function Loosen(mem: Mem, w: Swap): Mem
    requires Ready(mem, w)
  {
    Orphaned(Handed(Childless(mem, w), w), w)
  }

  /** Lines 261-271 of leave: everything between `x` and its neighbours comes loose. */
  ghost predicate Loosened(mem: Mem, m: Mem, w: Swap)
    requires Ready(mem, w)
  {
    && m.Keys == mem.Keys
    && m[w.x] == mem[w.x].(left := NIL, right := NIL, parent := NULL).With(SwapSide(mem, w), w.ml)
    && m[w.r] == mem[w.r].(parent := NULL)
    && m[w.max] == mem[w.max].(left := NIL, parent := if w.max == w.l then NULL else w.mp)
    && (w.max != w.l ==> m[w.l] == mem[w.l].(parent := NULL))
    && (w.ml != NIL ==> m[w.ml] == mem[w.ml].(parent := w.x))
    && (w.g != NULL ==> m[w.g] == mem[w.g].With(w.side, NIL))
    && (forall n :: n in mem && n !in {w.x, w.r, w.max, w.l} && (n != w.ml || n == NIL) && (n != w.g || n == NULL) ==>
        m[n] == mem[n])
  }

  lemma LoosenDone(mem: Mem, w: Swap)
    requires Ready(mem, w)
    ensures Loosened(mem, Loosen(mem, w), w)
  {
    var m1 := Childless(mem, w);
    var m2 := Handed(m1, w);
    assert m2[w.x] == mem[w.x].(left := NIL, right := NIL).With(SwapSide(mem, w), w.ml);
    assert m2[w.max] == m1[w.max].(left := NIL);
    assert m2[w.r] == m1[w.r];
    assert w.max != w.l ==> m2[w.l] == m1[w.l];
  }

  /** The whole exchange, colours included. */
  ghost predicate Exchanged(mem: Mem, m: Mem, w: Swap)
    requires Ready(mem, w)
  {
    && m.Keys == mem.Keys
    && m[w.x] == mem[w.x].(left := NIL, right := NIL, parent := if w.max == w.l then w.max else w.mp,
        color := mem[w.max].color)
                 .With(SwapSide(mem, w), w.ml)
    && m[w.max] == mem[w.max].(left := if w.max == w.l then w.x else w.l, right := w.r, parent := w.g,
        color := mem[w.x].color)
    && m[w.r] == mem[w.r].(parent := w.max)
    && (w.max != w.l ==>
          && m[w.l] == mem[w.l].(parent := w.max, right := if w.l == w.mp then w.x else mem[w.l].right)
          && (w.l != w.mp ==> m[w.mp] == mem[w.mp].(right := w.x)))
    && (w.ml != NIL ==> m[w.ml] == mem[w.ml].(parent := w.x))
    && (w.g != NULL ==> m[w.g] == mem[w.g].With(w.side, w.max))
    && (forall n ::
          n in mem && n !in {w.x, w.r, w.max, w.l, w.mp} && (n != w.ml || n == NIL) && (n != w.g || n == NULL) ==>
            m[n] == mem[n])
  }

  function SwapPainted(m: Mem, x: Ref, y: Ref): Mem
    requires x in m && y in m
  {
    Painted(Painted(m, x, m[y].color), y, m[x].color)
  }

  lemma NearDone(mem: Mem, m: Mem, w: Swap)
    requires Ready(mem, w) && Loosened(mem, m, w) && w.max == w.l
    ensures Exchanged(mem, SwapPainted(Topped(FilledNear(m, w), w), w.x, w.max), w)
  {
    var m1 := FilledNear(m, w);
    assert m1[w.x] == m[w.x].(parent := w.max);
    assert m1[w.max] == m[w.max].(left := w.x, right := w.r);
    assert m1[w.r] == m[w.r].(parent := w.max);
    var m2 := Topped(m1, w);
    assert m2[w.max] == m1[w.max].(parent := w.g);
    assert m2[w.x] == m1[w.x] && m2[w.r] == m1[w.r];
  }

  ghost predicate FarFilled(m: Mem, m2: Mem, w: Swap) {
    && w.x in m && w.max in m && w.l in m && w.r in m && w.mp in m && m2.Keys == m.Keys
    && m2[w.x] == m[w.x].(parent := w.mp)
    && m2[w.max] == m[w.max].(left := w.l, right := w.r, parent := NULL)
    && m2[w.r] == m[w.r].(parent := w.max)
    && m2[w.l] == m[w.l].(parent := w.max, right := if w.l == w.mp then w.x else m[w.l].right)
    && (w.l != w.mp ==> m2[w.mp] == m[w.mp].(right := w.x))
    && (forall n :: n in m && n !in {w.x, w.r, w.max, w.l, w.mp} ==> m2[n] == m[n])
  }

  lemma FarFilledDone(mem: Mem, m: Mem, w: Swap)
    requires Ready(mem, w) && m.Keys == mem.Keys && w.max != w.l
    ensures FarFilled(m, FilledFar(Under(m, w), w), w)
  {
    var m1 := Under(m, w);
    assert m1[w.max] == m[w.max].(parent := NULL);
    assert m1[w.x] == m[w.x].(parent := w.mp);
    assert m1[w.mp] == m[w.mp].(right := w.x);
    assert m1[w.r] == m[w.r] && (w.l != w.mp ==> m1[w.l] == m[w.l]);
  }

  lemma FarDone(mem: Mem, m: Mem, m2: Mem, w: Swap)
    requires Ready(mem, w) && Loosened(mem, m, w) && w.max != w.l && FarFilled(m, m2, w)
    ensures Exchanged(mem, SwapPainted(Topped(m2, w), w.x, w.max), w)
  {
    var m3 := Topped(m2, w);
    assert m3[w.max] == m2[w.max].(parent := w.g);
    assert m3[w.x] == m2[w.x] && m3[w.r] == m2[w.r] && m3[w.l] == m2[w.l] && m3[w.mp] == m2[w.mp];
  }

  lemma {:induction false} FocusLast(mem: Mem, root: Ref, path: Path<Ref>, t: Shape<Ref>, x: Ref)
    requires Holds(mem, root, path, t, x) && t.Bin?
    ensures Holds(mem, root, LastPath(path, t), Last(t), Last(t).node)
    ensures t.right.Bin? ==> LastPath(path, t).Down? && LastPath(path, t).side == Right
                             && LastPath(path, t).node == LastParent(t)
    ensures t.right.Nil? ==> LastPath(path, t) == path && Last(t) == t
    decreases t
  {
    hide Holds;
    HoleIs(mem, root, path, t, x, Right);
    if t.right.Bin? {
      FocusDown(mem, root, path, t, x, Right);
      FocusLast(mem, root, Down(path, Right, t.color, t.key, t.node, t.left), t.right, mem[x].right);
    }
  }

  /** The same walk after the last node has been replaced. */
  lemma {:induction false} FocusReplaced(mem: Mem, root: Ref, path: Path<Ref>, t: Shape<Ref>, u: Shape<Ref>, x: Ref)
    requires t.Bin? && u.Bin? && Holds(mem, root, path, ReplaceLast(t, u), x)
    ensures Holds(mem, root, LastPath(path, t), u, u.node)
    ensures Span(LastPath(path, t), u) == Span(path, ReplaceLast(t, u))
    decreases t
  {
    hide Holds, Span;
    HoleIs(mem, root, path, ReplaceLast(t, u), x, Right);
    if t.right.Bin? {
      FocusDown(mem, root, path, ReplaceLast(t, u), x, Right);
      FocusReplaced(mem, root, Down(path, Right, t.color, t.key, t.node, t.left), t.right, u, mem[x].right);
    }
  }

  /** Along the right spine only the top and the lowest node change. */
  lemma {:induction false} SpineLinked(mem: Mem, m: Mem, l: Shape<Ref>, u: Shape<Ref>)
    requires l.Bin? && l.right.Bin? && u.Bin? && Linked(mem, l, l.node) && Apart(l)
    requires Linked(m, u, u.node) && Hangs(m, u, LastParent(l))
    requires forall n :: n in Nodes(l) - Nodes(Last(l)) && n != l.node && n != LastParent(l) ==> n in mem && n in m
                                                                                                 && m[n] == mem[n]
    requires l.node in m && LastParent(l) in m && LastParent(l) in mem
    requires m[l.node] == mem[l.node].(parent := m[l.node].parent,
                                       right := if l.node == LastParent(l) then u.node else mem[l.node].right)
    requires l.node != LastParent(l) ==> m[LastParent(l)] == mem[LastParent(l)].(right := u.node)
    ensures Linked(m, ReplaceLast(l, u), l.node)
    decreases l
  {
    LastNodes(l);
    LastNodes(l.right);
    assert l.node !in Nodes(l.left) && LastParent(l) !in Nodes(l.left) && Nodes(l.left) !! Nodes(Last(l));
    LinkedFrame(mem, m, l.left, mem[l.node].left);
    assert Hangs(m, l.left, l.node) by { assert l.left.Bin? ==> l.left.node in Nodes(l.left); }
    if l.right.right.Bin? {
      assert l.right.node in Nodes(l.right) && l.right.node !in Nodes(Last(l));
      assert l.node != LastParent(l);
      assert m[l.right.node] == mem[l.right.node].(right := if l.right.node == LastParent(l) then u.node
          else mem[l.right.node].right);
      SpineLinked(mem, m, l.right, u);
    }
  }

  /** The nodes that leave of `t.node` exchanges. */
  ghost function SwapOf(mem: Mem, path: Path<Ref>, t: Shape<Ref>): Swap
    requires t.Bin? && t.left.Bin? && t.right.Bin? && Last(t.left).node in mem
  {
    var m := Last(t.left).node;
    Swap(t.node, m, t.left.node, t.right.node, mem[m].left, mem[m].parent, Above(path), if path.Top? then Left
        else path.side)
  }

  lemma SwapPoints(mem: Mem, root: Ref, path: Path<Ref>, t: Shape<Ref>, x: Ref)
    requires Holds(mem, root, path, t, x) && t.Bin? && t.left.Bin? && t.right.Bin?
    ensures Last(t.left).node in mem
    ensures var w := SwapOf(mem, path, t); var m := Last(t.left);
            && Ready(mem, w) && x == w.x
            && w.mp == (if t.left.right.Nil? then x else LastParent(t.left))
            && (t.left.right.Nil? <==> w.max == w.l)
            && (w.ml == NIL <==> m.left.Nil?) && (m.left.Bin? ==> w.ml == m.left.node)
            && mem[w.max].color == m.color && mem[w.max].key == m.key && mem[w.x].key == t.key
                && mem[w.x].color == t.color
            && mem[w.ml].key == if m.left.Bin? then m.left.key else -1
  {
    HoleIs(mem, root, path, t, x, Left);
    HoleIs(mem, root, path, t, x, Right);
    var base := Down(path, Left, t.color, t.key, t.node, t.right);
    FocusDown(mem, root, path, t, x, Left);
    var l, m := t.left, Last(t.left);
    FocusLast(mem, root, base, l, mem[x].left);
    var q := LastPath(base, l);
    HoleIs(mem, root, q, m, m.node, Left);
    HoleIs(mem, root, q, m, m.node, Right);
    LastNodes(l);
    assert l.node in Nodes(l) && t.right.node in Nodes(t.right) && m.node in Nodes(m);
    assert m.left.Bin? ==> m.left.node in Nodes(m.left) && m.left.node in Nodes(m) && mem[m.left.node].key == m.left.key
        by {
      assert Linked(mem, m.left, mem[m.node].left);
    }
    if l.right.Bin? {
      assert q.node in mem && mem[q.node].right == m.node;
      assert Linked(mem, q.other, mem[q.node].left);
    }
    if path.Down? {
      assert Linked(mem, path.other, mem[path.node].Link(path.side.Other()));
    }
  }

  /** `x` with the left subtree of the node it changes places with. */
  function Lowered(t: Shape<Ref>, sd: Side): Shape<Ref>
    requires t.Bin? && t.left.Bin?
  {
    var m := Last(t.left);
    Make(sd, m.color, m.left, t.key, t.node, Nil)
  }

  function SwappedShape(t: Shape<Ref>, sd: Side): Shape<Ref>
    requires t.Bin? && t.left.Bin?
  {
    var m := Last(t.left);
    Bin(t.color, ReplaceLast(t.left, Lowered(t, sd)), m.key, m.node, t.right)
  }

  lemma SwappedApart(t: Shape<Ref>, sd: Side)
    requires t.Bin? && t.left.Bin? && Apart(t)
    ensures Apart(SwappedShape(t, sd)) && Nodes(SwappedShape(t, sd)) == Nodes(t)
  {
    var m, u := Last(t.left), Lowered(t, sd);
    LastNodes(t.left);
    assert Nodes(m) == Nodes(m.left) + {m.node} && m.node !in Nodes(m.left) && Apart(m.left);
    assert Nodes(u) == Nodes(m.left) + {t.node};
    assert t.node !in Nodes(m.left) && Apart(u);
    ReplaceLastApart(t.left, u);
  }

  lemma LoweredLinked(mem: Mem, m: Mem, w: Swap, t: Shape<Ref>)
    requires t.Bin? && t.left.Bin? && Linked(mem, t, t.node) && Apart(t)
    requires Ready(mem, w) && Exchanged(mem, m, w) && w.x == t.node && w.max == Last(t.left).node
    requires Linked(mem, Last(t.left), w.max) && w.g !in Nodes(t) && w.r in Nodes(t.right)
    requires w.l == t.left.node && (w.max == w.l || w.mp !in Nodes(Last(t.left)))
    requires w.max == w.l <==> t.left.right.Nil?
    ensures var u := Lowered(t, SwapSide(mem, w));
            Linked(m, u, w.x) && Hangs(m, u, if w.max == w.l then w.max else w.mp)
  {
    var mm := Last(t.left);
    LastNodes(t.left);
    assert Linked(mem, mm.left, w.ml);
    assert mm.left.Bin? ==> mm.left.node in Nodes(mm.left);
    assert Nodes(mm.left) <= Nodes(mm) && mm.node !in Nodes(mm.left);
    assert w.x !in Nodes(mm.left) && w.r !in Nodes(mm.left) && w.max !in Nodes(mm.left) && w.l !in Nodes(mm.left);
    LinkedReparent(mem, m, mm.left, w.ml);
  }

  /** The left subtree of the new root. */
  lemma LeftLinked(mem: Mem, m: Mem, w: Swap, t: Shape<Ref>, u: Shape<Ref>)
    requires t.Bin? && t.left.Bin? && Linked(mem, t.left, t.left.node) && Apart(t)
    requires Ready(mem, w) && Exchanged(mem, m, w) && w.x == t.node && w.max == Last(t.left).node
    requires w.l == t.left.node && w.g !in Nodes(t) && w.r in Nodes(t.right)
    requires w.max == w.l <==> t.left.right.Nil?
    requires w.ml == NIL || w.ml in Nodes(Last(t.left))
    requires w.max != w.l ==> w.mp == LastParent(t.left)
    requires u.Bin? && u.node == w.x && Linked(m, u, w.x) && Hangs(m, u, if w.max == w.l then w.max else w.mp)
    ensures Linked(m, ReplaceLast(t.left, u), m[w.max].left) && Hangs(m, ReplaceLast(t.left, u), w.max)
  {
    var l := t.left;
    LastNodes(l);
    NullOutside(mem, l, l.node);
    if l.right.Bin? {
      assert w.x !in Nodes(l) && w.r !in Nodes(l) && w.max in Nodes(Last(l));
      SpineLinked(mem, m, l, u);
    }
  }

  /** Where the exchanged nodes lie. */
  ghost predicate Placed(mem: Mem, w: Swap, t: Shape<Ref>)
  {
    && t.Bin? && t.left.Bin? && t.right.Bin? && w.x == t.node && w.l == t.left.node && w.max == Last(t.left).node
    && Linked(mem, t.left, w.l) && Linked(mem, t.right, w.r) && Linked(mem, Last(t.left), w.max) && Linked(mem, t, w.x)
    && w.r in Nodes(t.right) && (w.ml == NIL || w.ml in Nodes(Last(t.left))) && w.g !in Nodes(t)
    && (w.max == w.l <==> t.left.right.Nil?)
    && (w.max != w.l ==> w.mp == LastParent(t.left) && w.mp !in Nodes(Last(t.left)))
    && w.x in Nodes(t) && w.max in Nodes(t) && w.l in Nodes(t) && w.r in Nodes(t) && (w.ml == NIL || w.ml in Nodes(t))
        && w.mp in Nodes(t)
  }

  lemma SwapPlaced(mem: Mem, root: Ref, path: Path<Ref>, t: Shape<Ref>, x: Ref)
    requires Holds(mem, root, path, t, x) && t.Bin? && t.left.Bin? && t.right.Bin? && Last(t.left).node in mem
    ensures Placed(mem, SwapOf(mem, path, t), t)
  {
    SwapPoints(mem, root, path, t, x);
    var l, mm := t.left, Last(t.left);
    LastNodes(l);
    NullOutside(mem, t, x);
    var base := Down(path, Left, t.color, t.key, t.node, t.right);
    FocusDown(mem, root, path, t, x, Left);
    FocusLast(mem, root, base, l, mem[x].left);
    assert l.node in Nodes(l) && t.right.node in Nodes(t.right);
    assert mm.left.Bin? ==> mm.left.node in Nodes(mm.left);
  }

  lemma ExchangeTree(mem: Mem, m: Mem, w: Swap, t: Shape<Ref>)
    requires Apart(t) && Ready(mem, w) && Exchanged(mem, m, w) && Placed(mem, w, t)
    requires Last(t.left).key == mem[w.max].key && t.color == mem[w.x].color
    ensures Linked(m, SwappedShape(t, SwapSide(mem, w)), w.max) && m[w.max].parent == w.g
  {
    var u := Lowered(t, SwapSide(mem, w));
    LoweredLinked(mem, m, w, t);
    LeftLinked(mem, m, w, t, u);
    LastNodes(t.left);
    assert t.right.node in Nodes(t.right);
    LinkedReparent(mem, m, t.right, w.r);
  }

  lemma ExchangeHolds(mem: Mem, m: Mem, root: Ref, path: Path<Ref>, t: Shape<Ref>, x: Ref)
    requires Holds(mem, root, path, t, x) && t.Bin? && t.left.Bin? && t.right.Bin? && Last(t.left).node in mem
    requires Ready(mem, SwapOf(mem, path, t)) && Exchanged(mem, m, SwapOf(mem, path, t))
    ensures var w := SwapOf(mem, path, t); var t2 := SwappedShape(t, SwapSide(mem, w));
            && Holds(m, if path.Top? then w.max else root, path, t2, w.max)
            && Span(path, t2) == Span(path, t) && Quiet(mem, m, Span(path, t))
  {
    hide PathLinked, PathApart, Linked, Apart;
    var w := SwapOf(mem, path, t);
    HoleIs(mem, root, path, t, x, Left);
    SwapPoints(mem, root, path, t, x);
    SwapPlaced(mem, root, path, t, x);
    SwappedApart(t, SwapSide(mem, w));
    ExchangeTree(mem, m, w, t);
    PathRelink(mem, m, path, x, w.max, root, if path.Top? then w.max else root);
  }

  lemma LoosenIs(mem: Mem, w: Swap)
    requires Ready(mem, w)
    ensures Loosen(mem, w) == Orphaned(Handed(Childless(mem, w), w), w)
  {
  }

  lemma KeysKept(m0: Mem, m1: Mem, m3: Mem, w: Swap)
    requires Ready(m0, w) && Loosened(m0, m1, w)
    requires if w.max == w.l then m3 == FilledNear(m1, w) else FarFilled(m1, m3, w)
    ensures w.x in m3 && w.max in m3 && m3[w.max].key == m0[w.max].key
    ensures w.g != NULL ==> w.g in m3 && m3[w.g].key == m0[w.g].key
  {
  }

  /** The side of `x` on which the subtree it takes over ends up; an equal key goes to the right. */
  function LowerSide(t: Shape<Ref>): Side
    requires t.Bin? && t.left.Bin?
  {
    var ml := Last(t.left).left;
    if (if ml.Bin? then ml.key else -1) < t.key then Left else Right
  }

  /** The comparison at the hole of `path` finds the right side, or ties on the left. */
  predicate FitsOrTies(path: Path<Ref>, k: int) {
    FitsKey(path, k) || LeftTie(path, k)
  }

  /** What the key comparisons of the exchange find in a tree in order. */
  predicate SwapFits(path: Path<Ref>, t: Shape<Ref>)
    requires t.Bin? && t.left.Bin?
  {
    FitsOrTies(path, Last(t.left).key) && (t.left.right.Bin? ==> FitsKey(SwapPath(path, t), t.key))
  }

  /** The key comparisons of the exchange, on the memory. */
  lemma SwapKeys(mem: Mem, root: Ref, path: Path<Ref>, t: Shape<Ref>, x: Ref)
    requires Holds(mem, root, path, t, x) && t.Bin? && t.left.Bin? && t.right.Bin? && SwapFits(path, t)
    requires Last(t.left).node in mem && Ready(mem, SwapOf(mem, path, t))
    ensures var w := SwapOf(mem, path, t);
            && (w.g != NULL ==> SideByKey(mem, w.g, w.max) == Landing(path, Last(t.left).key).side)
            && (w.g == NULL <==> path.Top?) && (path.Down? ==> w.side == path.side)
            && (w.max != w.l ==> !(mem[w.x].key < mem[w.mp].key))
            && SwapSide(mem, w) == LowerSide(t)
  {
    hide Holds;
    var w := SwapOf(mem, path, t);
    SwapPoints(mem, root, path, t, x);
    HoleIs(mem, root, path, t, x, Left);
    var base := Down(path, Left, t.color, t.key, t.node, t.right);
    FocusDown(mem, root, path, t, x, Left);
    FocusLast(mem, root, base, t.left, mem[x].left);
    var q := LastPath(base, t.left);
    HoleIs(mem, root, q, Last(t.left), w.max, Left);
    if t.left.right.Bin? {
      var m := Last(t.left);
      LastPathBottom(base, Down(path, Left, t.color, m.key, m.node, t.right), t.left);
    }
  }

  /** A node outside the tree can be added to the memory, or its record changed. */
  lemma HoldsGrow(mem: Mem, mem': Mem, root: Ref, t: Shape<Ref>)
    requires Holds(mem, root, Top, t, root) && NilOk(mem') && Agree(mem, mem', Nodes(t))
    ensures Holds(mem', root, Top, t, root)
  {
    LinkedFrame(mem, mem', t, root);
  }

  lemma RootBlack(t: Shape<Ref>)
    requires RedBlack(t)
    ensures ColorOf(t) == Black
  {
  }

  /** The pure side of insert in one place. */
  lemma InsertFacts(t: Shape<Ref>, c: Color, k: int, n: Ref)
    requires RedBlack(t) && Sorted(InOrder(t))
    ensures ColorOf(t) == Black
    ensures var r := RbShape.Insert(t, c, k, n);
            && r.Bin? && Nodes(r) == Nodes(t) + {n} && Sorted(InOrder(r))
            && (RedBlack(r) <==> c == Red || t.Nil?)
  {
    RootBlack(t);
    hide Sorted, RedBlack, AllAtMost, AllAbove, RbShape.Insert, InOrder, Nodes;
    var r := RbShape.Insert(t, c, k, n);
    InsertRedBlackIff(t, c, k, n);
    var a, b := InsertInOrder(t, c, k, n);
    NodesInOrder(t);
    NodesInOrder(r);
    assert InOrder(r)[|a|] == Entry(k, n);
    assert forall e :: e in InOrder(r) <==> e in a || e == Entry(k, n) || e in b;
    assert forall e :: e in InOrder(t) <==> e in a || e in b;
  }

  lemma TreeNil(mem: Mem, root: Ref, t: Shape<Ref>)
    requires TreeIs(mem, root, t)
    ensures NilOk(mem)
  {
  }

  lemma RootOnly(mem: Mem, node: Ref)
    requires NilOk(mem) && Unlinked(mem, node) && mem[node].attached
    ensures Holds(mem, node, Top, Bin(mem[node].color, Nil, mem[node].key, node, Nil), node)
  {
  }

  lemma AttachedElsewhere(mem: Mem, root: Ref, t: Shape<Ref>, node: Ref)
    requires TreeIs(mem, root, t) && node in mem && node != NIL && !mem[node].attached
    ensures node !in Nodes(t) && TreeIs(mem[node := mem[node].(attached := true)], root, t)
    ensures Span(Top, t) == Nodes(t)
    ensures root == NULL <==> t.Nil?
  {
    if t.Bin? {
      AllAttached(mem, t, root);
      HoldsGrow(mem, mem[node := mem[node].(attached := true)], root, t);
    }
  }

  lemma {:induction false} AllAttached(mem: Mem, t: Shape<Ref>, n: Ref)
    requires Linked(mem, t, n)
    ensures forall x :: x in Nodes(t) ==> x in mem && mem[x].attached
    decreases t
  {
    match t
    case Nil =>
    case Bin(c, l, k, m, r) =>
      AllAttached(mem, l, mem[m].left);
      AllAttached(mem, r, mem[m].right);
  }

  /** The place of `node` in the tree `t` at `p`, and what hangs there. */
  ghost function PlaceOf(p: Path<Ref>, t: Shape<Ref>, node: Ref): (r: (Path<Ref>, Shape<Ref>))
    requires node in Nodes(t)
    ensures r.1.Bin? && r.1.node == node && Plug(r.0, r.1) == Plug(p, t)
    decreases t
  {
    if t.node == node then (p, t)
    else
      var s := if node in Nodes(t.left) then Left else Right;
      PlaceOf(Down(p, s, t.color, t.key, t.node, Child(t, s.Other())), Child(t, s), node)
  }

  /** All key comparisons that removing `node` makes find the right side. */
  ghost predicate Removable(t: Shape<Ref>, node: Ref) {
    node in Nodes(t) ==> KeysFit(PlaceOf(Top, t, node).0, PlaceOf(Top, t, node).1)
  }

  /** `es` without the one entry of `node`. */
  ghost predicate Without<N>(es: seq<Entry<N>>, node: N, r: seq<Entry<N>>) {
    exists i :: 0 <= i < |es| && es[i].node == node && r == es[..i] + es[i + 1..]
  }

  lemma {:induction false} Locate(mem: Mem, root: Ref, p: Path<Ref>, t: Shape<Ref>, x: Ref, n: Ref)
    requires Holds(mem, root, p, t, x) && n in Nodes(t)
    ensures var (path, u) := PlaceOf(p, t, n); Holds(mem, root, path, u, n) && Span(path, u) == Span(p, t)
    decreases t
  {
    hide Holds, Span;
    HoleIs(mem, root, p, t, x, Left);
    if t.node != n {
      var s := if n in Nodes(t.left) then Left else Right;
      FocusDown(mem, root, p, t, x, s);
      Locate(mem, root, Down(p, s, t.color, t.key, t.node, Child(t, s.Other())), Child(t, s), mem[x].Link(s), n);
    }
  }

  ghost predicate NoRepeats(es: seq<Entry<Ref>>) {
    forall i, j :: 0 <= i < j < |es| ==> es[i].node != es[j].node
  }

  lemma {:induction false} ApartInOrder(t: Shape<Ref>)
    requires Apart(t)
    ensures NoRepeats(InOrder(t))
  {
    match t
    case Nil =>
    case Bin(_, l, k, n, r) =>
      ApartInOrder(l);
      ApartInOrder(r);
      NodesInOrder(l);
      NodesInOrder(r);
      NoRepeatsJoin(InOrder(l), Entry(k, n), InOrder(r), Nodes(l), Nodes(r));
  }

  lemma NoRepeatsJoin(a: seq<Entry<Ref>>, e: Entry<Ref>, b: seq<Entry<Ref>>, na: set<Ref>, nb: set<Ref>)
    requires NoRepeats(a) && NoRepeats(b) && na !! nb && e.node !in na && e.node !in nb
    requires na == (set x | x in a :: x.node) && nb == (set x | x in b :: x.node)
    ensures NoRepeats(a + [e] + b)
  {
    var es := a + [e] + b;
    forall i, j | 0 <= i < j < |es| ensures es[i].node != es[j].node {
      assert i < |a| ==> es[i] == a[i] && es[i] in a && es[i].node in na;
      assert i > |a| ==> es[i] == b[i - |a| - 1];
      assert j < |a| ==> es[j] == a[j];
      assert j > |a| ==> es[j] == b[j - |a| - 1] && es[j] in b && es[j].node in nb;
    }
  }

  /** The pure side of remove in one place. */
  lemma RemoveFacts(t: Shape<Ref>, path: Path<Ref>, u: Shape<Ref>)
    requires RedBlack(t) && Sorted(InOrder(t)) && Apart(t) && u.Bin? && Plug(path, u) == t
    ensures Leavable(path, u) && (KeysFit(path, u) ==> Survives(path, u))
    ensures Survives(path, u) ==>
              var r := LeaveTied(path, u);
              && (Without(InOrder(t), u.node, InOrder(r)) <==> KeysFit(path, u)) && u.node !in Nodes(r)
              && (KeysFit(path, u) ==> RedBlack(r) && Sorted(InOrder(r)) && Nodes(r) == Nodes(t) - {u.node})
  {
    hide RedBlack, Sorted, Leavable, KeysFit, Survives, LeaveTied, RbShape.Leave;
    LeavableHere(path, u);
    OutApart(path, u);
    if KeysFit(path, u) {
      FitLeaves(path, u);
      LeaveFacts(t, path, u);
    } else if Survives(path, u) {
      TiedLoses(path, u);
    }
  }

  lemma LeaveFacts(t: Shape<Ref>, path: Path<Ref>, u: Shape<Ref>)
    requires RedBlack(t) && Sorted(InOrder(t)) && Apart(t) && u.Bin? && Plug(path, u) == t
    ensures var r := RbShape.Leave(path, u);
            && RedBlack(r) && Sorted(InOrder(r)) && Without(InOrder(t), u.node, InOrder(r))
            && Nodes(r) == Nodes(t) - {u.node}
  {
    hide RedBlack, Leave;
    var r := RbShape.Leave(path, u);
    LeaveInOrder(path, u);
    LeaveRedBlack(path, u);
    var a, b := Before(path) + InOrder(u.left), InOrder(u.right) + After(path);
    RemoveEntry(t, a, Entry(u.key, u.node), b);
    NodesInOrder(r);
  }

  lemma OutApart(path: Path<Ref>, t: Shape<Ref>)
    requires t.Bin? && Apart(Plug(path, t))
    ensures Survives(path, t) ==> t.node !in Nodes(LeaveTied(path, t))
  {
    hide Survives, LeaveTied, Apart;
    ApartInOrder(Plug(path, t));
    InOrderPlug(path, t);
    Cut(Before(path), InOrder(t.left), Entry(t.key, t.node), InOrder(t.right), After(path));
    var a, b := Before(path) + InOrder(t.left), InOrder(t.right) + After(path);
    EntriesWithout(a, Entry(t.key, t.node), b);
    assert Free(a + b, t.node);
    assert Free(Before(path), t.node) && Free(After(path), t.node) by {
      assert forall e :: e in Before(path) || e in After(path) ==> e in a + b;
    }
    assert Free(InOrder(t.left), t.node) && Free(InOrder(t.right), t.node) by {
      assert forall e :: e in InOrder(t.left) || e in InOrder(t.right) ==> e in a + b;
    }
    if Survives(path, t) {
      OutGone(path, t, t.node);
      NodesInOrder(LeaveTied(path, t));
    }
  }

  /** A comparison with an entry of the subtree at `path`. */
  lemma ChildFits(path: Path<Ref>, t: Shape<Ref>, i: nat)
    requires i < |InOrder(t)| && Sorted(Before(path) + InOrder(t) + After(path))
    ensures FitsOrTies(path, InOrder(t)[i].key)
  {
    FitsIff(path, t, i);
  }

  lemma SwapFitsHere(path: Path<Ref>, t: Shape<Ref>)
    requires TwoChildren(t) && Sorted(Before(path) + InOrder(t) + After(path)) && Sorted(InOrder(t.left))
    requires AllAtMost(InOrder(t.left), t.key)
    ensures SwapFits(path, t) && (OutChild(t).Bin? ==> FitsOrTies(OutPlace(path, t), OutChild(t).key))
  {
    hide Sorted;
    var l, m := t.left, Last(t.left);
    var ls := InOrder(l);
    LastOrder(Top, l);
    assert ls[|ls| - 1] == Entry(m.key, m.node);
    assert InOrder(t)[|ls| - 1] == ls[|ls| - 1];
    ChildFits(path, t, |ls| - 1);
    assert m.key <= t.key;
    var p := Landing(path, m.key);
    var base, base' := Down(path, Left, t.color, m.key, m.node, t.right),
        Down(p, Left, t.color, m.key, m.node, t.right);
    if l.right.Bin? {
      LastParentOrder(base, l);
      LastPathBottom(base, base', l);
    } else if l.left.Bin? {
      RootIndex(l.left);
      assert ls == InOrder(l.left) + [Entry(l.key, l.node)] + [];
      SortedParts(InOrder(l.left), Entry(l.key, l.node), []);
    }
  }

  /** Every place in a red-black search tree is as leave needs it. */
  lemma LeavableHere(path: Path<Ref>, t: Shape<Ref>)
    requires t.Bin? && RedBlack(Plug(path, t)) && Sorted(InOrder(Plug(path, t)))
    ensures Leavable(path, t)
  {
    hide RedBlack, Sorted;
    OutRed(path, t);
    InOrderPlug(path, t);
    SortedInner(Before(path), InOrder(t), After(path));
    SortedParts(InOrder(t.left), Entry(t.key, t.node), InOrder(t.right));
    if TwoChildren(t) {
      SwapFitsHere(path, t);
    } else if OutChild(t).Bin? {
      var u := OutChild(t);
      RootIndex(u);
      var i := (if t.left.Nil? then 1 else 0) + |InOrder(u.left)|;
      assert InOrder(t)[i] == InOrder(u)[|InOrder(u.left)|];
      ChildFits(path, t, i);
    }
  }

  lemma RemoveEntry(t: Shape<Ref>, a: seq<Entry<Ref>>, e: Entry<Ref>, b: seq<Entry<Ref>>)
    requires Apart(t) && Sorted(InOrder(t)) && InOrder(t) == a + [e] + b
    ensures Without(InOrder(t), e.node, a + b) && Sorted(a + b)
    ensures (set x | x in a + b :: x.node) == Nodes(t) - {e.node}
  {
    hide Apart, Sorted, NoRepeats, Nodes, InOrder;
    ApartInOrder(t);
    NodesInOrder(t);
    SortedWithout(a, e, b);
    EntriesWithout(a, e, b);
    WithoutMiddle(a, e, b);
  }

  lemma WithoutMiddle(a: seq<Entry<Ref>>, e: Entry<Ref>, b: seq<Entry<Ref>>)
    ensures Without(a + [e] + b, e.node, a + b)
  {
    var es := a + [e] + b;
    assert es[|a|] == e && es[..|a|] == a && es[|a| + 1..] == b;
  }

  lemma SortedWithout(a: seq<Entry<Ref>>, e: Entry<Ref>, b: seq<Entry<Ref>>)
    requires Sorted(a + [e] + b)
    ensures Sorted(a + b)
  {
    var es, r := a + [e] + b, a + b;
    forall i, j | 0 <= i < j < |r| ensures r[i].key <= r[j].key {
      assert r[i] == es[if i < |a| then i else i + 1] && r[j] == es[if j < |a| then j else j + 1];
    }
  }

  lemma EntriesWithout(a: seq<Entry<Ref>>, e: Entry<Ref>, b: seq<Entry<Ref>>)
    requires NoRepeats(a + [e] + b)
    ensures forall x :: x in a + b <==> x in a + [e] + b && x.node != e.node
  {
    var es := a + [e] + b;
    assert es[|a|] == e;
    forall x | x in a + b ensures x in es && x.node != e.node {
      if x in a {
        var i :| 0 <= i < |a| && a[i] == x;
        assert es[i] == x;
      } else {
        var i :| 0 <= i < |b| && b[i] == x;
        assert es[|a| + 1 + i] == x;
      }
    }
  }

  /** The record of a node outside the tree may change freely. */
  lemma TreeElsewhere(mem: Mem, mem': Mem, root: Ref, t: Shape<Ref>, node: Ref)
    requires TreeIs(mem, root, t) && node != NIL && node !in Nodes(t)
    requires mem'.Keys == mem.Keys && forall n :: n in mem && n != node ==> mem'[n] == mem[n]
    ensures TreeIs(mem', root, t)
  {
    if t.Bin? {
      HoldsGrow(mem, mem', root, t);
    }
  }

  lemma TreeApart(mem: Mem, root: Ref, t: Shape<Ref>)
    requires TreeIs(mem, root, t)
    ensures Apart(t) && (root == NULL <==> t.Nil?)
  {
  }

  lemma TreeAttached(mem: Mem, root: Ref, t: Shape<Ref>)
    requires TreeIs(mem, root, t)
    ensures forall n :: n in Nodes(t) ==> n in mem && mem[n].attached && n != NIL && n != NULL
  {
    if t.Bin? {
      AllAttached(mem, t, root);
      NullOutside(mem, t, root);
    }
  }

  datatype Option = None | Some(value: int)

  ghost predicate IsLeast(es: seq<Entry<Ref>>, i: int) {
    0 <= i < |es| && forall j :: 0 <= j < |es| ==> es[i].key <= es[j].key
  }

  /** With pairwise distinct keys every node can be removed. */
  lemma DistinctRemovable(t: Shape<Ref>, node: Ref)
    requires StrictlySorted(InOrder(t))
    ensures Removable(t, node)
  {
    if node in Nodes(t) {
      var (path, u) := PlaceOf(Top, t, node);
      DistinctKeysFit(path, u);
    }
  }

  // ----- ties -----

  /** The only child of `x` ties with the parent: attach puts it over the link to the other subtree. */
  lemma TieOut(mem: Mem, root: Ref, path: Path<Ref>, t: Shape<Ref>, x: Ref, cs: Side)
    requires Holds(mem, root, path, t, x) && t.Bin?
    requires Child(t, cs).Bin? && Child(t, cs.Other()).Nil? && LeftTie(path, Child(t, cs).key)
    ensures var y := Child(t, cs).node; var g := path.node;
            && x in mem && y in mem && g in mem && g != NIL && mem[x].Link(cs) == y
            && var m1 := Detached(mem, x, cs);
            && g in m1 && m1[g].left in m1 && m1[g].right in m1
            && var m2 := DetachedNode(m1, g, x);
            && g in m2 && y in m2
            && SpliceDone(mem, Attached(m2, g, SideByKey(m2, g, y), y), root, path, Crossed(path), t, x, cs)
  {
    HoleIs(mem, root, path, t, x, cs);
    HoleIs(mem, root, path, t, x, cs.Other());
    var c := Child(t, cs);
    var y, g := c.node, path.node;
    assert Linked(mem, c, y) && Apart(c) && y in Nodes(c) && Nodes(c) <= Nodes(t) && x in Nodes(t);
    assert Linked(mem, path.other, mem[g].right);
    var m1 := Detached(mem, x, cs);
    assert m1 == mem[y := mem[y].(parent := NULL)][x := mem[x].With(cs, NIL)];
    var m2 := DetachedNode(m1, g, x);
    assert m2 == m1[x := m1[x].(parent := NULL)][g := mem[g].(left := NIL)];
    var m3 := Attached(m2, g, SideByKey(m2, g, y), y);
    assert m3[g] == mem[g].(left := NIL, right := y);
    assert m3[y] == mem[y].(parent := g);
    assert m3[x] == mem[x].With(cs, NIL).(parent := NULL);
    assert forall n :: n in mem && n != x && n != y && n != g ==> m3[n] == mem[n];
    LostHolds(mem, m3, root, path, c, x, y);
  }

  lemma LostHolds(mem: Mem, m3: Mem, root: Ref, path: Path<Ref>, c: Shape<Ref>, x: Ref, y: Ref)
    requires NilOk(m3) && path.Down? && path.side == Left && c.Bin? && c.node == y && x != y && x !in Nodes(c)
    requires Linked(mem, c, y) && Apart(c) && PathApart(path) && Nodes(c) !! PathNodes(path) && x !in PathNodes(path)
    requires PathLinked(mem, path, x, root) && path.node in m3 && y in m3
    requires m3[path.node] == mem[path.node].(left := NIL, right := y) && m3[y] == mem[y].(parent := path.node)
    requires forall n :: n in mem && n != x && n != y && n != path.node ==> n in m3 && m3[n] == mem[n]
    ensures Holds(m3, root, Down(path.up, Right, path.color, path.key, path.node, Nil), c, y)
  {
    assert y in Nodes(c);
    LinkedReparent(mem, m3, c, y);
    PathFrame(mem, m3, path.up, path.node, root);
  }

  /** The memory in which `x` hangs on the right of `g`, and nothing on the left. */
  function Rehung(mem: Mem, g: Ref, x: Ref): Mem
    requires g in mem
  {
    mem[g := mem[g].(left := NIL, right := x)]
  }

  lemma RehungHolds(mem: Mem, root: Ref, path: Path<Ref>, t: Shape<Ref>, x: Ref)
    requires Holds(mem, root, path, t, x) && t.Bin? && path.Down? && path.side == Left
    ensures path.node in mem && Holds(Rehung(mem, path.node, x), root, Crossed(path), t, x)
  {
    HoleIs(mem, root, path, t, x, Left);
    var m := Rehung(mem, path.node, x);
    assert path.node !in Nodes(t) && path.node !in PathNodes(path.up);
    LinkedFrame(mem, m, t, x);
    PathFrame(mem, m, path.up, path.node, root);
    assert x in Nodes(t);
  }

  lemma CrossedNear(mem: Mem, m: Mem, w: Swap)
    requires Ready(mem, w) && Loosened(mem, m, w) && w.max == w.l && w.g != NULL && w.side == Left
    requires Ready(Rehung(mem, w.g, w.x), w.(side := Right))
    ensures Exchanged(Rehung(mem, w.g, w.x), SwapPainted(Attached(FilledNear(m, w), w.g, Right, w.max), w.x, w.max),
            w.(side := Right))
  {
    var m1 := FilledNear(m, w);
    assert m1[w.x] == m[w.x].(parent := w.max);
    assert m1[w.max] == m[w.max].(left := w.x, right := w.r);
    assert m1[w.r] == m[w.r].(parent := w.max);
    assert m1[w.g] == mem[w.g].(left := NIL);
    var m2 := Attached(m1, w.g, Right, w.max);
    assert m2[w.g] == mem[w.g].(left := NIL, right := w.max);
    assert m2[w.max] == m1[w.max].(parent := w.g);
    assert m2[w.x] == m1[w.x] && m2[w.r] == m1[w.r];
  }

  lemma CrossedFar(mem: Mem, m: Mem, m1: Mem, w: Swap)
    requires Ready(mem, w) && Loosened(mem, m, w) && w.max != w.l && FarFilled(m, m1, w) && w.g != NULL
    requires w.side == Left
    requires Ready(Rehung(mem, w.g, w.x), w.(side := Right))
    ensures Exchanged(Rehung(mem, w.g, w.x), SwapPainted(Attached(m1, w.g, Right, w.max), w.x, w.max),
            w.(side := Right))
  {
    var w' := w.(side := Right);
    var m', m1' := m[w.g := m[w.g].(right := NIL)], m1[w.g := m1[w.g].(right := NIL)];
    LoosenedCrossed(mem, m, w);
    assert FarFilled(m', m1', w') && Topped(m1', w') == Attached(m1, w.g, Right, w.max)
        by { FilledCrossed(mem, m, m1, w); }
    hide Ready, Loosened, FarFilled, Exchanged, Topped;
    FarDone(Rehung(mem, w.g, w.x), m', m1', w');
  }

  lemma LoosenedCrossed(mem: Mem, m: Mem, w: Swap)
    requires Ready(mem, w) && Loosened(mem, m, w) && w.g != NULL && w.side == Left
    requires Ready(Rehung(mem, w.g, w.x), w.(side := Right))
    ensures Loosened(Rehung(mem, w.g, w.x), m[w.g := m[w.g].(right := NIL)], w.(side := Right))
  {
  }

  lemma FilledCrossed(mem: Mem, m: Mem, m1: Mem, w: Swap)
    requires Ready(mem, w) && Loosened(mem, m, w) && FarFilled(m, m1, w) && w.g != NULL && w.side == Left
    ensures var w' := w.(side := Right);
            var m', m1' := m[w.g := m[w.g].(right := NIL)], m1[w.g := m1[w.g].(right := NIL)];
            FarFilled(m', m1', w') && Topped(m1', w') == Attached(m1, w.g, Right, w.max)
  {
    var m1' := m1[w.g := m1[w.g].(right := NIL)];
    assert Attached(m1, w.g, Right, w.max) == m1[w.g := m1[w.g].(right := w.max)][w.max := m1[w.max].(parent := w.g)];
    assert m1'[w.g := m1'[w.g].(right := w.max)] == m1[w.g := m1[w.g].(right := w.max)];
  }

  /** The memory that the exchange starts from: after a tie it is as if `x` had hung on the right, alone. */
  ghost function SwapStart(mem: Mem, path: Path<Ref>, t: Shape<Ref>): Mem
    requires t.Bin? && t.left.Bin? && (path.Down? ==> path.node in mem)
  {
    if LeftTie(path, Last(t.left).key) then Rehung(mem, path.node, t.node) else mem
  }

  lemma SwapStarts(mem: Mem, root: Ref, path: Path<Ref>, t: Shape<Ref>, x: Ref)
    requires Holds(mem, root, path, t, x) && t.Bin? && t.left.Bin? && t.right.Bin?
    ensures Last(t.left).node in mem && (path.Down? ==> path.node in mem)
    ensures var p, m0 := Landing(path, Last(t.left).key), SwapStart(mem, path, t);
            && Holds(m0, root, p, t, x) && Last(t.left).node in m0 && Ready(m0, SwapOf(m0, p, t))
            && SwapOf(m0, p, t) == SwapOf(mem, path, t).(side := if p.Top? then Left else p.side)
            && SwapSide(m0, SwapOf(m0, p, t)) == SwapSide(mem, SwapOf(mem, path, t))
            && Span(p, t) <= Span(path, t) && Quiet(mem, m0, Span(path, t)) && (p.Top? <==> path.Top?)
  {
    hide Holds, Ready;
    SwapPoints(mem, root, path, t, x);
    HoleIs(mem, root, path, t, x, Left);
    if LeftTie(path, Last(t.left).key) {
      var w := SwapOf(mem, path, t);
      RehungHolds(mem, root, path, t, x);
      var m0 := Rehung(mem, path.node, x);
      assert m0[w.max] == mem[w.max] && m0[w.ml] == mem[w.ml] && m0[w.x] == mem[w.x] by { OffPath(mem, w); }
      SwapPoints(m0, root, Crossed(path), t, x);
    } else {
      QuietRefl(mem, Span(path, t));
    }
  }

  lemma OffPath(mem: Mem, w: Swap)
    requires Ready(mem, w) && w.g != NULL
    ensures w.g != w.max && w.g != w.ml && w.g != w.x
  {
  }

  /** What leave needs of the place of a node; every place in a red-black search tree has it. */
  predicate Leavable(path: Path<Ref>, t: Shape<Ref>)
    requires t.Bin?
  {
    && (TwoChildren(t) ==> SwapFits(path, t))
    && (OutChild(t).Bin? ==>
          OutChild(t).color == Red && OutColor(t) == Black && FitsOrTies(OutPlace(path, t), OutChild(t).key))
  }

  /** The positions where removal loses nodes are exactly those where a key comparison of leave goes wrong. */
  lemma ClashCases(path: Path<Ref>, t: Shape<Ref>)
    requires t.Bin? && Sorted(InOrder(Plug(path, t)))
    ensures KeysFit(path, t) <==> !OneChildTie(path, t) && !ParentTie(path, t) && !ChildTie(t)
  {
    KeysFitIff(path, t);
  }

  predicate OneChildTie(path: Path<Ref>, t: Shape<Ref>)
    requires t.Bin?
  {
    || (t.left.Nil? && t.right.Bin? && LeftTie(path, t.right.key))
    || (t.right.Nil? && t.left.Bin? && LeftTie(path, t.left.key))
  }

  predicate ParentTie(path: Path<Ref>, t: Shape<Ref>)
    requires t.Bin?
  {
    t.left.Bin? && t.right.Bin? && LeftTie(path, Last(t.left).key)
  }

  predicate ChildTie(t: Shape<Ref>)
    requires t.Bin?
  {
    t.left.Bin? && t.right.Bin? && t.left.right.Nil? && t.left.left.Bin? && t.left.left.key == t.left.key
  }

  /** Hanging `max` below the parent and exchanging the colours completes the exchange. */
  lemma HangDone(m0: Mem, m1: Mem, m3: Mem, w: Swap, tie: bool)
    requires Ready(m0, w) && Loosened(m0, m1, w)
    requires if w.max == w.l then m3 == FilledNear(m1, w) else FarFilled(m1, m3, w)
    requires tie ==> w.g != NULL && w.side == Left && Ready(Rehung(m0, w.g, w.x), w.(side := Right))
    ensures w.x in m3 && w.max in m3 && (w.g != NULL ==> w.g in m3)
    ensures tie ==>
              Exchanged(Rehung(m0, w.g, w.x), SwapPainted(Attached(m3, w.g, Right, w.max), w.x, w.max),
                        w.(side := Right))
    ensures !tie ==> Exchanged(m0, SwapPainted(Topped(m3, w), w.x, w.max), w)
  {
    hide Exchanged;
    KeysKept(m0, m1, m3, w);
    if w.max == w.l {
      if tie { CrossedNear(m0, m1, w); } else { NearDone(m0, m1, w); }
    } else {
      if tie { CrossedFar(m0, m1, m3, w); } else { FarDone(m0, m1, m3, w); }
    }
  }

  lemma TreeHolds(mem: Mem, root: Ref, t: Shape<Ref>)
    requires TreeIs(mem, root, t) && root != NULL
    ensures t.Bin? && Holds(mem, root, Top, t, root) && Span(Top, t) == Nodes(t)
  {
  }

  lemma RedPays(path: Path<Ref>, t: Shape<Ref>)
    requires t.Bin? && OutChild(t).Bin? && OutChild(t).color == Red
    ensures Survives(path, t)
  {
  }

  /** The exchanged node leaves as the original one would. */
  lemma LoweredOut(path: Path<Ref>, t: Shape<Ref>)
    requires TwoChildren(t) && Leavable(path, t)
    ensures var u, q := Lowered(t, LowerSide(t)), SwapPath(Landing(path, Last(t.left).key), t);
            && u.Bin? && !TwoChildren(u) && Leavable(q, u) && OutColor(u) == OutColor(t) && OutChild(u) == OutChild(t)
            && OutPath(q, u) == OutPath(path, t)
  {
  }

  function RecolorGrand(g: Shape<Ref>, s: Side): Shape<Ref>
    requires g.Bin? && Child(g, s).Bin? && Child(g, s.Other()).Bin?
  {
    Make(s, Red, Child(g, s).(color := Black), g.key, g.node, Child(g, s.Other()).(color := Black))
  }

  class Tree {
    var mem: Mem
    var root: Ref
    var obj: map<Ref, int>     // the object handle of every node; no operation writes it
    ghost var shape: Shape<Ref>

    /** The links are `shape`, which is a red-black search tree over the attached nodes. */
    ghost predicate Valid()
      reads this
    {
      && TreeIs(mem, root, shape) && RedBlack(shape) && Sorted(InOrder(shape))
      && mem.Keys <= obj.Keys && NULL !in mem
      && (forall n :: n in mem && mem[n].attached ==> n in Nodes(shape))
    }

    constructor ()
      ensures Valid() && shape == Nil && mem.Keys == {NIL}
    {
      mem := map[NIL := Cell(-1, Black, NULL, NULL, NULL, false)];
      obj := map[NIL := 0];
      root, shape := NULL, Nil;
    }

    /** The constructor of a node: red, unlinked, outside the tree. */
    method NewNode(x: Ref, k: int, o: int)
      requires Valid() && x !in mem && x != NULL && x != NIL
      modifies this`mem, this`obj
      ensures Valid()
      ensures mem == old(mem)[x := Cell(k, Red, NULL, NIL, NIL, false)] && obj == old(obj)[x := o]
    {
      hide Holds;
      ghost var m0 := mem;
      mem := mem[x := Cell(k, Red, NULL, NIL, NIL, false)];
      obj := obj[x := o];
      if shape.Bin? {
        TreeNil(m0, root, shape);
        HoldsGrow(m0, mem, root, shape);
      }
    }

    method WhichSide(x: Ref, n: Ref) returns (s: Side)
      requires x in mem
      ensures s == if mem[x].left == n then Left else if mem[x].right == n then Right else Left
    {
      if mem[x].left == n {
        return Left;
      } else if mem[x].right == n {
        return Right;
      }
      return Left;
    }

    method AttachAt(x: Ref, s: Side, n: Ref)
      requires x in mem && n in mem
      modifies this`mem, this`root
      ensures mem == Attached(old(mem), x, s, n) && root == old(root)
    {
      mem := mem[x := mem[x].With(s, n)];
      if n != NIL {
        mem := mem[n := mem[n].(parent := x)];
      }
    }

    method DetachAt(x: Ref, s: Side) returns (n: Ref)
      requires x in mem && x != NIL && mem[x].Link(s) in mem
      modifies this`mem, this`root
      ensures n == old(mem)[x].Link(s)
      ensures mem == Detached(old(mem), x, s) && root == old(root)
    {
      if mem[x].Link(s) == NIL {
        return NIL;
      }
      n := mem[x].Link(s);
      mem := mem[n := mem[n].(parent := NULL)];
      mem := mem[x := mem[x].With(s, NIL)];
    }

    method RotateLinks(x: Ref, s: Side, ghost ps: Side, ghost y: Ref, ghost b: Ref)
      requires x in mem && Turnable(mem, s, ps, x, y, b, mem[x].parent)
      modifies this`mem, this`root
      ensures mem == RotateSteps(old(mem), s, ps, x, y, b, old(mem)[x].parent)
      ensures root == if old(mem)[x].parent == NULL then y else old(root)
    {
      var r := s.Other();
      var nGrand := mem[x].parent;
      var nParent := DetachAt(x, r);
      var nLeaf := DetachAt(nParent, s);
      if nGrand != NULL {
        var side := WhichSide(nGrand, x);
        var _ := DetachAt(nGrand, side);
        AttachAt(nGrand, side, nParent);
      } else {
        root := nParent;
      }
      AttachAt(nParent, s, x);
      if nLeaf != NIL {
        AttachAt(x, r, nLeaf);
      }
    }

    /** Rotate `x` towards `s`; it hangs at `path` and carries the subtree `t`. */
    method Rotate(x: Ref, s: Side, ghost path: Path<Ref>, ghost t: Shape<Ref>)
      requires Holds(mem, root, path, t, x) && t.Bin? && Child(t, s.Other()).Bin?
      modifies this`mem, this`root
      ensures Holds(mem, root, path, RbShape.Rotate(t, s), Child(t, s.Other()).node)
      ensures Span(path, RbShape.Rotate(t, s)) == Span(path, t) && Quiet(old(mem), mem, Span(path, t))
    {
      hide Holds, Rotated, RotateSteps, Span, Quiet;
      RotatePoints(mem, root, s, path, t, x);
      ghost var m0, root0, y, b := mem, root, Child(t, s.Other()).node, mem[Child(t, s.Other()).node].Link(s);
      ghost var ps := if path.Top? then Left else path.side;
      RotateStepsRotated(m0, s, ps, x, y, b, Above(path));
      RotateLinks(x, s, ps, y, b);
      RotateMem(m0, mem, root0, s, path, t, x, b);
    }

    method SetColor(x: Ref, c: Color)
      requires x in mem
      modifies this`mem, this`root
      ensures mem == Painted(old(mem), x, c) && root == old(root)
    {
      mem := mem[x := mem[x].(color := c)];
    }

    method SwapColor(x: Ref, y: Ref)
      requires x in mem && y in mem
      modifies this`mem, this`root
      ensures mem == Painted(Painted(old(mem), x, old(mem)[y].color), y, old(mem)[x].color) && root == old(root)
    {
      var c := mem[x].color;
      mem := mem[x := mem[x].(color := mem[y].color)];
      mem := mem[y := mem[y].(color := c)];
    }

    /** The other child of the parent of `x`. */
    method GetBrother(x: Ref) returns (y: Ref)
      requires x in mem && (mem[x].parent == NULL || mem[x].parent in mem)
      ensures mem[x].parent == NULL ==> y == NULL
      ensures mem[x].parent != NULL ==> y
                                        == mem[mem[x].parent].Link(if mem[mem[x].parent].left == x then Right else Left)
    {
      if mem[x].parent == NULL {
        return NULL;
      }
      var p := mem[x].parent;
      y := if mem[p].left == x then mem[p].right else mem[p].left;
    }

    /** Repair the red-red conflict that `x`, the root of `t` at `path`, may have with its parent. */
    method AdjustInsert(x: Ref, ghost path: Path<Ref>, ghost t: Shape<Ref>)
      requires Holds(mem, root, path, t, x) && t.Bin? && TopBlack(path)
      modifies this`mem, this`root
      ensures Holds(mem, root, Top, RbShape.AdjustInsert(path, t), root)
      ensures Quiet(old(mem), mem, Span(path, t))
      decreases path
    {
      hide Holds, Span, Quiet;
      HoleIs(mem, root, path, t, x, Left);
      QuietRefl(mem, Span(path, t));
      if mem[x].parent == NULL {
        PaintRoot(mem, root, path, t, x, Black);
        SetColor(x, Black);
        HoldsPlug(mem, root, path, t.(color := Black), x);
        return;
      }
      if mem[mem[x].parent].color != Red {
        HoldsPlug(mem, root, path, t, x);
        return;
      }
      var cParent := mem[x].parent;
      ghost var p := Make(path.side, path.color, t, path.key, path.node, path.other);
      ghost var up := path.up;
      FocusUp(mem, root, path, t, x);
      assert TopBlack(up);
      HoleIs(mem, root, up, p, cParent, path.side);
      var grand := mem[cParent].parent;
      ghost var g := Make(up.side, up.color, p, up.key, up.node, up.other);
      FocusUp(mem, root, up, p, cParent);
      HoleIs(mem, root, up.up, g, grand, up.side.Other());
      var uncle := GetBrother(cParent);
      assert uncle == mem[grand].Link(up.side.Other());
      if mem[uncle].color == Red {
        AdjustInsertRecolor(cParent, grand, uncle, up.up, g, up.side);
        ghost var m1 := mem;
        AdjustInsert(grand, up.up, RecolorGrand(g, up.side));
        QuietTrans(old(mem), m1, mem, Span(path, t));
      } else {
        AdjustInsertTurn(x, cParent, grand, path, t);
      }
    }

    /** The recolouring half of adjustInsert: both children of the grandparent black, itself red. */
    method AdjustInsertRecolor(cParent: Ref, grand: Ref, uncle: Ref, ghost top: Path<Ref>, ghost g: Shape<Ref>,
        ghost s: Side)
      requires Holds(mem, root, top, g, grand) && g.Bin? && Child(g, s).Bin? && Child(g, s.Other()).Bin?
      requires cParent == Child(g, s).node && uncle == Child(g, s.Other()).node
      modifies this`mem, this`root
      ensures Holds(mem, root, top, RecolorGrand(g, s), grand)
      ensures Span(top, RecolorGrand(g, s)) == Span(top, g) && Quiet(old(mem), mem, Span(top, g))
    {
      hide Holds, Span, Quiet;
      HoleIs(mem, root, top, g, grand, s);
      PaintBelow(mem, root, top, g, grand, s.Other(), Black);
      SetColor(uncle, Black);
      ghost var m1, g1 := mem, PaintChild(g, s.Other(), Black);
      PaintBelow(mem, root, top, g1, grand, s, Black);
      SetColor(cParent, Black);
      ghost var m2, g2 := mem, PaintChild(g1, s, Black);
      PaintRoot(mem, root, top, g2, grand, Red);
      SetColor(grand, Red);
      QuietTrans(old(mem), m1, m2, Span(top, g));
      QuietTrans(old(mem), m2, mem, Span(top, g));
    }

    /** The rotating half of adjustInsert. */
    method AdjustInsertTurn(x: Ref, parent: Ref, grand: Ref, ghost path: Path<Ref>, ghost t: Shape<Ref>)
      requires Holds(mem, root, path, t, x) && t.Bin? && TopBlack(path)
      requires path.Down? && path.color == Red && path.node == parent && TopBlack(path.up)
      requires path.up.Down? && path.up.node == grand && ColorOf(path.up.other) == Black
      modifies this`mem, this`root
      ensures Holds(mem, root, Top, RbShape.AdjustInsert(path, t), root)
      ensures Quiet(old(mem), mem, Span(path, t))
    {
      hide Holds, Span, Quiet;
      ghost var up := path.up;
      ghost var p := Make(path.side, path.color, t, path.key, path.node, path.other);
      HoleIs(mem, root, path, t, x, Left);
      FocusUp(mem, root, path, t, x);
      HoleIs(mem, root, up, p, parent, path.side);
      var cParent := parent;
      QuietRefl(mem, Span(path, t));
      var s := WhichSide(cParent, x);
      var ps := WhichSide(grand, cParent);
      assert s == path.side && ps == up.side;
      if s != ps {
        s := s.Other();
        Rotate(cParent, s, up, p);
        cParent := x;
        p := RbShape.Rotate(p, s);
      }
      ghost var m1 := mem;
      ghost var g := Make(up.side, up.color, p, up.key, up.node, up.other);
      HoleIs(mem, root, up, p, cParent, Left);
      FocusUp(mem, root, up, p, cParent);
      s := WhichSide(grand, cParent);
      assert s == up.side;
      s := s.Other();
      Rotate(grand, s, up.up, g);
      ghost var m2 := mem;
      g := RbShape.Rotate(g, s);
      SwapBelow(mem, root, up.up, g, cParent, s);
      PaintedCommute(mem, grand, cParent, mem[cParent].color, mem[grand].color);
      SwapColor(grand, cParent);
      HoldsPlug(mem, root, up.up, RbShape.SwapColor(g, s), cParent);
      QuietTrans(m1, m2, mem, Span(path, t));
      QuietTrans(old(mem), m1, mem, Span(path, t));
    }

    /** Node::insert: walk down by key, hang the node there, repair. */
    method InsertBelow(x: Ref, node: Ref, ghost path: Path<Ref>, ghost t: Shape<Ref>) returns (ok: bool)
      requires Holds(mem, root, path, t, x) && t.Bin? && TopBlack(path) && (path.Top? ==> t.color == Black)
      requires Unlinked(mem, node) && mem[node].attached && node !in Span(path, t)
      modifies this`mem, this`root
      ensures ok
      ensures var c := old(mem)[node];
              && TopBlack(Descend(path, t, c.key))
              && Holds(mem, root, Top, RbShape.AdjustInsert(Descend(path, t, c.key),
                  Bin(c.color, Nil, c.key, node, Nil)), root)
      ensures Quiet(old(mem), mem, Span(path, t) + {node})
      decreases t
    {
      hide Holds, Span, Quiet;
      ghost var c := mem[node];
      HoleIs(mem, root, path, t, x, Left);
      var s := if mem[node].key < mem[x].key then Left else Right;
      HoleIs(mem, root, path, t, x, s);
      FocusDown(mem, root, path, t, x, s);
      ghost var down := Down(path, s, t.color, t.key, t.node, Child(t, s.Other()));
      if mem[x].Link(s) != NIL {
        ok := InsertBelow(mem[x].Link(s), node, down, Child(t, s));
      } else {
        AttachLeaf(mem, root, down, node);
        AttachAt(x, s, node);
        ghost var m1 := mem;
        AdjustInsert(node, down, Bin(c.color, Nil, c.key, node, Nil));
        QuietTrans(old(mem), m1, mem, Span(path, t) + {node});
        ok := true;
      }
    }

    /** The neighbour part of adjustLeave; see RbShape.FixNeighbor. */
    method FixNeighbor(cParent: Ref, neighbor: Ref, ghost up: Path<Ref>, ghost side: Side, ghost pc: Color,
                       ghost t: Shape<Ref>, ghost pk: int, ghost nb: Shape<Ref>)
      requires nb.Bin? && neighbor == nb.node
      requires Holds(mem, root, up, Make(side, pc, t, pk, cParent, nb), cParent)
      modifies this`mem, this`root
      ensures Holds(mem, root, Top, Plug(up, RbShape.FixNeighbor(side, pc, t, pk, cParent, nb)), root)
      ensures Quiet(old(mem), mem, Span(up, Make(side, pc, t, pk, cParent, nb)))
    {
      hide Holds, Span, Quiet;
      ghost var far := side.Other();
      ghost var p := Make(side, pc, t, pk, cParent, nb);
      ghost var ns := Span(up, p);
      var cNeighbor := neighbor;
      HoleIs(mem, root, up, p, cParent, far);
      FocusDown(mem, root, up, p, cParent, far);
      ghost var down := Down(up, far, pc, pk, cParent, t);
      HoleIs(mem, root, down, nb, cNeighbor, Left);
      HoleIs(mem, root, down, nb, cNeighbor, Right);
      if mem[cParent].color == Red && mem[mem[cNeighbor].left].color == Black
          && mem[mem[cNeighbor].right].color == Black {
        SwapBelow(mem, root, up, p, cParent, far);
        SwapColor(cParent, cNeighbor);
        HoldsPlug(mem, root, up, RbShape.SwapColor(p, far), cParent);
      } else {
        var sn := WhichSide(cParent, cNeighbor);
        assert sn == far;
        var os := sn.Other();
        QuietRefl(mem, ns);
        ghost var nb' := nb;
        if mem[mem[cNeighbor].Link(os)].color == Red && mem[mem[cNeighbor].Link(sn)].color == Black {
          SwapBelow(mem, root, down, nb, cNeighbor, os);
          SwapColor(cNeighbor, mem[cNeighbor].Link(os));
          ghost var m1 := mem;
          Rotate(cNeighbor, sn, down, RbShape.SwapColor(nb, os));
          nb' := RbShape.Rotate(RbShape.SwapColor(nb, os), sn);
          QuietTrans(old(mem), m1, mem, ns);
          FocusUp(mem, root, down, nb', nb'.node);
          HoleIs(mem, root, up, Make(far, pc, nb', pk, cParent, t), cParent, far);
          cNeighbor := mem[cParent].Link(sn);
        }
        ghost var m2 := mem;
        FixFar(cParent, cNeighbor, sn, up, side, pc, t, pk, nb');
        QuietTrans(old(mem), m2, mem, ns);
      }
    }

    /** The last step of adjustLeave: rotate the parent when the far nephew is red. */
    method FixFar(cParent: Ref, cNeighbor: Ref, sn: Side, ghost up: Path<Ref>, ghost side: Side, ghost pc: Color,
                  ghost t: Shape<Ref>, ghost pk: int, ghost nb: Shape<Ref>)
      requires nb.Bin? && cNeighbor == nb.node && sn == side.Other()
      requires Holds(mem, root, up, Make(side, pc, t, pk, cParent, nb), cParent)
      modifies this`mem, this`root
      ensures Holds(mem, root, Top, Plug(up, FixedFar(side, pc, t, pk, cParent, nb)), root)
      ensures Quiet(old(mem), mem, Span(up, Make(side, pc, t, pk, cParent, nb)))
    {
      hide Holds, Span, Quiet;
      ghost var p := Make(side, pc, t, pk, cParent, nb);
      ghost var ns := Span(up, p);
      HoleIs(mem, root, up, p, cParent, sn);
      FocusDown(mem, root, up, p, cParent, sn);
      ghost var down := Down(up, sn, pc, pk, cParent, t);
      HoleIs(mem, root, down, nb, cNeighbor, sn);
      if mem[mem[cNeighbor].Link(sn)].color == Red {
        PaintBelow(mem, root, down, nb, cNeighbor, sn, Black);
        SetColor(mem[cNeighbor].Link(sn), Black);
        ghost var m1, nb1 := mem, PaintChild(nb, sn, Black);
        FocusUp(mem, root, down, nb1, cNeighbor);
        ghost var p1 := Make(side, pc, t, pk, cParent, nb1);
        SwapBelow(mem, root, up, p1, cParent, sn);
        SwapColor(cParent, cNeighbor);
        ghost var m2 := mem;
        Rotate(cParent, sn.Other(), up, RbShape.SwapColor(p1, sn));
        HoldsPlug(mem, root, up, RbShape.Rotate(RbShape.SwapColor(p1, sn), side), cNeighbor);
        QuietTrans(old(mem), m1, m2, ns);
        QuietTrans(old(mem), m2, mem, ns);
      } else {
        HoldsPlug(mem, root, up, p, cParent);
        QuietRefl(mem, ns);
      }
    }

    /** adjustLeave with a red neighbour, which is first rotated away. */
    method AdjustRed(cParent: Ref, neighbor: Ref, s: Side, ghost up: Path<Ref>, ghost side: Side, ghost pc: Color,
                     ghost t: Shape<Ref>, ghost pk: int, ghost nb: Shape<Ref>) returns (ok: bool)
      requires nb.Bin? && neighbor == nb.node && nb.color == Red && s == side
      requires Holds(mem, root, up, Make(side, pc, t, pk, cParent, nb), cParent)
      modifies this`mem, this`root
      ensures ok <==> Child(nb, side).Bin?
      ensures ok ==>
                Holds(mem, root, Top,
                      Plug(up, Make(side, pc, RbShape.FixNeighbor(side, Red, t, pk, cParent, Child(nb, side)),
                                    nb.key, nb.node, Child(nb, side.Other()))), root)
      ensures Quiet(old(mem), mem, Span(up, Make(side, pc, t, pk, cParent, nb)))
    {
      hide Holds, Span, Quiet;
      ghost var p := Make(side, pc, t, pk, cParent, nb);
      ghost var ns := Span(up, p);
      SwapBelow(mem, root, up, p, cParent, side.Other());
      SwapColor(cParent, neighbor);
      ghost var m1 := mem;
      Rotate(cParent, s, up, RbShape.SwapColor(p, side.Other()));
      ghost var m2 := mem;
      QuietTrans(old(mem), m1, m2, ns);
      ghost var near, dist := Child(nb, side), Child(nb, side.Other());
      ghost var q := Make(side, Red, t, pk, cParent, near);
      ghost var g := Make(side, pc, q, nb.key, nb.node, dist);
      assert g == RbShape.Rotate(RbShape.SwapColor(p, side.Other()), side);
      ghost var up' := Down(up, side, pc, nb.key, nb.node, dist);
      FocusDown(mem, root, up, g, nb.node, side);
      HoleIs(mem, root, up, g, nb.node, side);
      HoleIs(mem, root, up', q, cParent, side.Other());
      NoLinks(mem, root, up', q, cParent, side.Other());
      var cNeighbor := mem[cParent].Link(s.Other());
      if mem[cNeighbor].left == NULL {
        return false;
      }
      FixNeighbor(cParent, cNeighbor, up', side, Red, t, pk, near);
      QuietTrans(old(mem), m2, mem, ns);
      return true;
    }

    /**
     Pay back the black node that the subtree `t` at `path` is short of; `x` may be the sentinel.  Where there is
     no neighbour, the links of the sentinel are read, which are null: `ok` is false.
     */
    method AdjustLeave(x: Ref, cParent: Ref, ghost path: Path<Ref>, ghost t: Shape<Ref>) returns (ok: bool)
      requires Holds(mem, root, path, t, x) && (path.Top? ==> t.Bin?) && cParent == Above(path)
      modifies this`mem, this`root
      ensures ok <==> Payable(path, t)
      ensures ok ==> Holds(mem, root, Top, RbShape.AdjustLeave(path, t), root)
      ensures Quiet(old(mem), mem, Span(path, t))
      decreases path
    {
      hide Holds, Span, Quiet;
      Neighbors(mem, root, path, t, x);
      QuietRefl(mem, Span(path, t));
      if cParent == NULL {
        PaintRoot(mem, root, path, t, x, Black);
        SetColor(x, Black);
        HoldsPlug(mem, root, path, t.(color := Black), x);
        return true;
      }
      if mem[x].color == Red {
        PaintRoot(mem, root, path, t, x, Black);
        SetColor(x, Black);
        HoldsPlug(mem, root, path, t.(color := Black), x);
        return true;
      }
      ghost var Down(up, side, pc, pk, pn, nb) := path;
      ghost var p, ns := Make(side, pc, t, pk, pn, nb), Span(path, t);
      FocusUp(mem, root, path, t, x);
      var s := WhichSide(cParent, x);
      var cNeighbor := mem[cParent].Link(s.Other());
      if mem[cNeighbor].color == Red {
        ok := AdjustRed(cParent, cNeighbor, s, up, side, pc, t, pk, nb);
        return;
      }
      if mem[cNeighbor].left == NULL {
        return false;
      }
      if mem[cParent].color == Black && mem[mem[cNeighbor].left].color == Black
          && mem[mem[cNeighbor].right].color == Black {
        PaintBelow(mem, root, up, p, cParent, side.Other(), Red);
        SetColor(cNeighbor, Red);
        ghost var m1 := mem;
        HoleIs(mem, root, up, PaintChild(p, side.Other(), Red), cParent, side);
        ok := AdjustLeave(cParent, mem[cParent].parent, up, PaintChild(p, side.Other(), Red));
        QuietTrans(old(mem), m1, mem, ns);
      } else {
        FixNeighbor(cParent, cNeighbor, up, side, pc, t, pk, nb);
        ok := true;
      }
    }

    method SearchMax(x: Ref, ghost path: Path<Ref>, ghost t: Shape<Ref>) returns (y: Ref)
      requires Holds(mem, root, path, t, x) && t.Bin?
      ensures y == Last(t).node
      decreases t
    {
      hide Holds;
      HoleIs(mem, root, path, t, x, Right);
      if mem[x].right != NIL {
        FocusDown(mem, root, path, t, x, Right);
        y := SearchMax(mem[x].right, Down(path, Right, t.color, t.key, t.node, t.left), t.right);
      } else {
        y := x;
      }
    }

    /** attach(node): the side is chosen by comparing keys. */
    method Attach(x: Ref, n: Ref)
      requires x in mem && n in mem
      modifies this`mem, this`root
      ensures mem == Attached(old(mem), x, SideByKey(old(mem), x, n), n) && root == old(root)
    {
      var s := if mem[n].key < mem[x].key then Left else Right;
      AttachAt(x, s, n);
    }

    /** detach(node): the side is found by comparing addresses, the right one first. */
    method Detach(x: Ref, n: Ref) returns (r: Ref)
      requires x in mem && x != NIL && mem[x].left in mem && mem[x].right in mem
      modifies this`mem, this`root
      ensures mem == DetachedNode(old(mem), x, n) && root == old(root)
    {
      if mem[x].right == n {
        r := DetachAt(x, Right);
      } else if mem[x].left == n {
        r := DetachAt(x, Left);
      } else {
        r := NULL;
      }
    }

    /** leave for a node without children. */
    method LeaveLeaf(x: Ref, ghost path: Path<Ref>, ghost t: Shape<Ref>) returns (ok: bool)
      requires Holds(mem, root, path, t, x) && t.Bin? && t.left.Nil? && t.right.Nil?
      modifies this`mem, this`root
      ensures ok <==> (t.color == Black && path.Down? ==> Payable(path, Nil))
      ensures ok ==> TreeIs(mem, root, Splice(path, t.color, Nil)) && Unlinked(mem, x)
      ensures ok ==> mem[x].key == t.key && mem[x].color == t.color
      ensures Quiet(old(mem), mem, Span(path, t))
    {
      hide Holds, Span, Quiet, Payable;
      HoleIs(mem, root, path, t, x, Left);
      HoleIs(mem, root, path, t, x, Right);
      var cParent := mem[x].parent;
      ok := true;
      if cParent != NULL {
        LeafOut(mem, root, path, t, x);
        var s := WhichSide(cParent, x);
        var _ := Detach(cParent, x);
        ghost var m1 := mem;
        if mem[x].color == Black {
          ok := AdjustLeave(mem[cParent].Link(s), cParent, path, Nil);
          QuietAt(m1, mem, Span(path, Nil), x);
          QuietInto(m1, mem, Span(path, Nil), Span(path, t));
          QuietTrans(old(mem), m1, mem, Span(path, t));
          if ok { AdjustLeaveBin(path, Nil); }
        } else {
          HoldsPlug(mem, root, path, Nil, NIL);
          PlugBin(path, Nil);
        }
      } else {
        QuietRefl(mem, Span(path, t));
        root := NULL;
      }
    }

    /** leave for a black node with one child, a red one, which takes its place or, after a tie, lands beside it. */
    method LeaveOne(x: Ref, ghost path: Path<Ref>, ghost t: Shape<Ref>, ghost cs: Side)
      requires Holds(mem, root, path, t, x) && t.Bin? && t.color == Black
      requires Child(t, cs).Bin? && Child(t, cs).color == Red && Child(t, cs.Other()).Nil?
      requires FitsOrTies(path, Child(t, cs).key)
      modifies this`mem, this`root
      ensures TreeIs(mem, root, Splice(Landing(path, Child(t, cs).key), Black, Child(t, cs)))
      ensures Unlinked(mem, x) && mem[x].key == t.key && mem[x].color == Black && Quiet(old(mem), mem, Span(path, t))
    {
      hide Holds, Span, Quiet;
      HoleIs(mem, root, path, t, x, Left);
      HoleIs(mem, root, path, t, x, Right);
      ghost var c, m0, root0 := Child(t, cs), mem, root;
      ghost var q := Landing(path, c.key);
      if LeftTie(path, c.key) { TieOut(mem, root, path, t, x, cs); } else { OneOut(mem, root, path, t, x, cs); }
      var cParent := mem[x].parent;
      var s := if mem[x].left == NIL then Right else Left;
      var cTarget := DetachAt(x, s);
      if cParent != NULL {
        var _ := Detach(cParent, x);
        Attach(cParent, cTarget);
      } else {
        root := cTarget;
      }
      ghost var m1 := mem;
      assert SpliceDone(m0, m1, root0, path, q, t, x, cs);
      if mem[x].color == Black {
        var _ := AdjustLeave(cTarget, cParent, q, c);
        QuietAt(m1, mem, Span(q, c), x);
        QuietInto(m1, mem, Span(q, c), Span(path, t));
        QuietTrans(m0, m1, mem, Span(path, t));
        AdjustLeaveBin(q, c);
      }
    }

    /** The first half of the exchange in leave: everything around `x` comes loose. */
    method SwapLoosen(x: Ref, cParent: Ref, cMax: Ref, ghost w: Swap) returns (cLeft: Ref, cRight: Ref)
      requires Ready(mem, w) && x == w.x && cMax == w.max && cParent == w.g
      modifies this`mem, this`root
      ensures cLeft == w.l && cRight == w.r && Loosened(old(mem), mem, w)
      ensures w.g != NULL ==> root == old(root)
    {
      hide Loosened, Loosen;
      ghost var m0 := mem;
      cLeft := DetachAt(x, Left);
      cRight := DetachAt(x, Right);
      ChildlessDone(m0, w);
      ghost var m1 := mem;
      var mLeft := DetachAt(cMax, Left);
      Attach(x, mLeft);
      HandedDone(m1, w);
      ghost var m2 := mem;
      if cParent != NULL {
        OrphanedDone(m2, w);
        var _ := Detach(cParent, x);
      } else {
        root := NULL;
      }
      LoosenDone(m0, w);
      assert mem == Loosen(m0, w) by { LoosenIs(m0, w); }
    }

    /** `x` goes below its new parent, and `cMax` gets the subtrees of `x`. */
    method SwapFill(x: Ref, cMax: Ref, mParent: Ref, cLeft: Ref, cRight: Ref, ghost m0: Mem, ghost w: Swap)
      requires Ready(m0, w) && Loosened(m0, mem, w)
      requires x == w.x && cMax == w.max && mParent == w.mp && cLeft == w.l && cRight == w.r
      requires w.max != w.l ==> !(m0[w.x].key < m0[w.mp].key)
      modifies this`mem, this`root
      ensures if w.max == w.l then mem == FilledNear(old(mem), w) else FarFilled(old(mem), mem, w)
      ensures root == old(root)
    {
      ghost var m1 := mem;
      if cMax != cLeft {
        var _ := Detach(mParent, cMax);
        Attach(mParent, x);
        UnderDone(m1, w);
        ghost var m2 := mem;
        AttachAt(cMax, Left, cLeft);
        AttachAt(cMax, Right, cRight);
        FilledFarDone(m2, w);
        FarFilledDone(m0, m1, w);
      } else {
        AttachAt(cMax, Right, cRight);
        AttachAt(cMax, Left, x);
        FilledNearDone(m1, w);
      }
    }

    /**
     The second half: `cMax` takes the place of `x`, and `x` the place of `cMax`; with a tie, on the other
     side of the parent.
     */
    method SwapHang(x: Ref, cParent: Ref, cMax: Ref, mParent: Ref, cLeft: Ref, cRight: Ref, ghost m0: Mem,
                    ghost w: Swap, ghost tie: bool)
      requires Ready(m0, w) && Loosened(m0, mem, w)
      requires x == w.x && cMax == w.max && cParent == w.g && mParent == w.mp && cLeft == w.l && cRight == w.r
      requires w.g != NULL ==> SideByKey(m0, w.g, w.max) == if tie then Right else w.side
      requires tie ==> w.g != NULL && w.side == Left && Ready(Rehung(m0, w.g, w.x), w.(side := Right))
      requires w.max != w.l ==> !(m0[w.x].key < m0[w.mp].key)
      modifies this`mem, this`root
      ensures if tie then Exchanged(Rehung(m0, w.g, w.x), mem, w.(side := Right)) else Exchanged(m0, mem, w)
      ensures root == if w.g == NULL then w.max else old(root)
    {
      hide Exchanged, FarFilled, Loosened;
      ghost var m1 := mem;
      SwapFill(x, cMax, mParent, cLeft, cRight, m0, w);
      ghost var m3 := mem;
      KeysKept(m0, m1, m3, w);
      HangDone(m0, m1, m3, w, tie);
      if cParent != NULL {
        Attach(cParent, cMax);
      } else {
        root := cMax;
      }
      assert mem == if tie then Attached(m3, w.g, Right, w.max) else Topped(m3, w);
      SwapColor(x, cMax);
    }

    /** The two-children case of leave up to its recursive call. */
    method SwapDown(x: Ref, ghost path: Path<Ref>, ghost t: Shape<Ref>)
      requires Holds(mem, root, path, t, x) && TwoChildren(t) && SwapFits(path, t)
      modifies this`mem, this`root
      ensures var q := SwapPath(Landing(path, Last(t.left).key), t);
              Holds(mem, root, q, Lowered(t, LowerSide(t)), x) && Span(q, Lowered(t, LowerSide(t))) <= Span(path, t)
      ensures Quiet(old(mem), mem, Span(path, t))
    {
      hide Holds, Span, Quiet, Ready, Exchanged, Loosened;
      ghost var m0, root0 := mem, root;
      HoleIs(mem, root, path, t, x, Left);
      FocusDown(mem, root, path, t, x, Left);
      SwapPoints(mem, root, path, t, x);
      SwapKeys(mem, root, path, t, x);
      SwapStarts(mem, root, path, t, x);
      ghost var w, p, ms := SwapOf(mem, path, t), Landing(path, Last(t.left).key), SwapStart(mem, path, t);
      var cParent := mem[x].parent;
      var cMax := SearchMax(mem[x].left, Down(path, Left, t.color, t.key, t.node, t.right), t.left);
      var mParent := mem[cMax].parent;
      var cLeft, cRight := SwapLoosen(x, cParent, cMax, w);
      SwapHang(x, cParent, cMax, mParent, cLeft, cRight, m0, w, LeftTie(path, Last(t.left).key));
      ExchangeHolds(ms, mem, root0, p, t, x);
      ghost var t2 := SwappedShape(t, LowerSide(t));
      HoleIs(mem, root, p, t2, cMax, Left);
      FocusDown(mem, root, p, t2, cMax, Left);
      FocusReplaced(mem, root, Down(p, Left, t2.color, t2.key, t2.node, t2.right), t.left, Lowered(t, LowerSide(t)),
          mem[cMax].left);
      QuietInto(ms, mem, Span(p, t), Span(path, t));
      QuietTrans(m0, ms, mem, Span(path, t));
    }

    /** Take `x` out of the tree and repair the black heights; `ok` is false where adjustLeave reads a null link. */
    method Leave(x: Ref, ghost path: Path<Ref>, ghost t: Shape<Ref>) returns (ok: bool)
      requires Holds(mem, root, path, t, x) && t.Bin? && Leavable(path, t)
      modifies this`mem, this`root
      ensures ok <==> Survives(path, t)
      ensures ok ==> TreeIs(mem, root, LeaveTied(path, t)) && Unlinked(mem, x)
      ensures ok ==> mem[x].key == t.key && mem[x].color == OutColor(t)
      ensures Quiet(old(mem), mem, Span(path, t))
      decreases if TwoChildren(t) then 1 else 0
    {
      hide Holds, Span, Quiet, TreeIs, Payable;
      HoleIs(mem, root, path, t, x, Left);
      HoleIs(mem, root, path, t, x, Right);
      if mem[x].left == NIL && mem[x].right == NIL {
        ok := LeaveLeaf(x, path, t);
      } else if mem[x].left == NIL || mem[x].right == NIL {
        LeaveOne(x, path, t, if t.left.Nil? then Right else Left);
        RedPays(path, t);
        ok := true;
      } else {
        ghost var u, q := Lowered(t, LowerSide(t)), SwapPath(Landing(path, Last(t.left).key), t);
        SwapDown(x, path, t);
        ghost var m1 := mem;
        LoweredOut(path, t);
        ok := Leave(x, q, u);
        QuietInto(m1, mem, Span(q, u), Span(path, t));
        QuietTrans(old(mem), m1, mem, Span(path, t));
      }
    }

    /** RBTree::insert. */
    method Insert(node: Ref) returns (ok: bool)
      requires Valid() && Unlinked(mem, node) && !mem[node].attached
      modifies this`mem, this`root, this`shape
      ensures ok && TreeIs(mem, root, shape)
      ensures var c := old(mem)[node]; shape == RbShape.Insert(old(shape), c.color, c.key, node)
      ensures Sorted(InOrder(shape)) && Nodes(shape) == Nodes(old(shape)) + {node}
      ensures RedBlack(shape) <==> old(mem)[node].color == Red || old(shape).Nil?
      ensures RedBlack(shape) ==> Valid()
      ensures Quiet(old(mem), mem, Nodes(old(shape)) + {node})
    {
      hide Holds, RedBlack, Sorted, Nodes, Span;
      ghost var c, m0 := mem[node], mem;
      InsertFacts(shape, c.color, c.key, node);
      TreeNil(mem, root, shape);
      AttachedElsewhere(mem, root, shape, node);
      mem := mem[node := mem[node].(attached := true)];
      if root != NULL {
        ghost var m1 := mem;
        ok := InsertBelow(root, node, Top, shape);
        QuietTrans(m0, m1, mem, Nodes(shape) + {node});
      } else {
        root := node;
        SetColor(node, Black);
        RootOnly(mem, node);
        ok := true;
      }
      shape := RbShape.Insert(shape, c.color, c.key, node);
    }

    /**
     RBTree::remove.  The colour of the node stays as leave set it.  The outcome `fault` stands for the read
     through a null link that adjustLeave then makes.
     */
    method Remove(node: Ref) returns (ok: bool, fault: bool)
      requires Valid() && (node == NULL || node in mem)
      modifies this`mem, this`root, this`shape
      ensures ok || fault <==> old(root) != NULL && node != NULL && old(mem)[node].attached
      ensures ok || fault ==> node in Nodes(old(shape)) && !(ok && fault)
      ensures !ok && !fault ==> mem == old(mem) && root == old(root) && shape == old(shape)
      ensures ok || fault ==>
                (ok <==> Survives(PlaceOf(Top, old(shape), node).0, PlaceOf(Top, old(shape), node).1))
      ensures ok ==> TreeIs(mem, root, shape)
      ensures ok ==> (Without(InOrder(old(shape)), node, InOrder(shape)) <==> Removable(old(shape), node))
      ensures Removable(old(shape), node) ==> Valid() && !fault
      ensures ok ==> Unlinked(mem, node) && !mem[node].attached && mem[node].key == old(mem)[node].key
      ensures ok ==> mem[node].color == OutColor(PlaceOf(Top, old(shape), node).1)
      ensures Quiet(old(mem), mem, Nodes(old(shape)))
    {
      hide Holds, RedBlack, Sorted, Nodes, Span, TreeIs, PlaceOf, KeysFit, Survives, LeaveTied;
      QuietRefl(mem, Nodes(shape));
      ok, fault := false, false;
      if root == NULL || node == NULL || !mem[node].attached {
        return;
      }
      ghost var m0 := mem;
      TreeApart(mem, root, shape);
      TreeHolds(mem, root, shape);
      Locate(mem, root, Top, shape, root, node);
      ghost var (path, t) := PlaceOf(Top, shape, node);
      HoleIs(mem, root, path, t, node, Left);
      RemoveFacts(shape, path, t);
      ok := Leave(node, path, t);
      if !ok {
        fault := true;
        return;
      }
      ghost var m1 := mem;
      mem := mem[node := mem[node].(left := NIL, right := NIL)];
      mem := mem[node := mem[node].(attached := false)];
      shape := LeaveTied(path, t);
      TreeElsewhere(m1, mem, root, shape, node);
    }

    method SearchMin(x: Ref, ghost path: Path<Ref>, ghost t: Shape<Ref>) returns (y: Ref)
      requires Holds(mem, root, path, t, x) && t.Bin?
      ensures y == First(t).node
      decreases t
    {
      hide Holds;
      HoleIs(mem, root, path, t, x, Left);
      if mem[x].left != NIL {
        FocusDown(mem, root, path, t, x, Left);
        y := SearchMin(mem[x].left, Down(path, Left, t.color, t.key, t.node, t.right), t.left);
      } else {
        y := x;
      }
    }

    /** RBTree::min: the object of a node with a least key, NULL when the tree is empty. */
    method Min() returns (r: Option)
      requires Valid()
      ensures r.None? <==> shape.Nil?
      ensures r.Some? ==> exists i :: 0 <= i < |InOrder(shape)| && IsLeast(InOrder(shape), i)
                                      && InOrder(shape)[i].node in obj && r.value == obj[InOrder(shape)[i].node]
    {
      if root == NULL {
        return None;
      }
      TreeAttached(mem, root, shape);
      FirstInOrder(shape);
      NodesInOrder(shape);
      assert InOrder(shape)[0] in InOrder(shape);
      var y := SearchMin(root, Top, shape);
      assert IsLeast(InOrder(shape), 0);
      return Some(obj[y]);
    }

    method LookupNode(x: Ref, k: int, ghost path: Path<Ref>, ghost t: Shape<Ref>) returns (y: Ref)
      requires Holds(mem, root, path, t, x) && t.Bin?
      ensures y == if Find(t, k).Bin? then Find(t, k).node else NULL
      decreases t
    {
      hide Holds;
      HoleIs(mem, root, path, t, x, Left);
      if mem[x].key == k {
        return x;
      }
      var s := if k < mem[x].key then Left else Right;
      HoleIs(mem, root, path, t, x, s);
      if mem[x].Link(s) == NIL {
        return NULL;
      }
      FocusDown(mem, root, path, t, x, s);
      y := LookupNode(mem[x].Link(s), k, Down(path, s, t.color, t.key, t.node, Child(t, s.Other())), Child(t, s));
    }

    /** RBTree::lookup. */
    method Lookup(k: int) returns (r: Option)
      requires Valid()
      ensures r.Some? <==> exists e :: e in InOrder(shape) && e.key == k
      ensures r.Some? ==> exists e :: e in InOrder(shape) && e.key == k && e.node in obj && r.value == obj[e.node]
    {
      FindComplete(shape, k);
      if root == NULL {
        return None;
      }
      TreeAttached(mem, root, shape);
      NodesInOrder(shape);
      var y := LookupNode(root, k, Top, shape);
      if y == NULL {
        return None;
      }
      assert Entry(k, y) in InOrder(shape) && y in Nodes(shape);
      return Some(obj[y]);
    }
  }

  /**
   A node that was alone in a tree keeps the black colour of a root when it is taken out.  Put in again beside
   another node, it breaks the red-black rules.
   */
  method ReuseUnbalances(tree: Tree, a: Ref, b: Ref)
    requires tree.Valid() && tree.shape.Nil? && a != b
    requires Unlinked(tree.mem, a) && !tree.mem[a].attached && tree.mem[a].color == Red
    requires Unlinked(tree.mem, b) && !tree.mem[b].attached
    modifies tree
    ensures TreeIs(tree.mem, tree.root, tree.shape) && Nodes(tree.shape) == {a, b} && !RedBlack(tree.shape)
  {
    ghost var ka := tree.mem[a].key;
    var _ := tree.Insert(a);
    assert tree.shape == Bin(Black, Nil, ka, a, Nil);
    assert KeysFit(Top, tree.shape);
    var ok, _ := tree.Remove(a);
    assert tree.mem[a].color == Black && tree.shape.Nil?;
    var _ := tree.Insert(b);
    assert tree.shape.Bin? && Nodes(tree.shape) == {b};
    var _ := tree.Insert(a);
  }
}
