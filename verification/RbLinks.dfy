/** Red-black trees in memory: which tree the child, parent and colour fields describe, and the rotations. */
module RbLinks {
  import opened RbTree

  /** RB_HEAD. */
  class Head {
    var root: Node?

    constructor ()
      ensures root == null
    {
      root := null;
    }
  }

  ghost function Nodes(t: Tree): set<Node> {
    match t
    case Leaf => {}
    case Bin(l, n, _, r) => Nodes(l) + {n} + Nodes(r)
  }

  ghost function CtxNodes(c: Ctx): set<Node> {
    match c
    case Top => {}
    case Left(up, n, _, r) => CtxNodes(up) + {n} + Nodes(r)
    case Right(up, l, n, _) => CtxNodes(up) + {n} + Nodes(l)
  }

  /** No node occurs twice. */
  ghost predicate Apart(t: Tree) {
    match t
    case Leaf => true
    case Bin(l, n, _, r) =>
      n !in Nodes(l) && n !in Nodes(r) && Nodes(l) !! Nodes(r) && Apart(l) && Apart(r)
  }

  ghost predicate CtxApart(c: Ctx) {
    match c
    case Top => true
    case Left(up, n, _, r) =>
      n !in CtxNodes(up) && n !in Nodes(r) && CtxNodes(up) !! Nodes(r) && Apart(r) && CtxApart(up)
    case Right(up, l, n, _) =>
      n !in CtxNodes(up) && n !in Nodes(l) && CtxNodes(up) !! Nodes(l) && Apart(l) && CtxApart(up)
  }

  function RootOf(t: Tree): Node? {
    if t.Leaf? then null else t.node
  }

  function ParentOf(c: Ctx): Node? {
    if c.Top? then null else c.node
  }

  // ---------------------------------------------------------------------------
  // Snapshots of memory

  datatype Fields = Fields(left: Node?, right: Node?, parent: Node?, color: Color)

  type Store = map<Node, Fields>

  ghost function Snap(s: set<Node>): Store
    reads s
  {
    map n | n in s :: Fields(n.left, n.right, n.parent, n.color)
  }

  /** The fields of the nodes of `t` describe `t`, hanging under `up`. */
  ghost predicate Links(m: Store, t: Tree, up: Node?) {
    match t
    case Leaf => true
    case Bin(l, n, k, r) =>
      n in m && m[n] == Fields(RootOf(l), RootOf(r), up, k) && Links(m, l, n) && Links(m, r, n)
  }

  /** The fields of the nodes of `c` describe `c` around a subtree rooted at `child`. */
  ghost predicate CtxLinks(m: Store, c: Ctx, child: Node?, root: Node?) {
    match c
    case Top => root == child
    case Left(up, n, k, r) =>
      && n in m && m[n] == Fields(child, RootOf(r), ParentOf(up), k)
      && Links(m, r, n) && CtxLinks(m, up, n, root)
    case Right(up, l, n, k) =>
      && n in m && m[n] == Fields(RootOf(l), child, ParentOf(up), k)
      && Links(m, l, n) && CtxLinks(m, up, n, root)
  }

  ghost predicate Stored(m: Store, root: Node?, c: Ctx, t: Tree) {
    && Apart(t) && CtxApart(c) && CtxNodes(c) !! Nodes(t)
    && Links(m, t, ParentOf(c)) && CtxLinks(m, c, RootOf(t), root)
  }

  /** Memory holds the tree Plug(c, t), seen from the subtree `t`. */
  ghost predicate Holds(head: Head, c: Ctx, t: Tree)
    reads head, CtxNodes(c), Nodes(t)
  {
    Stored(Snap(CtxNodes(c) + Nodes(t)), head.root, c, t)
  }

  // ---------------------------------------------------------------------------
  // Framing

  ghost predicate Same(m: Store, m1: Store, s: set<Node>) {
    forall n :: n in s && n in m ==> n in m1 && m1[n] == m[n]
  }

  lemma {:induction false} LinksKept(m: Store, m1: Store, t: Tree, up: Node?)
    requires Links(m, t, up) && Same(m, m1, Nodes(t))
    ensures Links(m1, t, up)
  {
    match t
    case Leaf =>
    case Bin(l, n, k, r) =>
      LinksKept(m, m1, l, n);
      LinksKept(m, m1, r, n);
  }

  lemma {:induction false} CtxKept(m: Store, m1: Store, c: Ctx, child: Node?, root: Node?)
    requires CtxLinks(m, c, child, root) && Same(m, m1, CtxNodes(c))
    ensures CtxLinks(m1, c, child, root)
    decreases c
  {
    match c
    case Top =>
    case Left(up, n, k, r) =>
      LinksKept(m, m1, r, n);
      CtxKept(m, m1, up, n, root);
    case Right(up, l, n, k) =>
      LinksKept(m, m1, l, n);
      CtxKept(m, m1, up, n, root);
  }

  /** Only the parent field of the root of `t` changed, to `p`. */
  lemma {:induction false} Adopted(m: Store, m1: Store, t: Tree, up: Node?, p: Node?)
    requires Links(m, t, up) && Apart(t) && Same(m, m1, Nodes(t) - if t.Bin? then {t.node} else {})
    requires t.Bin? ==> t.node in m1 && m1[t.node] == m[t.node].(parent := p)
    ensures Links(m1, t, p)
  {
    if t.Bin? {
      LinksKept(m, m1, t.left, t.node);
      LinksKept(m, m1, t.right, t.node);
    }
  }

  /** The fields of the parent after its link to `child` was turned to `other`. */
  ghost function Turned(f: Fields, c: Ctx, other: Node?): Fields {
    if c.Left? then f.(left := other) else f.(right := other)
  }

  /** Only the link to the subtree changed, from `child` to `other`. */
  lemma {:induction false} Relinked(m: Store, m1: Store, c: Ctx, child: Node?, other: Node?, root: Node?, root1: Node?)
    requires CtxLinks(m, c, child, root) && CtxApart(c)
    requires Same(m, m1, CtxNodes(c) - if c.Top? then {} else {c.node})
    requires if c.Top? then root1 == other else root1 == root && c.node in m1 && m1[c.node] == Turned(m[c.node], c, other)
    ensures CtxLinks(m1, c, other, root1)
  {
    if c.Left? {
      LinksKept(m, m1, c.right, c.node);
      CtxKept(m, m1, c.up, c.node, root);
    } else if c.Right? {
      LinksKept(m, m1, c.left, c.node);
      CtxKept(m, m1, c.up, c.node, root);
    }
  }

  // ---------------------------------------------------------------------------
  // Moving the view

  lemma {:induction false} MoveLeft(m: Store, root: Node?, c: Ctx, t: Tree)
    requires t.Bin?
    ensures Stored(m, root, c, t) <==> Stored(m, root, Left(c, t.node, t.color, t.right), t.left)
    ensures CtxNodes(c) + Nodes(t) == CtxNodes(Left(c, t.node, t.color, t.right)) + Nodes(t.left)
  {
  }

  lemma {:induction false} MoveRight(m: Store, root: Node?, c: Ctx, t: Tree)
    requires t.Bin?
    ensures Stored(m, root, c, t) <==> Stored(m, root, Right(c, t.left, t.node, t.color), t.right)
    ensures CtxNodes(c) + Nodes(t) == CtxNodes(Right(c, t.left, t.node, t.color)) + Nodes(t.right)
  {
  }

  /** The view does not matter: the whole tree is in memory. */
  lemma {:induction false} Zip(head: Head, c: Ctx, t: Tree)
    ensures Holds(head, c, t) <==> Holds(head, Top, Plug(c, t))
    ensures CtxNodes(c) + Nodes(t) == Nodes(Plug(c, t))
    decreases c
  {
    hide Stored, Snap;
    match c
    case Top =>
      assert CtxNodes(c) + Nodes(t) == Nodes(t);
    case Left(up, n, k, r) =>
      MoveLeft(Snap(CtxNodes(c) + Nodes(t)), head.root, up, Bin(t, n, k, r));
      Zip(head, up, Bin(t, n, k, r));
    case Right(up, l, n, k) =>
      MoveRight(Snap(CtxNodes(c) + Nodes(t)), head.root, up, Bin(l, n, k, t));
      Zip(head, up, Bin(l, n, k, t));
  }

  /** The view one level up. */
  lemma {:induction false} Up(head: Head, c: Ctx, t: Tree)
    requires !c.Top?
    ensures Holds(head, c, t) <==> Holds(head, c.up, Plug1(c, t))
    ensures CtxNodes(c) + Nodes(t) == CtxNodes(c.up) + Nodes(Plug1(c, t))
  {
    hide Stored, Snap;
    if c.Left? {
      MoveLeft(Snap(CtxNodes(c) + Nodes(t)), head.root, c.up, Plug1(c, t));
    } else {
      MoveRight(Snap(CtxNodes(c) + Nodes(t)), head.root, c.up, Plug1(c, t));
    }
  }

  /** The nodes of the whole tree. */
  ghost function All(c: Ctx, t: Tree): set<Node> {
    CtxNodes(c) + Nodes(t)
  }

  // ---------------------------------------------------------------------------
  // Rotations

  ghost function RotatedLeft(t: Tree): Tree
    requires t.Bin? && t.right.Bin?
  {
    var y := t.right;
    Bin(Bin(t.left, t.node, t.color, y.left), y.node, y.color, y.right)
  }

  ghost function RotatedRight(t: Tree): Tree
    requires t.Bin? && t.left.Bin?
  {
    var y := t.left;
    Bin(y.left, y.node, y.color, Bin(y.right, t.node, t.color, t.right))
  }

  /** What a rotation that lifts `tmp` over `elm` does to one node: the subtree `b` between them changes sides. */
  ghost function Lifted(f: Fields, n: Node, elm: Node, tmp: Node, b: Tree, c: Ctx, toLeft: bool): Fields {
    if n == elm then
      if toLeft then f.(right := RootOf(b), parent := tmp) else f.(left := RootOf(b), parent := tmp)
    else if n == tmp then
      if toLeft then f.(left := elm, parent := ParentOf(c)) else f.(right := elm, parent := ParentOf(c))
    else if b.Bin? && n == b.node then
      f.(parent := elm)
    else if !c.Top? && n == c.node then
      Turned(f, c, tmp)
    else
      f
  }

  ghost predicate LiftedStore(m: Store, m1: Store, elm: Node, tmp: Node, b: Tree, c: Ctx, toLeft: bool) {
    m1.Keys == m.Keys && forall n :: n in m ==> m1[n] == Lifted(m[n], n, elm, tmp, b, c, toLeft)
  }

  lemma {:induction false} LiftedFrom(m: Store, m1: Store, elm: Node, tmp: Node, b: Tree, c: Ctx, toLeft: bool)
    requires m1.Keys == m.Keys && elm in m && tmp in m && elm != tmp
    requires m1[elm] == Lifted(m[elm], elm, elm, tmp, b, c, toLeft)
    requires m1[tmp] == Lifted(m[tmp], tmp, elm, tmp, b, c, toLeft)
    requires b.Bin? ==> b.node in m && m1[b.node] == m[b.node].(parent := elm) && b.node != elm && b.node != tmp
    requires !c.Top? ==> c.node in m && m1[c.node] == Turned(m[c.node], c, tmp) && c.node != elm && c.node != tmp
    requires !c.Top? && b.Bin? ==> c.node != b.node
    requires forall n :: n in m && n != elm && n != tmp && n != RootOf(b) && n != ParentOf(c) ==> m1[n] == m[n]
    ensures LiftedStore(m, m1, elm, tmp, b, c, toLeft)
  {
  }

  lemma {:induction false} RootIn(t: Tree, c: Ctx)
    ensures t.Bin? ==> t.node in Nodes(t)
    ensures !c.Top? ==> c.node in CtxNodes(c)
  {
  }

  /** One level of a tree. */
  lemma {:induction false} Open(m: Store, t: Tree, up: Node?)
    requires t.Bin? && Apart(t) && Links(m, t, up)
    ensures Nodes(t) == Nodes(t.left) + {t.node} + Nodes(t.right)
    ensures t.node !in Nodes(t.left) && t.node !in Nodes(t.right) && Nodes(t.left) !! Nodes(t.right)
    ensures Apart(t.left) && Apart(t.right) && Links(m, t.left, t.node) && Links(m, t.right, t.node)
    ensures t.node in m && m[t.node] == Fields(RootOf(t.left), RootOf(t.right), up, t.color)
  {
  }

  lemma {:induction false} Close(m: Store, l: Tree, n: Node, k: Color, r: Tree, up: Node?)
    requires n !in Nodes(l) && n !in Nodes(r) && Nodes(l) !! Nodes(r) && Apart(l) && Apart(r)
    requires Links(m, l, n) && Links(m, r, n)
    requires n in m && m[n] == Fields(RootOf(l), RootOf(r), up, k)
    ensures Apart(Bin(l, n, k, r)) && Links(m, Bin(l, n, k, r), up)
    ensures Nodes(Bin(l, n, k, r)) == Nodes(l) + {n} + Nodes(r)
  {
  }

  lemma {:induction false} ParentFields(m: Store, c: Ctx, child: Node?, root: Node?)
    requires !c.Top? && CtxLinks(m, c, child, root)
    ensures c.node in m && c.node in CtxNodes(c)
  {
  }

  lemma {:induction false} RotateLeftStored(m: Store, m1: Store, root: Node?, root1: Node?, c: Ctx, t: Tree)
    requires Stored(m, root, c, t) && t.Bin? && t.right.Bin?
    requires LiftedStore(m, m1, t.node, t.right.node, t.right.left, c, true)
    requires root1 == if c.Top? then t.right.node else root
    ensures Stored(m1, root1, c, RotatedLeft(t))
    ensures Nodes(RotatedLeft(t)) == Nodes(t)
  {
    hide Links, CtxLinks, Nodes, CtxNodes, Apart, CtxApart;
    var x, y, a, b, d := t.node, t.right.node, t.left, t.right.left, t.right.right;
    RootIn(b, c);
    Open(m, t, ParentOf(c));
    Open(m, t.right, x);
    if !c.Top? { ParentFields(m, c, x, root); }
    LinksKept(m, m1, a, x);
    Adopted(m, m1, b, y, x);
    LinksKept(m, m1, d, y);
    Relinked(m, m1, c, x, y, root, root1);
    Close(m1, a, x, t.color, b, y);
    Close(m1, Bin(a, x, t.color, b), y, t.right.color, d, ParentOf(c));
  }

  lemma {:induction false} RotateRightStored(m: Store, m1: Store, root: Node?, root1: Node?, c: Ctx, t: Tree)
    requires Stored(m, root, c, t) && t.Bin? && t.left.Bin?
    requires LiftedStore(m, m1, t.node, t.left.node, t.left.right, c, false)
    requires root1 == if c.Top? then t.left.node else root
    ensures Stored(m1, root1, c, RotatedRight(t))
    ensures Nodes(RotatedRight(t)) == Nodes(t)
  {
    hide Links, CtxLinks, Nodes, CtxNodes, Apart, CtxApart;
    var x, y, a, b, d := t.node, t.left.node, t.left.left, t.left.right, t.right;
    RootIn(b, c);
    Open(m, t, ParentOf(c));
    Open(m, t.left, x);
    if !c.Top? { ParentFields(m, c, x, root); }
    LinksKept(m, m1, a, y);
    Adopted(m, m1, b, y, x);
    LinksKept(m, m1, d, x);
    Relinked(m, m1, c, x, y, root, root1);
    Close(m1, b, x, t.color, d, y);
    Close(m1, a, y, t.left.color, Bin(b, x, t.color, d), ParentOf(c));
  }

  /** What memory says around the root of the subtree in view. */
  lemma {:induction false} Around(head: Head, c: Ctx, t: Tree)
    requires Holds(head, c, t) && t.Bin?
    ensures t.node in Nodes(t) && t.node.left == RootOf(t.left) && t.node.right == RootOf(t.right)
    ensures t.node.parent == ParentOf(c) && t.node.color == t.color
    ensures t.left.Bin? ==> t.left.node in Nodes(t) && t.left.node != t.node
    ensures t.right.Bin? ==> t.right.node in Nodes(t) && t.right.node != t.node
    ensures c.Top? ==> head.root == t.node
    ensures !c.Top? ==> c.node in CtxNodes(c) && c.node !in Nodes(t) && c.node.color == c.color
    ensures !c.Top? ==> c.node.parent == ParentOf(c.up)
    ensures c.Left? ==> c.node.left == t.node && c.node.right == RootOf(c.right) && c.node.right != t.node
    ensures c.Right? ==> c.node.right == t.node && c.node.left == RootOf(c.left) && c.node.left != t.node
  {
    RootIn(t.left, c);
    RootIn(t.right, c);
    if c.Left? { RootIn(c.right, c); }
    if c.Right? { RootIn(c.left, c); }
  }

  /** What memory says about the sibling of the subtree in view. */
  lemma {:induction false} SiblingFields(head: Head, c: Ctx, t: Tree)
    requires Holds(head, c, t) && !c.Top? && Sibling(c).Bin?
    ensures var u := Sibling(c);
            && u.node in All(c, t) && u.node.color == u.color && u.node.parent == c.node
            && u.node.left == RootOf(u.left) && u.node.right == RootOf(u.right)
            && u.node != c.node && (t.Bin? ==> u.node != t.node)
            && (u.left.Bin? ==> u.left.node in All(c, t)) && (u.right.Bin? ==> u.right.node in All(c, t))
  {
    var u, m := Sibling(c), Snap(CtxNodes(c) + Nodes(t));
    RootIn(u, c);
    RootIn(u.left, c);
    RootIn(u.right, c);
    RootIn(t, c);
    assert Links(m, u, c.node);
    assert Nodes(u) <= CtxNodes(c);
    assert Nodes(u.left) <= Nodes(u) && Nodes(u.right) <= Nodes(u);
  }

  lemma {:induction false} AroundBelow(head: Head, c: Ctx, t: Tree)
    requires Holds(head, c, t) && t.Bin?
    ensures t.left.Bin? ==>
              && t.left.node.left == RootOf(t.left.left) && t.left.node.right == RootOf(t.left.right)
              && t.left.node.parent == t.node && t.left.node.color == t.left.color
              && (t.left.left.Bin? ==> t.left.left.node in Nodes(t) && t.left.left.node !in {t.node, t.left.node})
              && (t.left.right.Bin? ==> t.left.right.node in Nodes(t) && t.left.right.node !in {t.node, t.left.node})
    ensures t.right.Bin? ==>
              && t.right.node.left == RootOf(t.right.left) && t.right.node.right == RootOf(t.right.right)
              && t.right.node.parent == t.node && t.right.node.color == t.right.color
              && (t.right.left.Bin? ==> t.right.left.node in Nodes(t) && t.right.left.node !in {t.node, t.right.node})
              && (t.right.right.Bin? ==> t.right.right.node in Nodes(t) && t.right.right.node !in {t.node, t.right.node})
  {
    var m := Snap(CtxNodes(c) + Nodes(t));
    if t.left.Bin? {
      RootIn(t.left.left, c);
      RootIn(t.left.right, c);
      assert Links(m, t.left, t.node) && Apart(t.left);
      assert Nodes(t.left) <= Nodes(t);
      assert t.left.node in Nodes(t);
    }
    if t.right.Bin? {
      RootIn(t.right.left, c);
      RootIn(t.right.right, c);
      assert Links(m, t.right, t.node) && Apart(t.right);
      assert Nodes(t.right) <= Nodes(t);
      assert t.right.node in Nodes(t);
    }
  }

  /** The link that points to `child`, in its parent or in the head, is turned to `other`. */
  method Turn(head: Head, parent: Node?, child: Node, other: Node?)
    requires parent != null ==> parent.left == child || parent.right == child
    modifies if parent == null then {head as object} else {parent as object}
    ensures if parent == null then head.root == other
            else
              && parent.left == (if old(parent.left) == child then other else old(parent.left))
              && parent.right == (if old(parent.left) == child then old(parent.right) else other)
              && parent.parent == old(parent.parent) && parent.color == old(parent.color)
  {
    if parent != null {
      if child == parent.left {
        parent.left := other;
      } else {
        parent.right := other;
      }
    } else {
      head.root := other;
    }
  }

  /** A child, if there is one, gets a new parent. */
  method Adopt(child: Node?, parent: Node)
    modifies if child == null then {} else {child as object}
    ensures child != null ==> child.parent == parent && child.left == old(child.left) && child.right == old(child.right)
                              && child.color == old(child.color)
  {
    if child != null {
      child.parent := parent;
    }
  }

  /** `tmp` is a child of `elm`, `b` the subtree between them, and the fields around say so. */
  ghost predicate Liftable(head: Head, elm: Node, tmp: Node, b: Tree, c: Ctx, all: set<Node>)
    reads head, all
  {
    && elm in all && tmp in all && elm != tmp
    && elm.parent == ParentOf(c)
    && (b.Bin? ==> b.node in all && b.node != elm && b.node != tmp)
    && (c.Top? ==> head.root == elm)
    && (!c.Top? ==> c.node in all && c.node != elm && c.node != tmp && c.node != RootOf(b))
    && (c.Left? ==> c.node.left == elm)
    && (c.Right? ==> c.node.right == elm && c.node.left != elm)
  }

  /** The pointer updates of RB_ROTATE_LEFT. */
  method SwingLeft(head: Head, elm: Node, ghost b: Tree, ghost c: Ctx, ghost all: set<Node>)
    requires elm in all && elm.right != null && Liftable(head, elm, elm.right, b, c, all)
    requires elm.right.left == RootOf(b)
    modifies head, all
    ensures LiftedStore(old(Snap(all)), Snap(all), elm, old(elm.right), b, c, true)
    ensures head.root == if c.Top? then old(elm.right) else old(head.root)
  {
    hide LiftedStore;
    ghost var m := Snap(all);
    var tmp := elm.right;
    elm.right := tmp.left;
    Adopt(tmp.left, elm);
    tmp.parent := elm.parent;
    Turn(head, elm.parent, elm, tmp);
    tmp.left := elm;
    elm.parent := tmp;
    LiftedFrom(m, Snap(all), elm, tmp, b, c, true);
  }

  /** The pointer updates of RB_ROTATE_RIGHT. */
  method SwingRight(head: Head, elm: Node, ghost b: Tree, ghost c: Ctx, ghost all: set<Node>)
    requires elm in all && elm.left != null && Liftable(head, elm, elm.left, b, c, all)
    requires elm.left.right == RootOf(b)
    modifies head, all
    ensures LiftedStore(old(Snap(all)), Snap(all), elm, old(elm.left), b, c, false)
    ensures head.root == if c.Top? then old(elm.left) else old(head.root)
  {
    hide LiftedStore;
    ghost var m := Snap(all);
    var tmp := elm.left;
    elm.left := tmp.right;
    Adopt(tmp.right, elm);
    tmp.parent := elm.parent;
    Turn(head, elm.parent, elm, tmp);
    tmp.right := elm;
    elm.parent := tmp;
    LiftedFrom(m, Snap(all), elm, tmp, b, c, false);
  }

  /** RB_ROTATE_LEFT at `elm`: Bin(a, elm, Bin(b, tmp, d)) becomes Bin(Bin(a, elm, b), tmp, d). */
  method RotateLeft(head: Head, elm: Node, ghost c: Ctx, ghost t: Tree)
    requires Holds(head, c, t) && t.Bin? && t.node == elm && t.right.Bin?
    modifies head, CtxNodes(c), Nodes(t)
    ensures Holds(head, c, RotatedLeft(t)) && Nodes(RotatedLeft(t)) == Nodes(t)
  {
    hide Stored, Nodes, CtxNodes, LiftedStore;
    ghost var all := CtxNodes(c) + Nodes(t);
    ghost var m, root := Snap(all), head.root;
    Around(head, c, t);
    AroundBelow(head, c, t);
    SwingLeft(head, elm, t.right.left, c, all);
    RotateLeftStored(m, Snap(all), root, head.root, c, t);
  }

  /** RB_ROTATE_RIGHT at `elm`: Bin(Bin(a, tmp, b), elm, d) becomes Bin(a, tmp, Bin(b, elm, d)). */
  method RotateRight(head: Head, elm: Node, ghost c: Ctx, ghost t: Tree)
    requires Holds(head, c, t) && t.Bin? && t.node == elm && t.left.Bin?
    modifies head, CtxNodes(c), Nodes(t)
    ensures Holds(head, c, RotatedRight(t)) && Nodes(RotatedRight(t)) == Nodes(t)
  {
    hide Stored, Nodes, CtxNodes, LiftedStore;
    ghost var all := CtxNodes(c) + Nodes(t);
    ghost var m, root := Snap(all), head.root;
    Around(head, c, t);
    AroundBelow(head, c, t);
    SwingRight(head, elm, t.left.right, c, all);
    RotateRightStored(m, Snap(all), root, head.root, c, t);
  }
}
