/** RB_INSERT and RB_INSERT_COLOR. */
module RbInsert {
  import opened RbTree
  import opened RbLinks

  /** The root of the subtree in view gets the colour `k`. */
  method Paint(head: Head, n: Node, k: Color, ghost c: Ctx, ghost t: Tree)
    requires Holds(head, c, t) && t.Bin? && t.node == n
    modifies n
    ensures Holds(head, c, t.(color := k)) && Nodes(t.(color := k)) == Nodes(t)
  {
    hide Stored, Nodes, CtxNodes;
    ghost var s := CtxNodes(c) + Nodes(t);
    ghost var m := Snap(s);
    Around(head, c, t);
    n.color := k;
    PaintStored(m, Snap(s), head.root, c, t, k);
  }

  lemma {:induction false} PaintStored(m: Store, m1: Store, root: Node?, c: Ctx, t: Tree, k: Color)
    requires Stored(m, root, c, t) && t.Bin?
    requires t.node in m && m1 == m[t.node := m[t.node].(color := k)]
    ensures Stored(m1, root, c, t.(color := k)) && Nodes(t.(color := k)) == Nodes(t)
  {
    hide CtxLinks, CtxNodes, CtxApart;
    Open(m, t, ParentOf(c));
    LinksKept(m, m1, t.left, t.node);
    LinksKept(m, m1, t.right, t.node);
    CtxKept(m, m1, c, t.node, root);
    Close(m1, t.left, t.node, k, t.right, ParentOf(c));
  }

  // ---------------------------------------------------------------------------
  // One round of the repair

  /** The subtree in view is red and fits its place, except that its parent may be red too. */
  ghost predicate RedAt(c: Ctx, t: Tree, h: int, top: int) {
    && t.Bin? && t.color == Red && Proper(t) && Balanced(t, h)
    && CtxBalanced(c, h, top) && CtxProper(c) && TopBlack(c)
  }

  /** A red parent is not the root, and its own parent is black. */
  lemma {:induction false} Grandparent(c: Ctx, t: Tree, h: int, top: int)
    requires RedAt(c, t, h, top) && ParentRed(c)
    ensures !c.up.Top? && c.up.color == Black
  {
    CtxLevel(c, h, top);
  }

  /** The subtree of the grandparent. */
  function Plug2(c: Ctx, t: Tree): (g: Tree)
    requires !c.Top? && !c.up.Top?
    ensures g.Bin? && g.node == c.up.node && g.color == c.up.color
  {
    Plug1(c.up, Plug1(c, t))
  }

  /** Both the parent and the uncle are red: they turn black and the grandparent red. */
  ghost function Recolored(g: Tree): Tree
    requires g.Bin? && g.left.Bin? && g.right.Bin?
  {
    Bin(g.left.(color := Black), g.node, Red, g.right.(color := Black))
  }

  lemma {:induction false} RecoloredOk(c: Ctx, t: Tree, h: int, top: int)
    requires RedAt(c, t, h, top) && ParentRed(c) && !c.up.Top? && IsRed(Sibling(c.up))
    ensures Plug2(c, t).left.Bin? && Plug2(c, t).right.Bin?
    ensures RedAt(c.up.up, Recolored(Plug2(c, t)), h + 1, top)
  {
    hide Balanced, Proper, CtxBalanced, CtxProper;
    Grandparent(c, t, h, top);
    CtxLevel(c, h, top);
    CtxLevel(c.up, h, top);
    var g, u := Recolored(Plug2(c, t)), Sibling(c.up);
    Level(u, h);
    Level(u.(color := Black), h + 1);
    Level(Plug1(c, t).(color := Black), h + 1);
    Level(g, h + 1);
  }

  /** The uncle is black: the parent, or the node itself if it is an inner grandchild, takes the grandparent's place. */
  ghost function Rotated(c: Ctx, t: Tree): Tree
    requires !c.Top? && !c.up.Top? && t.Bin?
  {
    var g, u, s := c.up.node, Sibling(c.up), Sibling(c);
    match (c.up.Left?, c.Left?)
    case (true, true) => Bin(t, c.node, Black, Bin(s, g, Red, u))
    case (true, false) => Bin(Bin(s, c.node, Red, t.left), t.node, Black, Bin(t.right, g, Red, u))
    case (false, false) => Bin(Bin(u, g, Red, s), c.node, Black, t)
    case (false, true) => Bin(Bin(u, g, Red, t.left), t.node, Black, Bin(t.right, c.node, Red, s))
  }

  lemma {:induction false} RotatedOk(c: Ctx, t: Tree, h: int, top: int)
    requires RedAt(c, t, h, top) && ParentRed(c) && !c.up.Top? && !IsRed(Sibling(c.up))
    ensures Proper(Rotated(c, t)) && Balanced(Rotated(c, t), h + 1)
    ensures CtxProper(c.up.up) && CtxBalanced(c.up.up, h + 1, top) && TopBlack(c.up.up)
  {
    hide Balanced, Proper, CtxBalanced, CtxProper;
    Grandparent(c, t, h, top);
    CtxLevel(c, h, top);
    CtxLevel(c.up, h, top);
    Level(t, h);
    var r := Rotated(c, t);
    Level(r.left, h);
    Level(r.right, h);
    Level(r, h + 1);
  }

  /** Neither repair changes the order of the nodes. */
  lemma {:induction false} RepairOrder(c: Ctx, t: Tree)
    requires !c.Top? && !c.up.Top? && t.Bin?
    ensures Inorder(Rotated(c, t)) == Inorder(Plug2(c, t))
    ensures Sibling(c.up).Bin? ==> Inorder(Recolored(Plug2(c, t))) == Inorder(Plug2(c, t))
    ensures Before(c) + Inorder(t) + After(c) == Before(c.up.up) + Inorder(Plug2(c, t)) + After(c.up.up)
  {
    PlugInorder(c, t);
    PlugInorder(c.up.up, Plug2(c, t));
    RotatedOrder(c, t);
  }

  lemma {:induction false} RotatedOrder(c: Ctx, t: Tree)
    requires !c.Top? && !c.up.Top? && t.Bin?
    ensures Inorder(Rotated(c, t)) == Inorder(Plug2(c, t))
  {
    var g, p, n, u, s, l, r := [c.up.node], [c.node], [t.node], Inorder(Sibling(c.up)), Inorder(Sibling(c)), Inorder(t.left), Inorder(t.right);
    var x := l + n + r;
    assert Inorder(t) == x;
    assert Inorder(Plug1(c, t)) == if c.Left? then x + p + s else s + p + x;
    match (c.up.Left?, c.Left?)
    case (true, true) => Assoc(x, p, s, g, u);
    case (true, false) => AssocInner(s, p, l, n, r, g, u);
    case (false, false) => Assoc(u, g, s, p, x);
    case (false, true) => AssocInner(u, g, l, n, r, p, s);
  }

  lemma {:induction false} Assoc<T>(a: seq<T>, b: seq<T>, c: seq<T>, d: seq<T>, e: seq<T>)
    ensures a + b + (c + d + e) == (a + b + c) + d + e
  {
  }

  lemma {:induction false} AssocInner<T>(s: seq<T>, p: seq<T>, l: seq<T>, n: seq<T>, r: seq<T>, g: seq<T>, u: seq<T>)
    ensures (s + p + l) + n + (r + g + u) == (s + p + (l + n + r)) + g + u == s + p + ((l + n + r) + g + u)
  {
  }

  // ---------------------------------------------------------------------------
  // The repair in memory

  /** The case of a red uncle. */
  method Recolor(head: Head, parent: Node, gparent: Node, uncle: Node, ghost c: Ctx, ghost t: Tree)
    requires Holds(head, c, t) && !c.Top? && !c.up.Top? && Sibling(c.up).Bin?
    requires parent == c.node && gparent == c.up.node && uncle == Sibling(c.up).node
    modifies All(c, t)
    ensures Holds(head, c.up.up, Recolored(Plug2(c, t)))
    ensures All(c.up.up, Recolored(Plug2(c, t))) == All(c, t)
  {
    hide Holds, Nodes, CtxNodes;
    ghost var up, g, u, p := c.up.up, c.up.node, Sibling(c.up), Plug1(c, t);
    Up(head, c, t);
    Up(head, c.up, p);
    ghost var p1, u1 := p.(color := Black), u.(color := Black);
    ghost var k, onLeft := c.up.color, c.up.Left?;
    ghost var uc := if onLeft then Right(up, p, g, k) else Left(up, g, k, p);
    Up(head, uc, u);
    Around(head, uc, u);
    Paint(head, uncle, Black, uc, u);
    Up(head, uc, u1);
    ghost var pc := if onLeft then Left(up, g, k, u1) else Right(up, u1, g, k);
    Up(head, pc, p);
    Around(head, pc, p);
    Paint(head, parent, Black, pc, p);
    Up(head, pc, p1);
    ghost var whole := Plug1(pc, p1);
    Around(head, up, whole);
    Paint(head, gparent, Red, up, whole);
  }

  /** The case of a black uncle, with the parent on the left. */
  method FixLeft(head: Head, elm: Node, ghost c: Ctx, ghost t: Tree) returns (e: Node)
    requires Holds(head, c, t) && !c.Top? && c.up.Left? && t.Bin? && t.node == elm && t.color == Red && c.color == Red
    modifies head, All(c, t)
    ensures Holds(head, c.up.up, Rotated(c, t))
    ensures All(c.up.up, Rotated(c, t)) == All(c, t)
    ensures Rotated(c, t).left.Bin? && Rotated(c, t).left.node == e && Rotated(c, t).left.color == Red
  {
    hide Holds, Nodes, CtxNodes;
    ghost var p := Plug1(c, t);
    Around(head, c, t);
    Up(head, c, t);
    Around(head, c.up, p);
    var parent, gparent := elm.parent, elm.parent.parent;
    e := elm;
    if parent.right == elm {
      RotateLeft(head, parent, c.up, p);
      p := RotatedLeft(p);
      e, parent := parent, elm;
    }
    Paint(head, parent, Black, c.up, p);
    p := p.(color := Black);
    Up(head, c.up, p);
    Paint(head, gparent, Red, c.up.up, Plug1(c.up, p));
    RotateRight(head, gparent, c.up.up, Plug1(c.up, p).(color := Red));
  }
  /** The case of a black uncle, with the parent on the right. */
  method FixRight(head: Head, elm: Node, ghost c: Ctx, ghost t: Tree) returns (e: Node)
    requires Holds(head, c, t) && !c.Top? && c.up.Right? && t.Bin? && t.node == elm && t.color == Red && c.color == Red
    modifies head, All(c, t)
    ensures Holds(head, c.up.up, Rotated(c, t))
    ensures All(c.up.up, Rotated(c, t)) == All(c, t)
    ensures Rotated(c, t).right.Bin? && Rotated(c, t).right.node == e && Rotated(c, t).right.color == Red
  {
    hide Holds, Nodes, CtxNodes;
    ghost var p := Plug1(c, t);
    Around(head, c, t);
    Up(head, c, t);
    Around(head, c.up, p);
    var parent, gparent := elm.parent, elm.parent.parent;
    e := elm;
    if parent.left == elm {
      RotateRight(head, parent, c.up, p);
      p := RotatedRight(p);
      e, parent := parent, elm;
    }
    Paint(head, parent, Black, c.up, p);
    p := p.(color := Black);
    Up(head, c.up, p);
    Paint(head, gparent, Red, c.up.up, Plug1(c.up, p));
    RotateLeft(head, gparent, c.up.up, Plug1(c.up, p).(color := Red));
  }

  ghost function Depth(c: Ctx): nat {
    if c.Top? then 0 else 1 + Depth(c.up)
  }

  /** The view after a rotation: the red child on the parent's old side. */
  ghost function RotatedCtx(c: Ctx, t: Tree): Ctx
    requires !c.Top? && !c.up.Top? && t.Bin?
  {
    var r := Rotated(c, t);
    if c.up.Left? then Left(c.up.up, r.node, r.color, r.right) else Right(c.up.up, r.left, r.node, r.color)
  }

  lemma {:induction false} RotatedView(head: Head, c: Ctx, t: Tree, h: int, top: int)
    requires RedAt(c, t, h, top) && ParentRed(c) && !c.up.Top? && !IsRed(Sibling(c.up))
    requires Holds(head, c.up.up, Rotated(c, t))
    ensures var r := Rotated(c, t); var v := if c.up.Left? then r.left else r.right;
            && Holds(head, RotatedCtx(c, t), v) && RedAt(RotatedCtx(c, t), v, h, top)
            && !ParentRed(RotatedCtx(c, t)) && Depth(RotatedCtx(c, t)) < Depth(c)
            && All(RotatedCtx(c, t), v) == All(c.up.up, r)
            && Before(RotatedCtx(c, t)) + Inorder(v) + After(RotatedCtx(c, t)) == Before(c) + Inorder(t) + After(c)
  {
    hide Holds, Nodes, CtxNodes, Balanced, Proper, CtxBalanced, CtxProper, Inorder, Before, After;
    var r := Rotated(c, t);
    var v := if c.up.Left? then r.left else r.right;
    var w := RotatedCtx(c, t);
    assert Plug1(w, v) == r;
    Up(head, w, v);
    RotatedOk(c, t, h, top);
    Level(r, h + 1);
    CtxLevel(w, h, top);
    RepairOrder(c, t);
    PlugInorder(w, v);
    PlugInorder(c.up.up, r);
    assert Plug(w, v) == Plug(c.up.up, r);
  }

  /** RB_INSERT_COLOR: a red node that may have a red parent is brought into place. */
  method InsertColor(head: Head, elm: Node, ghost c: Ctx, ghost t: Tree, ghost h: int, ghost top: int)
    returns (ghost t1: Tree, ghost top1: int)
    requires Holds(head, c, t) && RedAt(c, t, h, top) && t.node == elm
    modifies head, All(c, t)
    ensures Holds(head, Top, t1) && RedBlack(t1, top1)
    ensures Inorder(t1) == Before(c) + Inorder(t) + After(c) && Nodes(t1) == All(c, t)
  {
    hide Holds, Nodes, CtxNodes, Balanced, Proper, CtxBalanced, CtxProper, TopBlack, Inorder, Before, After;
    ghost var all, order := All(c, t), Before(c) + Inorder(t) + After(c);
    var e := elm;
    ghost var cc, tt, hh := c, t, h;
    Around(head, cc, tt);
    while e.parent != null && e.parent.color == Red
      invariant Holds(head, cc, tt) && RedAt(cc, tt, hh, top) && tt.node == e
      invariant e.parent == ParentOf(cc) && (e.parent != null ==> e.parent.color == cc.color)
      invariant Before(cc) + Inorder(tt) + After(cc) == order && All(cc, tt) == all
      decreases Depth(cc)
    {
      Grandparent(cc, tt, hh, top);
      Up(head, cc, tt);
      var parent := e.parent;
      Around(head, cc.up, Plug1(cc, tt));
      var gparent := parent.parent;
      RepairOrder(cc, tt);
      if Sibling(cc.up).Bin? { SiblingFields(head, cc.up, Plug1(cc, tt)); }
      var tmp := if parent == gparent.left then gparent.right else gparent.left;
      if tmp != null && tmp.color == Red {
        RecoloredOk(cc, tt, hh, top);
        Recolor(head, parent, gparent, tmp, cc, tt);
        e := gparent;
        cc, tt, hh := cc.up.up, Recolored(Plug2(cc, tt)), hh + 1;
      } else {
        if parent == gparent.left {
          e := FixLeft(head, e, cc, tt);
        } else {
          e := FixRight(head, e, cc, tt);
        }
        RotatedView(head, cc, tt, hh, top);
        cc, tt := RotatedCtx(cc, tt), if cc.up.Left? then Rotated(cc, tt).left else Rotated(cc, tt).right;
      }
      Around(head, cc, tt);
    }
    ghost var p := Plug(cc, tt);
    WholeTree(cc, tt, hh, top);
    Zip(head, cc, tt);
    Around(head, Top, p);
    var root := head.root;
    Paint(head, root, Black, Top, p);
    t1, top1 := p.(color := Black), if IsRed(p) then top + 1 else top;
  }

  /** Once the parent is not red, blackening the root makes a red-black tree. */
  lemma {:induction false} WholeTree(c: Ctx, t: Tree, h: int, top: int)
    requires RedAt(c, t, h, top) && !ParentRed(c)
    ensures var p := Plug(c, t);
            && p.Bin? && RedBlack(p.(color := Black), if IsRed(p) then top + 1 else top)
            && Inorder(p.(color := Black)) == Before(c) + Inorder(t) + After(c)
  {
    hide Balanced, Proper, CtxBalanced, CtxProper, Before, After;
    PlugBin(c, t);
    var p := Plug(c, t);
    PlugBalanced(c, t, h, top);
    PlugProper(c, t);
    PlugInorder(c, t);
    Level(p, top);
    Level(p.(color := Black), if IsRed(p) then top + 1 else top);
  }

  lemma {:induction false} PlugBin(c: Ctx, t: Tree)
    requires t.Bin?
    ensures Plug(c, t).Bin?
    decreases c
  {
    if !c.Top? { PlugBin(c.up, Plug1(c, t)); }
  }

  // ---------------------------------------------------------------------------
  // Searching for the place and linking the node

  /** Going left or right at a node narrows the place of a key. */
  lemma {:induction false} Narrow(c: Ctx, t: Tree, k: int)
    requires t.Bin? && Sorted(Before(c) + Inorder(t) + After(c)) && Below(Before(c), k) && Above(After(c), k)
    ensures k < t.node.key ==> Above(After(Left(c, t.node, t.color, t.right)), k)
    ensures k > t.node.key ==> Below(Before(Right(c, t.left, t.node, t.color)), k)
  {
    var s := Before(c) + Inorder(t) + After(c);
    var l, n, r := Inorder(t.left), [t.node], Inorder(t.right);
    assert Inorder(t) == l + n + r;
    var i := |Before(c)| + |l|;
    assert s[i] == t.node;
    if k < t.node.key {
      forall x | 0 <= x < |r| ensures r[x].key > k {
        assert s[i + 1 + x] == r[x];
      }
    }
    if k > t.node.key {
      forall x | 0 <= x < |l| ensures l[x].key < k {
        assert s[|Before(c)| + x] == l[x];
      }
    }
  }

  /** A node linked in place of a leaf. */
  lemma {:induction false} AttachStored(m: Store, m1: Store, root: Node?, root1: Node?, c: Ctx, elm: Node)
    requires Stored(m, root, c, Leaf) && elm !in CtxNodes(c)
    requires elm in m1 && m1[elm] == Fields(null, null, ParentOf(c), Red)
    requires Same(m, m1, CtxNodes(c) - if c.Top? then {} else {c.node})
    requires if c.Top? then root1 == elm
             else root1 == root && c.node in m && c.node in m1 && m1[c.node] == Turned(m[c.node], c, elm)
    ensures Stored(m1, root1, c, Bin(Leaf, elm, Red, Leaf))
  {
    hide CtxLinks, CtxNodes, CtxApart;
    Relinked(m, m1, c, null, elm, root, root1);
    Close(m1, Leaf, elm, Red, Leaf, ParentOf(c));
    assert Nodes(Leaf) + {elm} + Nodes(Leaf) == {elm};
  }

  /** The new node fits the place of a leaf, except that its parent may be red. */
  lemma {:induction false} LeafPlace(c: Ctx, elm: Node, top: int)
    requires RedBlack(Plug(c, Leaf), top)
    ensures RedAt(c, Bin(Leaf, elm, Red, Leaf), 0, top)
  {
    var h := UnplugBalanced(c, Leaf, top);
    PlugProper(c, Leaf);
    PlugRoot(c, Leaf);
  }

  /** What memory says around an empty place. */
  lemma {:induction false} AroundLeaf(head: Head, c: Ctx)
    requires Holds(head, c, Leaf)
    ensures c.Top? ==> head.root == null
    ensures !c.Top? ==> c.node in CtxNodes(c)
    ensures c.Left? ==> c.node.left == null
    ensures c.Right? ==> c.node.right == null
  {
    RootIn(Leaf, c);
  }

  /** RB_SET and the link from the parent. */
  method Attach(head: Head, elm: Node, parent: Node?, comp: int, ghost c: Ctx)
    requires Holds(head, c, Leaf) && elm !in CtxNodes(c) && parent == ParentOf(c)
    requires (c.Left? ==> comp < 0) && (c.Right? ==> comp > 0)
    modifies head, CtxNodes(c), elm
    ensures Holds(head, c, Bin(Leaf, elm, Red, Leaf)) && All(c, Bin(Leaf, elm, Red, Leaf)) == CtxNodes(c) + {elm}
  {
    hide Stored, CtxNodes;
    AroundLeaf(head, c);
    ghost var s := CtxNodes(c) + Nodes(Leaf);
    ghost var m, root := Snap(s), head.root;
    elm.parent := parent;
    elm.left, elm.right := null, null;
    elm.color := Red;
    if parent != null {
      if comp < 0 {
        parent.left := elm;
      } else {
        parent.right := elm;
      }
    } else {
      head.root := elm;
    }
    ghost var t := Bin(Leaf, elm, Red, Leaf);
    AttachStored(m, Snap(CtxNodes(c) + Nodes(t)), root, head.root, c, elm);
  }

  /**
   RB_INSERT. `dup` is the element already stored under the key; without one, `elm` becomes part
   of the tree, which stays a red-black tree in key order.
   */
  method Insert(head: Head, elm: Node, ghost t: Tree, ghost h: int) returns (dup: Node?, ghost t1: Tree, ghost h1: int, ghost i: nat)
    requires Holds(head, Top, t) && RedBlack(t, h) && Sorted(Inorder(t)) && elm !in Nodes(t)
    modifies head, Nodes(t), elm
    ensures Holds(head, Top, t1) && RedBlack(t1, h1) && Sorted(Inorder(t1))
    ensures dup != null ==> dup in Inorder(t) && dup.key == elm.key && t1 == t && elm.left == old(elm.left)
                            && elm.right == old(elm.right) && elm.parent == old(elm.parent) && elm.color == old(elm.color)
    ensures dup == null ==> (forall n :: n in Inorder(t) ==> n.key != elm.key) && Nodes(t1) == Nodes(t) + {elm}
    ensures dup == null ==> i <= |Inorder(t)| && Inorder(t1) == Inorder(t)[..i] + [elm] + Inorder(t)[i..]
  {
    hide Holds, Nodes, CtxNodes, RedBlack, Before, After, Inorder, Sorted, Below, Above, RedAt;
    TopOrder(t, elm.key);
    var tmp := head.root;
    var parent: Node? := null;
    var comp := 0;
    ghost var c, v := Top, t;
    Seen(head, c, v);
    while tmp != null
      invariant Holds(head, c, v) && tmp == RootOf(v) && parent == ParentOf(c) && Plug(c, v) == t
      invariant (c.Left? ==> comp < 0) && (c.Right? ==> comp > 0)
      invariant Below(Before(c), elm.key) && Above(After(c), elm.key)
      modifies {}
      decreases v
    {
      parent := tmp;
      PlugInorder(c, v);
      Narrow(c, v, elm.key);
      Seen(head, c, v);
      comp := elm.key - parent.key;
      if comp < 0 {
        tmp := tmp.left;
        Up(head, Left(c, v.node, v.color, v.right), v.left);
        LeftAgain(c, v);
        c, v := Left(c, v.node, v.color, v.right), v.left;
      } else if comp > 0 {
        tmp := tmp.right;
        Up(head, Right(c, v.left, v.node, v.color), v.right);
        RightAgain(c, v);
        c, v := Right(c, v.left, v.node, v.color), v.right;
      } else {
        RootInOrder(c, v);
        Zip(head, c, v);
        return tmp, t, h, 0;
      }
    }
    Zip(head, c, v);
    LeafPlace(c, elm, h);
    PlugInorder(c, v);
    NotThere(c, elm);
    AllLeaf(c);
    Attach(head, elm, parent, comp, c);
    ghost var w := Bin(Leaf, elm, Red, Leaf);
    OneNode(elm);
    t1, h1 := InsertColor(head, elm, c, w, 0, h);
    dup, i := null, |Before(c)|;
  }

  lemma {:induction false} TopOrder(t: Tree, k: int)
    ensures Before(Top) == [] && After(Top) == []
    ensures Below(Before(Top), k) && Above(After(Top), k)
  {
  }

  lemma {:induction false} Seen(head: Head, c: Ctx, t: Tree)
    requires Holds(head, c, t)
    ensures c.Top? ==> head.root == RootOf(t)
    ensures t.Bin? ==> t.node.left == RootOf(t.left) && t.node.right == RootOf(t.right)
  {
    if t.Bin? { Around(head, c, t); }
  }

  lemma {:induction false} LeftAgain(c: Ctx, t: Tree)
    requires t.Bin?
    ensures var l := Left(c, t.node, t.color, t.right);
            Before(l) == Before(c) && After(l) == [t.node] + Inorder(t.right) + After(c) && Plug1(l, t.left) == t
  {
  }

  lemma {:induction false} RightAgain(c: Ctx, t: Tree)
    requires t.Bin?
    ensures var r := Right(c, t.left, t.node, t.color);
            Before(r) == Before(c) + Inorder(t.left) + [t.node] && After(r) == After(c) && Plug1(r, t.right) == t
  {
  }

  lemma {:induction false} RootInOrder(c: Ctx, t: Tree)
    requires t.Bin?
    ensures t.node in Inorder(Plug(c, t))
  {
    PlugInorder(c, t);
    assert t.node in Inorder(t);
  }

  lemma {:induction false} AllLeaf(c: Ctx)
    ensures All(c, Leaf) == CtxNodes(c) == Nodes(Plug(c, Leaf))
  {
    PlugNodes(c, Leaf);
  }

  lemma {:induction false} PlugNodes(c: Ctx, t: Tree)
    ensures Nodes(Plug(c, t)) == All(c, t)
    decreases c
  {
    if !c.Top? { PlugNodes(c.up, Plug1(c, t)); }
  }

  lemma {:induction false} OneNode(n: Node)
    ensures Inorder(Bin(Leaf, n, Red, Leaf)) == [n]
  {
  }

  /** A key between what comes before and what comes after an empty place is not in the tree, and can be put there. */
  lemma {:induction false} NotThere(c: Ctx, elm: Node)
    requires Sorted(Inorder(Plug(c, Leaf))) && Below(Before(c), elm.key) && Above(After(c), elm.key)
    ensures Sorted(Before(c) + [elm] + After(c))
    ensures forall n :: n in Inorder(Plug(c, Leaf)) ==> n.key != elm.key
    ensures var s, i := Inorder(Plug(c, Leaf)), |Before(c)|;
            i <= |s| && s[..i] == Before(c) && s[i..] == After(c)
  {
    hide Plug, Before, After;
    PlugInorder(c, Leaf);
    assert Before(c) + Inorder(Leaf) + After(c) == Before(c) + After(c);
    var s, i := Inorder(Plug(c, Leaf)), |Before(c)|;
    assert s[..i] == Before(c) && s[i..] == After(c);
    var w := Before(c) + [elm] + After(c);
    forall x, y | 0 <= x < y < |w| ensures w[x].key < w[y].key {
      assert x < i ==> w[x] == s[x];
      assert x > i ==> w[x] == s[x - 1];
      assert y < i ==> w[y] == s[y];
      assert y > i ==> w[y] == s[y - 1];
    }
  }
}
