/** RB_REMOVE: unlinking a node, putting its successor in its place, and repairing the black count. */
module RbDelete {
  import opened RbTree
  import opened RbLinks
  import opened RbInsert
  import opened RbRemove

  // ---------------------------------------------------------------------------
  // Unlinking a node with at most one child

  ghost function OnlyChild(t: Tree): Tree
    requires t.Bin?
  {
    if t.left.Leaf? then t.right else t.left
  }

  lemma {:induction false} UnlinkStored(m: Store, m1: Store, root: Node?, root1: Node?, c: Ctx, t: Tree)
    requires Stored(m, root, c, t) && t.Bin? && (t.left.Leaf? || t.right.Leaf?)
    requires var d := OnlyChild(t);
             && Same(m, m1, CtxNodes(c) + Nodes(d) - (if d.Bin? then {d.node} else {}) - (if c.Top? then {} else {c.node}))
             && (d.Bin? ==> d.node in m && d.node in m1 && m1[d.node] == m[d.node].(parent := ParentOf(c)))
             && (if c.Top? then root1 == RootOf(d)
                 else root1 == root && c.node in m && c.node in m1 && m1[c.node] == Turned(m[c.node], c, RootOf(d)))
    ensures Stored(m1, root1, c, OnlyChild(t))
  {
    hide CtxLinks, CtxNodes, CtxApart, Apart, Links, Nodes;
    var d := OnlyChild(t);
    Open(m, t, ParentOf(c));
    RootIn(d, c);
    Adopted(m, m1, d, t.node, ParentOf(c));
    Relinked(m, m1, c, t.node, RootOf(d), root, root1);
  }

  /** The child of `elm`, if any, takes its place. */
  method Unlink(head: Head, elm: Node, child: Node?, ghost c: Ctx, ghost t: Tree)
    requires Holds(head, c, t) && t.Bin? && t.node == elm && (t.left.Leaf? || t.right.Leaf?)
    requires child == RootOf(OnlyChild(t))
    modifies head, All(c, t) - {elm}
    ensures Holds(head, c, OnlyChild(t)) && All(c, OnlyChild(t)) == All(c, t) - {elm} && elm in All(c, t)
    ensures elm.parent == old(elm.parent) && elm.color == old(elm.color)
  {
    hide Stored, Nodes, CtxNodes;
    ghost var d, all := OnlyChild(t), All(c, t);
    ghost var m, root := Snap(all), head.root;
    Around(head, c, t);
    UnlinkNodes(c, t, Snap(all), head.root);
    var parent := elm.parent;
    if child != null {
      child.parent := parent;
    }
    Turn(head, parent, elm, child);
    UnlinkStored(m, Snap(CtxNodes(c) + Nodes(d)), root, head.root, c, t);
  }

  lemma {:induction false} UnlinkNodes(c: Ctx, t: Tree, m: Store, root: Node?)
    requires Stored(m, root, c, t) && t.Bin? && (t.left.Leaf? || t.right.Leaf?)
    ensures All(c, OnlyChild(t)) == All(c, t) - {t.node} && t.node in All(c, t)
    ensures OnlyChild(t).Bin? ==> OnlyChild(t).node in All(c, OnlyChild(t)) && OnlyChild(t).node != t.node
    ensures !c.Top? ==> c.node in All(c, OnlyChild(t)) && c.node != RootOf(OnlyChild(t))
  {
    RootIn(OnlyChild(t), c);
  }

  // ---------------------------------------------------------------------------
  // Putting one node in the place of another

  lemma {:induction false} ReplaceStored(m: Store, m1: Store, root: Node?, root1: Node?, c: Ctx, t: Tree, elm: Node)
    requires Stored(m, root, c, t) && t.Bin? && elm !in Nodes(t) && elm !in CtxNodes(c)
    requires t.node in m && elm in m1 && m1[elm] == m[t.node]
    requires t.left.Bin? ==> t.left.node in m && t.left.node in m1 && m1[t.left.node] == m[t.left.node].(parent := elm)
    requires t.right.Bin? ==> t.right.node in m && t.right.node in m1 && m1[t.right.node] == m[t.right.node].(parent := elm)
    requires if c.Top? then root1 == elm
             else root1 == root && c.node in m && c.node in m1 && m1[c.node] == Turned(m[c.node], c, elm)
    requires Same(m, m1, CtxNodes(c) + Nodes(t) - {t.node} - (if t.left.Bin? then {t.left.node} else {})
                         - (if t.right.Bin? then {t.right.node} else {}) - (if c.Top? then {} else {c.node}))
    ensures Stored(m1, root1, c, Bin(t.left, elm, t.color, t.right))
  {
    hide CtxLinks, CtxNodes, CtxApart, Apart, Links, Nodes;
    Open(m, t, ParentOf(c));
    RootIn(t.left, c);
    RootIn(t.right, c);
    Adopted(m, m1, t.left, t.node, elm);
    Adopted(m, m1, t.right, t.node, elm);
    Relinked(m, m1, c, t.node, elm, root, root1);
    Close(m1, t.left, elm, t.color, t.right, ParentOf(c));
  }

  /** `elm`, no longer in the tree, takes the links and the colour of `victim`. */
  method Replace(head: Head, victim: Node, elm: Node, ghost c: Ctx, ghost t: Tree)
    requires Holds(head, c, t) && t.Bin? && t.node == victim && t.left.Bin? && elm !in All(c, t)
    modifies head, All(c, t), elm
    ensures Holds(head, c, Bin(t.left, elm, t.color, t.right))
    ensures All(c, Bin(t.left, elm, t.color, t.right)) == All(c, t) - {victim} + {elm}
  {
    hide Stored, Nodes, CtxNodes;
    ghost var all, u := All(c, t), Bin(t.left, elm, t.color, t.right);
    ghost var m, root := Snap(all), head.root;
    Around(head, c, t);
    ReplaceNodes(c, t, elm, m, root);
    elm.left, elm.right, elm.parent, elm.color := victim.left, victim.right, victim.parent, victim.color;
    Turn(head, victim.parent, victim, elm);
    victim.left.parent := elm;
    if victim.right != null {
      victim.right.parent := elm;
    }
    ReplaceStored(m, Snap(CtxNodes(c) + Nodes(u)), root, head.root, c, t, elm);
  }

  lemma {:induction false} ReplaceNodes(c: Ctx, t: Tree, elm: Node, m: Store, root: Node?)
    requires Stored(m, root, c, t) && t.Bin? && elm !in All(c, t)
    ensures All(c, Bin(t.left, elm, t.color, t.right)) == All(c, t) - {t.node} + {elm}
    ensures t.left.Bin? && t.right.Bin? ==> t.left.node != t.right.node
    ensures t.left.Bin? ==> t.left.node in All(c, t) && t.left.node != t.node && t.left.node != ParentOf(c)
    ensures t.right.Bin? ==> t.right.node in All(c, t) && t.right.node != t.node && t.right.node != ParentOf(c)
    ensures !c.Top? ==> c.node in All(c, t) && c.node != t.node
  {
    RootIn(t.left, c);
    RootIn(t.right, c);
  }

  // ---------------------------------------------------------------------------
  // Contexts inside contexts

  ghost function Compose(a: Ctx, b: Ctx): Ctx {
    match a
    case Top => b
    case Left(up, n, k, r) => Left(Compose(up, b), n, k, r)
    case Right(up, l, n, k) => Right(Compose(up, b), l, n, k)
  }

  lemma {:induction false} ComposePlug(a: Ctx, b: Ctx, t: Tree)
    ensures Plug(Compose(a, b), t) == Plug(b, Plug(a, t))
    decreases a
  {
    if !a.Top? { ComposePlug(a.up, b, Plug1(a, t)); }
  }

  lemma {:induction false} ComposeHolds(head: Head, a: Ctx, b: Ctx, t: Tree)
    ensures Holds(head, Compose(a, b), t) <==> Holds(head, b, Plug(a, t))
    ensures All(Compose(a, b), t) == All(b, Plug(a, t))
    decreases a
  {
    hide Holds, Nodes, CtxNodes;
    if !a.Top? {
      Up(head, Compose(a, b), t);
      assert Plug1(Compose(a, b), t) == Plug1(a, t) && Compose(a, b).up == Compose(a.up, b);
      ComposeHolds(head, a.up, b, Plug1(a, t));
    }
  }

  /** The conditions do not depend on which node sits in the context. */
  lemma {:induction false} Rename(a: Ctx, c: Ctx, l: Tree, m: Node, n: Node, k: Color, h: int, top: int)
    ensures CtxBalanced(Compose(a, Right(c, l, m, k)), h, top) <==> CtxBalanced(Compose(a, Right(c, l, n, k)), h, top)
    ensures CtxProper(Compose(a, Right(c, l, m, k))) <==> CtxProper(Compose(a, Right(c, l, n, k)))
    ensures TopBlack(Compose(a, Right(c, l, m, k))) <==> TopBlack(Compose(a, Right(c, l, n, k)))
    ensures ParentRed(Compose(a, Right(c, l, m, k))) <==> ParentRed(Compose(a, Right(c, l, n, k)))
    decreases a
  {
    if !a.Top? {
      Rename(a.up, c, l, m, n, k, if a.color == Black then h + 1 else h, top);
    }
  }

  // ---------------------------------------------------------------------------
  // The balance after unlinking

  /** Unlinking a red node keeps the tree red-black; unlinking a black one leaves a short subtree. */
  lemma {:induction false} UnlinkBalance(c: Ctx, t: Tree, top: int) returns (h: int)
    requires RedBlack(Plug(c, t), top) && t.Bin? && (t.left.Leaf? || t.right.Leaf?)
    ensures Balanced(OnlyChild(t), h) && Proper(OnlyChild(t)) && CtxProper(c) && TopBlack(c)
    ensures CtxBalanced(c, if t.color == Black then h + 1 else h, top)
    ensures t.color == Black ==> Short(c, OnlyChild(t), h, top)
    ensures t.color == Red ==> !IsRed(OnlyChild(t)) && !c.Top?
  {
    hide Balanced, Proper, CtxBalanced, CtxProper, Plug;
    var d := OnlyChild(t);
    var g := UnplugBalanced(c, t, top);
    PlugProper(c, t);
    PlugRoot(c, t);
    Level(t, g);
    TopPlug(t);
    h := if t.color == Black then g - 1 else g;
    if d.Bin? { Level(d, h); }
  }

  /** A subtree of the right height without a red link keeps the tree red-black. */
  lemma {:induction false} Refit(c: Ctx, d: Tree, h: int, top: int)
    requires Balanced(d, h) && Proper(d) && CtxBalanced(c, h, top) && CtxProper(c) && TopBlack(c) && !c.Top? && !IsRed(d)
    ensures RedBlack(Plug(c, d), top)
  {
    hide Balanced, Proper, CtxBalanced, CtxProper, Plug;
    PlugBalanced(c, d, h, top);
    PlugProper(c, d);
    PlugRoot(c, d);
  }

  /** The repair that follows the unlinking of a node of colour `color`. */
  method Repair(head: Head, parent: Node?, child: Node?, color: Color, ghost c: Ctx, ghost d: Tree, ghost h: int, ghost top: int)
    returns (ghost t1: Tree, ghost top1: int)
    requires Holds(head, c, d) && child == RootOf(d) && parent == ParentOf(c)
    requires color == Black ==> Short(c, d, h, top)
    requires color == Red ==> RedBlack(Plug(c, d), top)
    modifies head, All(c, d)
    ensures Holds(head, Top, t1) && RedBlack(t1, top1)
    ensures Inorder(t1) == Before(c) + Inorder(d) + After(c) && Nodes(t1) == All(c, d)
  {
    hide Holds, Nodes, CtxNodes, Short, RedBlack, Inorder, Before, After, Plug;
    if color == Black {
      t1, top1 := RemoveColor(head, parent, child, c, d, h, top);
    } else {
      Zip(head, c, d);
      PlugInorder(c, d);
      t1, top1 := Plug(c, d), top;
    }
  }

  /** RB_REMOVE of a node with at most one child. */
  method RemoveSimple(head: Head, elm: Node, child: Node?, ghost c: Ctx, ghost t: Tree, ghost top: int)
    returns (ghost t1: Tree, ghost top1: int)
    requires Holds(head, c, t) && RedBlack(Plug(c, t), top) && t.Bin? && t.node == elm
    requires (t.left.Leaf? || t.right.Leaf?) && child == RootOf(OnlyChild(t))
    modifies head, All(c, t)
    ensures Holds(head, Top, t1) && RedBlack(t1, top1)
    ensures Inorder(t1) == Before(c) + Inorder(OnlyChild(t)) + After(c) && Nodes(t1) == All(c, t) - {elm}
  {
    hide Holds, Nodes, CtxNodes, Short, RedBlack, Inorder, Before, After, Plug, Balanced, CtxBalanced, Proper, CtxProper;
    ghost var h := UnlinkBalance(c, t, top);
    if t.color == Red { Refit(c, OnlyChild(t), h, top); }
    Around(head, c, t);
    var parent, color := elm.parent, elm.color;
    Unlink(head, elm, child, c, t);
    t1, top1 := Repair(head, parent, child, color, c, OnlyChild(t), h, top);
  }

  // ---------------------------------------------------------------------------
  // A node with two children

  /** The walk down the left links: `inner` leads from the leftmost node of `r` back to its root. */
  method Leftmost(ghost head: Head, start: Node, ghost b: Ctx, ghost r: Tree)
    returns (elm: Node, ghost inner: Ctx, ghost v: Tree)
    requires Holds(head, b, r) && r.Bin? && r.node == start
    ensures Holds(head, Compose(inner, b), v) && Plug(inner, v) == r && v.Bin? && v.node == elm && v.left.Leaf?
    ensures Before(inner) == []
  {
    hide Holds, Nodes, CtxNodes;
    elm := start;
    inner, v := Top, r;
    Around(head, b, r);
    while elm.left != null
      invariant Holds(head, Compose(inner, b), v) && Plug(inner, v) == r && v.Bin? && v.node == elm
      invariant Before(inner) == [] && elm.left == RootOf(v.left)
      modifies {}
      decreases v
    {
      ghost var next := Left(inner, v.node, v.color, v.right);
      Up(head, Compose(next, b), v.left);
      assert Plug1(Compose(next, b), v.left) == v;
      elm := elm.left;
      inner, v := next, v.left;
      Around(head, Compose(inner, b), v);
    }
  }

  /** Moving the leftmost node of the right subtree up takes the victim out of the order and nothing else. */
  lemma {:induction false} SuccessorOrder(c: Ctx, t: Tree, inner: Ctx, v: Tree)
    requires t.Bin? && v.Bin? && v.left.Leaf? && Plug(inner, v) == t.right && Before(inner) == []
    ensures var w := Compose(inner, Right(c, t.left, v.node, t.color));
            Before(w) + Inorder(v.right) + After(w) == Before(c) + (Inorder(t.left) + Inorder(t.right)) + After(c)
  {
    hide Inorder, Before, After, Plug, Compose;
    var w := Compose(inner, Right(c, t.left, v.node, t.color));
    var x := Plug(inner, v.right);
    PlugInorder(w, v.right);
    ComposePlug(inner, Right(c, t.left, v.node, t.color), v.right);
    PlugInorder(c, Bin(t.left, v.node, t.color, x));
    PlugOnce(c, Bin(t.left, v.node, t.color, x));
    var n := [v.node];
    VineOrder(v, inner);
    assert Inorder(Bin(t.left, v.node, t.color, x)) == Inorder(t.left) + n + Inorder(x) by { BinOrder(t.left, v.node, t.color, x); }
    assert Inorder(t.left) + n + Inorder(x) == Inorder(t.left) + Inorder(t.right);
  }

  lemma {:induction false} BinOrder(l: Tree, n: Node, k: Color, r: Tree)
    ensures Inorder(Bin(l, n, k, r)) == Inorder(l) + [n] + Inorder(r)
  {
  }

  lemma {:induction false} VineOrder(v: Tree, inner: Ctx)
    requires v.Bin? && v.left.Leaf? && Before(inner) == []
    ensures Inorder(Plug(inner, v)) == [v.node] + Inorder(Plug(inner, v.right))
  {
    PlugInorder(inner, v);
    PlugInorder(inner, v.right);
    BinOrder(v.left, v.node, v.color, v.right);
    assert Inorder(Leaf) == [];
  }

  /** RB_REMOVE of a node with two children: its successor is unlinked and takes its place. */
  method RemoveInner(head: Head, victim: Node, ghost c: Ctx, ghost t: Tree, ghost top: int)
    returns (ghost t1: Tree, ghost top1: int)
    requires Holds(head, c, t) && RedBlack(Plug(c, t), top) && t.Bin? && t.node == victim && t.left.Bin? && t.right.Bin?
    modifies head, All(c, t)
    ensures Holds(head, Top, t1) && RedBlack(t1, top1)
    ensures Inorder(t1) == Before(c) + (Inorder(t.left) + Inorder(t.right)) + After(c)
    ensures Nodes(t1) == All(c, t) - {victim}
  {
    hide Holds, Nodes, CtxNodes, Short, RedBlack, Inorder, Before, After, Plug, Balanced, CtxBalanced, Proper, CtxProper, TopBlack;
    ghost var l, k, r := t.left, t.color, t.right;
    ghost var b := Right(c, l, victim, k);
    Around(head, c, t);
    Up(head, b, r);
    assert Plug1(b, r) == t;
    var elm;
    ghost var inner, v;
    elm, inner, v := Leftmost(head, victim.right, b, r);
    ghost var w := Compose(inner, b);
    Around(head, w, v);
    ComposePlug(inner, b, v);
    ComposeHolds(head, inner, b, v);
    ComposeParent(inner, b, b);
    if !inner.Top? { InnerNode(head, inner, b, v); }
    PlugOnce(c, t);
    ghost var h := UnlinkBalance(w, v, top);
    var child, parent, color := elm.right, elm.parent, elm.color;
    Unlink(head, elm, child, w, v);
    ghost var d := v.right;
    ghost var x := Plug(inner, d);
    ComposeHolds(head, inner, b, d);
    Up(head, b, x);
    ghost var u := Bin(l, victim, k, x);
    if parent == victim {
      parent := elm;
    }
    VictimIn(c, u);
    Replace(head, victim, elm, c, u);
    ghost var b1 := Right(c, l, elm, k);
    ghost var w1 := Compose(inner, b1);
    Up(head, b1, x);
    ComposeHolds(head, inner, b1, d);
    SuccessorBalance(inner, c, l, victim, elm, k, d, h, top, v.color);
    SuccessorOrder(c, t, inner, v);
    ComposeParent(inner, b, b1);
    t1, top1 := Repair(head, parent, child, color, w1, d, h, top);
  }

  lemma {:induction false} PlugOnce(c: Ctx, t: Tree)
    requires t.Bin?
    ensures Plug(Right(c, t.left, t.node, t.color), t.right) == Plug(c, t)
  {
  }

  lemma {:induction false} VictimIn(c: Ctx, t: Tree)
    requires t.Bin?
    ensures t.node in All(c, t)
  {
  }

  /** The nodes passed on the way down are not the victim. */
  lemma {:induction false} InnerNode(head: Head, inner: Ctx, b: Ctx, v: Tree)
    requires Holds(head, b, Plug(inner, v)) && !inner.Top? && !b.Top?
    ensures inner.node != b.node
  {
    RootIn(v, b);
    RootIn(v, inner);
    PlugNodes(inner, v);
  }

  /** The parent of the unlinked successor, after the exchange. */
  lemma {:induction false} ComposeParent(inner: Ctx, b: Ctx, b1: Ctx)
    requires !b.Top? && !b1.Top?
    ensures ParentOf(Compose(inner, b1)) == if inner.Top? then b1.node else ParentOf(Compose(inner, b))
    ensures inner.Top? ==> ParentOf(Compose(inner, b)) == b.node
    ensures !inner.Top? ==> ParentOf(Compose(inner, b)) == inner.node
  {
  }

  lemma {:induction false} SuccessorBalance(inner: Ctx, c: Ctx, l: Tree, m: Node, n: Node, k: Color, d: Tree, h: int, top: int, color: Color)
    requires var w := Compose(inner, Right(c, l, m, k));
             && Balanced(d, h) && Proper(d) && CtxProper(w) && TopBlack(w)
             && CtxBalanced(w, if color == Black then h + 1 else h, top) && (color == Red ==> !IsRed(d))
    ensures var w1 := Compose(inner, Right(c, l, n, k));
            && (color == Black ==> Short(w1, d, h, top))
            && (color == Red ==> RedBlack(Plug(w1, d), top))
  {
    hide CtxBalanced, CtxProper, TopBlack, Balanced, RedBlack;
    Rename(inner, c, l, m, n, k, if color == Black then h + 1 else h, top);
    var w1 := Compose(inner, Right(c, l, n, k));
    if color == Red { Refit(w1, d, h, top); }
  }

  // ---------------------------------------------------------------------------
  // RB_REMOVE

  /** Every node of a tree can be brought into view. */
  lemma {:induction false} Focus(t: Tree, n: Node) returns (c: Ctx, v: Tree)
    requires n in Nodes(t)
    ensures Plug(c, v) == t && v.Bin? && v.node == n
  {
    if n == t.node {
      c, v := Top, t;
    } else if n in Nodes(t.left) {
      var d, w := Focus(t.left, n);
      c, v := Compose(d, Left(Top, t.node, t.color, t.right)), w;
      ComposePlug(d, Left(Top, t.node, t.color, t.right), w);
    } else {
      var d, w := Focus(t.right, n);
      c, v := Compose(d, Right(Top, t.left, t.node, t.color)), w;
      ComposePlug(d, Right(Top, t.left, t.node, t.color), w);
    }
  }

  /** Taking the node in view out of the order. */
  lemma {:induction false} WithoutNode(c: Ctx, t: Tree)
    requires t.Bin?
    ensures var s, i := Inorder(Plug(c, t)), |Before(c)| + |Inorder(t.left)|;
            && i < |s| && s[i] == t.node
            && s[..i] + s[i + 1..] == Before(c) + (Inorder(t.left) + Inorder(t.right)) + After(c)
  {
    hide Plug, Before, After, Inorder;
    PlugInorder(c, t);
    BinOrder(t.left, t.node, t.color, t.right);
    var a, l, n, r, b := Before(c), Inorder(t.left), [t.node], Inorder(t.right), After(c);
    CutOut(a, l, n, r, b);
  }

  lemma {:induction false} CutOut<T>(a: seq<T>, l: seq<T>, n: seq<T>, r: seq<T>, b: seq<T>)
    requires |n| == 1
    ensures var s, i := a + (l + n + r) + b, |a| + |l|;
            i < |s| && s[i] == n[0] && s[..i] + s[i + 1..] == a + (l + r) + b
  {
  }

  /**
   RB_REMOVE. The element leaves the tree, which stays a red-black tree; the order of the others
   does not change.
   */
  method Remove(head: Head, elm: Node, ghost t: Tree, ghost top: int)
    returns (ghost t1: Tree, ghost top1: int, ghost i: nat)
    requires Holds(head, Top, t) && RedBlack(t, top) && elm in Nodes(t)
    modifies head, Nodes(t)
    ensures Holds(head, Top, t1) && RedBlack(t1, top1) && Nodes(t1) == Nodes(t) - {elm}
    ensures i < |Inorder(t)| && Inorder(t)[i] == elm && Inorder(t1) == Inorder(t)[..i] + Inorder(t)[i + 1..]
    ensures Sorted(Inorder(t)) ==> Sorted(Inorder(t1))
  {
    hide Holds, Nodes, CtxNodes, RedBlack, Inorder, Before, After, Plug;
    ghost var c, v := Focus(t, elm);
    Zip(head, c, v);
    Around(head, c, v);
    WithoutNode(c, v);
    LeafOrder(v);
    i := |Before(c)| + |Inorder(v.left)|;
    if elm.left == null {
      t1, top1 := RemoveSimple(head, elm, elm.right, c, v, top);
    } else if elm.right == null {
      t1, top1 := RemoveSimple(head, elm, elm.left, c, v, top);
    } else {
      t1, top1 := RemoveInner(head, elm, c, v, top);
    }
  }

  lemma {:induction false} LeafOrder(t: Tree)
    requires t.Bin?
    ensures t.left.Leaf? || t.right.Leaf? ==> Inorder(OnlyChild(t)) == Inorder(t.left) + Inorder(t.right)
  {
  }
}
