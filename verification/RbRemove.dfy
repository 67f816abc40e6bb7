/** RB_REMOVE_COLOR: restoring the black count after a black node has left. */
module RbRemove {
  import opened RbTree
  import opened RbLinks
  import opened RbInsert

  /** The subtree in view has one black node too few on every path; its root may be red with red children. */
  ghost predicate Short(c: Ctx, t: Tree, h: int, top: int) {
    && ProperBelow(t) && Balanced(t, h)
    && CtxBalanced(c, h + 1, top) && CtxProper(c) && TopBlack(c)
  }

  /** A short subtree has a sibling. */
  lemma {:induction false} HasSibling(c: Ctx, t: Tree, h: int, top: int)
    requires Short(c, t, h, top) && !c.Top?
    ensures Sibling(c).Bin?
  {
    hide CtxBalanced, CtxProper;
    CtxLevel(c, h + 1, top);
    BalancedNonNegative(t, h);
  }

  // ---------------------------------------------------------------------------
  // A red sibling

  /** After the rotation over a red sibling: the parent is red, and a nephew is the new sibling. */
  ghost function Lowered(c: Ctx): Ctx
    requires !c.Top? && Sibling(c).Bin?
  {
    var w := Sibling(c);
    if c.Left? then Left(Left(c.up, w.node, Black, w.right), c.node, Red, w.left)
    else Right(Right(c.up, w.left, w.node, Black), w.right, c.node, Red)
  }

  lemma {:induction false} LoweredOk(c: Ctx, t: Tree, h: int, top: int)
    requires Short(c, t, h, top) && !c.Top? && IsRed(Sibling(c))
    ensures Short(Lowered(c), t, h, top) && !IsRed(Sibling(Lowered(c)))
  {
    hide CtxBalanced, CtxProper, Balanced, Proper;
    var w, d := Sibling(c), Lowered(c);
    CtxLevel(c, h + 1, top);
    Level(w, h + 1);
    CtxLevel(d, h + 1, top);
    CtxLevel(d.up, h + 1, top);
  }

  // ---------------------------------------------------------------------------
  // A black sibling with black children

  /** The sibling turns red; now the parent's subtree is short. */
  ghost function Darkened(c: Ctx, t: Tree): (d: Tree)
    requires !c.Top? && Sibling(c).Bin?
    ensures d.Bin? && d.node == c.node && d.color == c.color
  {
    if c.Left? then Bin(t, c.node, c.color, c.right.(color := Red)) else Bin(c.left.(color := Red), c.node, c.color, t)
  }

  lemma {:induction false} DarkenedOk(c: Ctx, t: Tree, h: int, top: int)
    requires Short(c, t, h, top) && !c.Top? && !IsRed(t) && Sibling(c).Bin? && Sibling(c).color == Black
    requires !IsRed(Sibling(c).left) && !IsRed(Sibling(c).right)
    ensures Short(c.up, Darkened(c, t), if c.color == Black then h + 1 else h, top)
  {
    hide CtxBalanced, CtxProper, Balanced, Proper;
    var w, d := Sibling(c), Darkened(c, t);
    CtxLevel(c, h + 1, top);
    Level(w, h + 1);
    Level(w.(color := Red), h);
    if t.Bin? { Level(t, h); } else { ProperLeaf(); }
    Level(d, if c.color == Black then h + 1 else h);
  }

  lemma {:induction false} ProperLeaf()
    ensures Proper(Leaf)
  {
  }

  // ---------------------------------------------------------------------------
  // A black sibling with a red child

  /** The sibling's red child lends a black node. */
  ghost function Borrowed(c: Ctx, t: Tree): Tree
    requires !c.Top? && Sibling(c).Bin?
    requires IsRed(Sibling(c).left) || IsRed(Sibling(c).right)
  {
    var w, p, k := Sibling(c), c.node, c.color;
    if c.Left? then
      if IsRed(w.right) then
        Bin(Bin(t, p, Black, w.left), w.node, k, w.right.(color := Black))
      else
        var v := w.left; Bin(Bin(t, p, Black, v.left), v.node, k, Bin(v.right, w.node, Black, w.right))
    else
      if IsRed(w.left) then
        Bin(w.left.(color := Black), w.node, k, Bin(w.right, p, Black, t))
      else
        var v := w.right; Bin(Bin(w.left, w.node, Black, v.left), v.node, k, Bin(v.right, p, Black, t))
  }

  lemma {:induction false} BorrowedOk(c: Ctx, t: Tree, h: int, top: int)
    requires Short(c, t, h, top) && !c.Top? && !IsRed(t) && Sibling(c).Bin? && Sibling(c).color == Black
    requires IsRed(Sibling(c).left) || IsRed(Sibling(c).right)
    ensures RedBlack(Plug(c.up, Borrowed(c, t)), top)
  {
    hide CtxBalanced, CtxProper, Balanced, Proper, TopBlack, Plug;
    var w, b := Sibling(c), Borrowed(c, t);
    var hb := if c.color == Black then h + 2 else h + 1;
    CtxLevel(c, h + 1, top);
    Level(w, h + 1);
    if t.Bin? { Level(t, h); } else { ProperLeaf(); }
    if IsRed(w.left) { Level(w.left, h); }
    if IsRed(w.right) { Level(w.right, h); }
    Level(b.left, h + 1);
    Level(b.right, h + 1);
    Level(b, hb);
    PlugBalanced(c.up, b, hb, top);
    PlugProper(c.up, b);
    PlugRoot(c.up, b);
    TopPlug(b);
  }

  lemma {:induction false} TopPlug(t: Tree)
    ensures Plug(Top, t) == t
  {
  }

  lemma {:induction false} BorrowedOrder(c: Ctx, t: Tree)
    requires !c.Top? && Sibling(c).Bin?
    requires IsRed(Sibling(c).left) || IsRed(Sibling(c).right)
    ensures Inorder(Borrowed(c, t)) == Inorder(Plug1(c, t))
  {
    var w, p, s := Sibling(c), [c.node], Inorder(t);
    var l, n, r := Inorder(w.left), [w.node], Inorder(w.right);
    assert Inorder(w) == l + n + r;
    if c.Left? {
      if IsRed(w.right) {
        Assoc(s, p, l, n, r);
        assert Inorder(w.right.(color := Black)) == r;
      } else {
        var v := w.left;
        assert l == Inorder(v.left) + [v.node] + Inorder(v.right);
        AssocInner(s, p, Inorder(v.left), [v.node], Inorder(v.right), n, r);
      }
    } else {
      if IsRed(w.left) {
        Assoc(l, n, r, p, s);
        assert Inorder(w.left.(color := Black)) == l;
      } else {
        var v := w.right;
        assert r == Inorder(v.left) + [v.node] + Inorder(v.right);
        AssocInner(l, n, Inorder(v.left), [v.node], Inorder(v.right), p, s);
      }
    }
  }

  lemma {:induction false} LoweredOrder(c: Ctx, t: Tree)
    requires !c.Top? && Sibling(c).Bin?
    ensures Before(Lowered(c)) == Before(c) && After(Lowered(c)) == After(c)
  {
    var w := Sibling(c);
    var l, n, r, p := Inorder(w.left), [w.node], Inorder(w.right), [c.node];
    assert Inorder(w) == l + n + r;
    if c.Left? {
      assert p + l + (n + r + After(c.up)) == p + (l + n + r) + After(c.up);
    } else {
      assert (Before(c.up) + l + n) + r + p == Before(c.up) + (l + n + r) + p;
    }
  }

  /** Painting does not move nodes. */
  lemma {:induction false} DarkenedOrder(c: Ctx, t: Tree)
    requires !c.Top? && Sibling(c).Bin?
    ensures Before(c.up) + Inorder(Darkened(c, t)) + After(c.up) == Before(c) + Inorder(t) + After(c)
  {
    var w := Sibling(c);
    assert Inorder(w.(color := Red)) == Inorder(w);
    assert Inorder(Darkened(c, t)) == Inorder(Plug1(c, t));
    PlugInorder(c, t);
    PlugInorder(c.up, Plug1(c, t));
  }

  // ---------------------------------------------------------------------------
  // The repairs in memory

  /** The context of the sibling. */
  ghost function SiblingCtx(c: Ctx, t: Tree): (s: Ctx)
    requires !c.Top?
    ensures !s.Top? && s.node == c.node && s.color == c.color && s.up == c.up
    ensures Plug1(s, Sibling(c)) == Plug1(c, t)
  {
    if c.Left? then Right(c.up, t, c.node, c.color) else Left(c.up, c.node, c.color, t)
  }

  lemma {:induction false} ToSibling(head: Head, c: Ctx, t: Tree)
    requires !c.Top?
    ensures Holds(head, c, t) <==> Holds(head, SiblingCtx(c, t), Sibling(c))
    ensures All(c, t) == All(SiblingCtx(c, t), Sibling(c))
  {
    hide Holds, Nodes, CtxNodes;
    Up(head, c, t);
    Up(head, SiblingCtx(c, t), Sibling(c));
  }

  /** The context with its innermost node in colour `k`. */
  ghost function Colored(c: Ctx, k: Color): (d: Ctx)
    requires !c.Top?
    ensures !d.Top? && d.up == c.up
  {
    if c.Left? then Left(c.up, c.node, k, c.right) else Right(c.up, c.left, c.node, k)
  }

  /** The parent of the subtree in view gets the colour `k`. */
  method PaintParent(head: Head, p: Node, k: Color, ghost c: Ctx, ghost t: Tree)
    requires Holds(head, c, t) && !c.Top? && p == c.node
    modifies All(c, t)
    ensures Holds(head, Colored(c, k), t) && All(Colored(c, k), t) == All(c, t)
  {
    hide Holds, Nodes, CtxNodes;
    Up(head, c, t);
    Around(head, c.up, Plug1(c, t));
    Paint(head, p, k, c.up, Plug1(c, t));
    Up(head, Colored(c, k), t);
  }

  /** The repair over a red sibling, with the short subtree on the left. */
  method LowerLeft(head: Head, parent: Node, ghost c: Ctx, ghost t: Tree)
    requires Holds(head, c, t) && c.Left? && Sibling(c).Bin? && parent == c.node
    modifies head, All(c, t)
    ensures Holds(head, Lowered(c), t) && All(Lowered(c), t) == All(c, t)
  {
    hide Holds, Nodes, CtxNodes;
    ghost var w := Sibling(c);
    ghost var sc := SiblingCtx(c, t);
    ToSibling(head, c, t);
    Around(head, sc, w);
    var tmp := parent.right;
    Paint(head, tmp, Black, sc, w);
    ghost var w1 := w.(color := Black);
    PaintParent(head, parent, Red, sc, w1);
    Up(head, Colored(sc, Red), w1);
    RotateLeft(head, parent, c.up, Plug1(Colored(sc, Red), w1));
    Up(head, Lowered(c), t);
    Up(head, Lowered(c).up, Plug1(Lowered(c), t));
  }

  /** The repair with a red nephew, with the short subtree on the left. */
  method BorrowLeft(head: Head, parent: Node, ghost c: Ctx, ghost t: Tree)
    requires Holds(head, c, t) && c.Left? && Sibling(c).Bin? && parent == c.node
    requires IsRed(Sibling(c).left) || IsRed(Sibling(c).right)
    modifies head, All(c, t)
    ensures Holds(head, c.up, Borrowed(c, t)) && All(c.up, Borrowed(c, t)) == All(c, t)
  {
    hide Holds, Nodes, CtxNodes;
    ghost var w := Sibling(c);
    ghost var sc := SiblingCtx(c, t);
    ToSibling(head, c, t);
    Around(head, sc, w);
    AroundBelow(head, sc, w);
    var tmp := parent.right;
    if tmp.right == null || tmp.right.color == Black {
      TwistLeft(head, tmp, sc, w);
      w := TwistedLeft(w);
      Around(head, sc, w);
      AroundBelow(head, sc, w);
      tmp := parent.right;
    }
    Paint(head, tmp, parent.color, sc, w);
    w := w.(color := c.color);
    PaintParent(head, parent, Black, sc, w);
    sc := Colored(sc, Black);
    Around(head, sc, w);
    Up(head, Right(sc, w.left, w.node, w.color), w.right);
    if tmp.right != null {
      Around(head, Right(sc, w.left, w.node, w.color), w.right);
      Paint(head, tmp.right, Black, Right(sc, w.left, w.node, w.color), w.right);
    }
    Up(head, Right(sc, w.left, w.node, w.color), w.right.(color := Black));
    w := w.(right := w.right.(color := Black));
    Up(head, sc, w);
    RotateLeft(head, parent, c.up, Plug1(sc, w));
  }

  /** The near nephew, which is red, takes the sibling's place. */
  ghost function TwistedLeft(w: Tree): Tree
    requires w.Bin? && w.left.Bin?
  {
    var v := w.left;
    Bin(v.left, v.node, Black, Bin(v.right, w.node, Red, w.right))
  }

  method TwistLeft(head: Head, tmp: Node, ghost sc: Ctx, ghost w: Tree)
    requires Holds(head, sc, w) && w.Bin? && w.left.Bin? && tmp == w.node
    modifies head, All(sc, w)
    ensures Holds(head, sc, TwistedLeft(w)) && All(sc, TwistedLeft(w)) == All(sc, w)
  {
    hide Holds, Nodes, CtxNodes;
    ghost var vc, v := Left(sc, w.node, w.color, w.right), w.left;
    Around(head, sc, w);
    Up(head, vc, v);
    var oleft := tmp.left;
    Around(head, vc, v);
    Paint(head, oleft, Black, vc, v);
    ghost var w1 := w.(left := v.(color := Black));
    Up(head, vc, v.(color := Black));
    Around(head, sc, w1);
    Paint(head, tmp, Red, sc, w1);
    RotateRight(head, tmp, sc, w1.(color := Red));
  }

  /** The repair over a red sibling, with the short subtree on the right. */
  method LowerRight(head: Head, parent: Node, ghost c: Ctx, ghost t: Tree)
    requires Holds(head, c, t) && c.Right? && Sibling(c).Bin? && parent == c.node
    modifies head, All(c, t)
    ensures Holds(head, Lowered(c), t) && All(Lowered(c), t) == All(c, t)
  {
    hide Holds, Nodes, CtxNodes;
    ghost var w := Sibling(c);
    ghost var sc := SiblingCtx(c, t);
    ToSibling(head, c, t);
    Around(head, sc, w);
    var tmp := parent.left;
    Paint(head, tmp, Black, sc, w);
    ghost var w1 := w.(color := Black);
    PaintParent(head, parent, Red, sc, w1);
    Up(head, Colored(sc, Red), w1);
    RotateRight(head, parent, c.up, Plug1(Colored(sc, Red), w1));
    Up(head, Lowered(c), t);
    Up(head, Lowered(c).up, Plug1(Lowered(c), t));
  }

  /** The repair with a red nephew, with the short subtree on the right. */
  method BorrowRight(head: Head, parent: Node, ghost c: Ctx, ghost t: Tree)
    requires Holds(head, c, t) && c.Right? && Sibling(c).Bin? && parent == c.node
    requires IsRed(Sibling(c).left) || IsRed(Sibling(c).right)
    modifies head, All(c, t)
    ensures Holds(head, c.up, Borrowed(c, t)) && All(c.up, Borrowed(c, t)) == All(c, t)
  {
    hide Holds, Nodes, CtxNodes;
    ghost var w := Sibling(c);
    ghost var sc := SiblingCtx(c, t);
    ToSibling(head, c, t);
    Around(head, sc, w);
    AroundBelow(head, sc, w);
    var tmp := parent.left;
    if tmp.left == null || tmp.left.color == Black {
      TwistRight(head, tmp, sc, w);
      w := TwistedRight(w);
      Around(head, sc, w);
      AroundBelow(head, sc, w);
      tmp := parent.left;
    }
    Paint(head, tmp, parent.color, sc, w);
    w := w.(color := c.color);
    PaintParent(head, parent, Black, sc, w);
    sc := Colored(sc, Black);
    Around(head, sc, w);
    Up(head, Left(sc, w.node, w.color, w.right), w.left);
    if tmp.left != null {
      Around(head, Left(sc, w.node, w.color, w.right), w.left);
      Paint(head, tmp.left, Black, Left(sc, w.node, w.color, w.right), w.left);
    }
    Up(head, Left(sc, w.node, w.color, w.right), w.left.(color := Black));
    w := w.(left := w.left.(color := Black));
    Up(head, sc, w);
    RotateRight(head, parent, c.up, Plug1(sc, w));
  }

  /** The near nephew, which is red, takes the sibling's place. */
  ghost function TwistedRight(w: Tree): Tree
    requires w.Bin? && w.right.Bin?
  {
    var v := w.right;
    Bin(Bin(w.left, w.node, Red, v.left), v.node, Black, v.right)
  }

  method TwistRight(head: Head, tmp: Node, ghost sc: Ctx, ghost w: Tree)
    requires Holds(head, sc, w) && w.Bin? && w.right.Bin? && tmp == w.node
    modifies head, All(sc, w)
    ensures Holds(head, sc, TwistedRight(w)) && All(sc, TwistedRight(w)) == All(sc, w)
  {
    hide Holds, Nodes, CtxNodes;
    ghost var vc, v := Right(sc, w.left, w.node, w.color), w.right;
    Around(head, sc, w);
    Up(head, vc, v);
    var oright := tmp.right;
    Around(head, vc, v);
    Paint(head, oright, Black, vc, v);
    ghost var w1 := w.(right := v.(color := Black));
    Up(head, vc, v.(color := Black));
    Around(head, sc, w1);
    Paint(head, tmp, Red, sc, w1);
    RotateLeft(head, tmp, sc, w1.(color := Red));
  }

  // ---------------------------------------------------------------------------
  // The loop

  ghost function Blackened(t: Tree): Tree {
    if t.Bin? then t.(color := Black) else Leaf
  }

  /** The head points to the root of the whole tree, which is not the subtree in view unless that is all. */
  lemma {:induction false} HeadRoot(head: Head, c: Ctx, t: Tree)
    requires Holds(head, c, t)
    ensures c.Top? <==> head.root == RootOf(t)
    ensures !c.Top? ==> head.root != null
  {
    Zip(head, c, t);
    if !c.Top? {
      PlugOutside(c, t);
      RootIn(t, c);
    }
  }

  lemma {:induction false} PlugOutside(c: Ctx, t: Tree)
    requires !c.Top?
    ensures Plug(c, t).Bin? && Plug(c, t).node in CtxNodes(c)
    decreases c
  {
    if !c.up.Top? { PlugOutside(c.up, Plug1(c, t)); }
  }

  /** When the loop ends by its condition, blackening the subtree in view makes a red-black tree. */
  lemma {:induction false} ShortDone(c: Ctx, t: Tree, h: int, top: int)
    requires Short(c, t, h, top) && (IsRed(t) || c.Top?)
    ensures RedBlack(Plug(c, Blackened(t)), if IsRed(t) then top else h)
    ensures Inorder(Blackened(t)) == Inorder(t) && (t.Bin? ==> Blackened(t) == t.(color := Black)) && (t.Leaf? ==> Blackened(t) == t)
  {
    hide Balanced, Proper, CtxBalanced, CtxProper;
    var b := Blackened(t);
    if IsRed(t) {
      Level(t, h);
      Level(b, h + 1);
      PlugBalanced(c, b, h + 1, top);
      PlugProper(c, b);
      PlugRoot(c, b);
    } else {
      if t.Bin? { Level(t, h); } else { ProperLeaf(); }
    }
  }

  /** One round of the loop that does not finish the repair: a red sibling is lowered first, then the sibling darkens. */
  ghost function NextCtx(c: Ctx): Ctx
    requires !c.Top? && Sibling(c).Bin?
  {
    if Sibling(c).color == Red then Lowered(c) else c
  }

  lemma {:induction false} NextOk(c: Ctx, t: Tree, h: int, top: int)
    requires Short(c, t, h, top) && !c.Top? && Sibling(c).Bin?
    ensures !NextCtx(c).Top? && Short(NextCtx(c), t, h, top)
    ensures Sibling(NextCtx(c)).Bin? && Sibling(NextCtx(c)).color == Black
    ensures NextCtx(c).node == c.node && NextCtx(c).Left? == c.Left?
    ensures Before(NextCtx(c)) == Before(c) && After(NextCtx(c)) == After(c)
    ensures Depth(NextCtx(c).up) < Depth(c) || (Depth(NextCtx(c).up) == Depth(c) && NextCtx(c).color == Red)
  {
    hide Short;
    if Sibling(c).color == Red {
      LoweredOk(c, t, h, top);
      HasSibling(Lowered(c), t, h, top);
      LoweredOrder(c, t);
    }
  }

  /** What memory says around a subtree with a sibling. */
  lemma {:induction false} ParentLinks(head: Head, c: Ctx, t: Tree)
    requires Holds(head, c, t) && !c.Top? && Sibling(c).Bin?
    ensures var w := Sibling(c);
            && c.node in All(c, t) && c.node.color == c.color && w.node in All(c, t)
            && (c.Left? <==> c.node.left == RootOf(t))
            && w.node == (if c.Left? then c.node.right else c.node.left) && w.node.color == w.color
            && w.node.left == RootOf(w.left) && w.node.right == RootOf(w.right)
            && (w.left.Bin? ==> w.left.node.color == w.left.color)
            && (w.right.Bin? ==> w.right.node.color == w.right.color)
  {
    hide Stored, Nodes, CtxNodes;
    var w, sc := Sibling(c), SiblingCtx(c, t);
    ToSibling(head, c, t);
    Around(head, sc, w);
    AroundBelow(head, sc, w);
    SiblingFields(head, c, t);
  }

  /** The sibling turns red. */
  method DarkenSibling(head: Head, tmp: Node, ghost c: Ctx, ghost t: Tree)
    requires Holds(head, c, t) && !c.Top? && Sibling(c).Bin? && tmp == Sibling(c).node
    modifies All(c, t)
    ensures Holds(head, c.up, Darkened(c, t)) && All(c.up, Darkened(c, t)) == All(c, t)
  {
    hide Holds, Nodes, CtxNodes;
    ghost var w, sc := Sibling(c), SiblingCtx(c, t);
    ToSibling(head, c, t);
    Around(head, sc, w);
    Paint(head, tmp, Red, sc, w);
    Up(head, sc, w.(color := Red));
  }

  /** The whole tree after the parent's subtree was replaced by `b`, a tree of the same nodes. */
  lemma {:induction false} Regain(head: Head, c: Ctx, t: Tree, b: Tree, top: int)
    requires !c.Top? && Holds(head, c.up, b) && b.Bin? && Inorder(b) == Inorder(Plug1(c, t))
    requires RedBlack(Plug(c.up, b), top)
    ensures var r := Plug(c.up, b);
            && r.Bin? && Holds(head, Top, r) && head.root == r.node && r.node in Nodes(r) && r.(color := Black) == r
            && Inorder(r) == Before(c) + Inorder(t) + After(c) && Nodes(r) == All(c.up, b)
  {
    hide Holds, Nodes, CtxNodes, Inorder, Before, After;
    var r := Plug(c.up, b);
    PlugBin(c.up, b);
    Zip(head, c.up, b);
    Around(head, Top, r);
    PlugInorder(c.up, b);
    PlugInorder(c.up, Plug1(c, t));
    PlugInorder(c, t);
  }

  /** A red sibling is rotated over the parent, so that the sibling is black. */
  method LowerRed(head: Head, p: Node, onLeft: bool, ghost c: Ctx, ghost t: Tree)
    requires Holds(head, c, t) && !c.Top? && Sibling(c).Bin? && p == c.node && onLeft == c.Left?
    modifies head, All(c, t)
    ensures Holds(head, NextCtx(c), t) && All(NextCtx(c), t) == All(c, t)
  {
    hide Holds, Nodes, CtxNodes;
    ParentLinks(head, c, t);
    var tmp := if onLeft then p.right else p.left;
    if tmp.color == Red {
      if onLeft {
        LowerLeft(head, p, c, t);
      } else {
        LowerRight(head, p, c, t);
      }
    }
  }

  /** The sibling darkens, and the parent's subtree is the short one. */
  method Climb(head: Head, tmp: Node, ghost c: Ctx, ghost t: Tree, ghost h: int, ghost top: int)
    requires Holds(head, c, t) && Short(c, t, h, top) && !c.Top? && !IsRed(t)
    requires Sibling(c).Bin? && Sibling(c).color == Black && tmp == Sibling(c).node
    requires !IsRed(Sibling(c).left) && !IsRed(Sibling(c).right)
    modifies All(c, t)
    ensures Holds(head, c.up, Darkened(c, t)) && All(c.up, Darkened(c, t)) == All(c, t)
    ensures Short(c.up, Darkened(c, t), if c.color == Black then h + 1 else h, top)
    ensures Before(c.up) + Inorder(Darkened(c, t)) + After(c.up) == Before(c) + Inorder(t) + After(c)
    ensures c.node in All(c, t) && c.node.color == c.color && c.node.parent == ParentOf(c.up)
    ensures c.up.Top? <==> head.root == c.node
  {
    hide Holds, Nodes, CtxNodes, Short, Inorder, Before, After;
    DarkenSibling(head, tmp, c, t);
    DarkenedOk(c, t, h, top);
    DarkenedOrder(c, t);
    Around(head, c.up, Darkened(c, t));
    HeadRoot(head, c.up, Darkened(c, t));
  }

  /** A red nephew ends the repair; the root is blackened, which it already was. */
  method Finish(head: Head, p: Node, onLeft: bool, ghost c: Ctx, ghost t: Tree, ghost h: int, ghost top: int)
    returns (ghost t1: Tree)
    requires Holds(head, c, t) && Short(c, t, h, top) && !c.Top? && !IsRed(t)
    requires Sibling(c).Bin? && Sibling(c).color == Black && p == c.node && onLeft == c.Left?
    requires IsRed(Sibling(c).left) || IsRed(Sibling(c).right)
    modifies head, All(c, t)
    ensures Holds(head, Top, t1) && RedBlack(t1, top)
    ensures Inorder(t1) == Before(c) + Inorder(t) + After(c) && Nodes(t1) == All(c, t)
  {
    hide Holds, Nodes, CtxNodes, Short, RedBlack, Inorder, Before, After, Plug;
    BorrowedOk(c, t, h, top);
    BorrowedOrder(c, t);
    if onLeft {
      BorrowLeft(head, p, c, t);
    } else {
      BorrowRight(head, p, c, t);
    }
    t1 := Plug(c.up, Borrowed(c, t));
    Regain(head, c, t, Borrowed(c, t), top);
    var e := head.root;
    Paint(head, e, Black, Top, t1);
  }

  /** One turn of the loop: the deficit moves up, or the tree is repaired. */
  method Round(head: Head, e: Node?, p: Node, ghost c: Ctx, ghost t: Tree, ghost h: int, ghost top: int)
    returns (stop: bool, e1: Node?, p1: Node?, ghost c1: Ctx, ghost t1: Tree, ghost h1: int)
    requires Holds(head, c, t) && Short(c, t, h, top) && e == RootOf(t) && p == ParentOf(c)
    requires !c.Top? && (e != null ==> e.color == t.color) && (e == null || e.color == Black)
    modifies head, All(c, t)
    ensures stop ==> Holds(head, Top, t1) && RedBlack(t1, top)
                     && Inorder(t1) == Before(c) + Inorder(t) + After(c) && Nodes(t1) == All(c, t)
    ensures !stop ==>
              && Holds(head, c1, t1) && Short(c1, t1, h1, top) && e1 == RootOf(t1) && p1 == ParentOf(c1)
              && Before(c1) + Inorder(t1) + After(c1) == Before(c) + Inorder(t) + After(c) && All(c1, t1) == All(c, t)
              && (c1.Top? <==> head.root == e1) && (e1 != null ==> e1 in All(c, t) && e1.color == t1.color)
              && (Depth(c1) < Depth(c) || (Depth(c1) == Depth(c) && IsRed(t1)))
  {
    hide Holds, Nodes, CtxNodes, Short, RedBlack, Inorder, Before, After, Plug, Darkened, NextCtx;
    HasSibling(c, t, h, top);
    NextOk(c, t, h, top);
    ParentLinks(head, c, t);
    var onLeft := p.left == e;
    LowerRed(head, p, onLeft, c, t);
    c1 := NextCtx(c);
    ParentLinks(head, c1, t);
    var tmp := if onLeft then p.right else p.left;
    if (tmp.left == null || tmp.left.color == Black) && (tmp.right == null || tmp.right.color == Black) {
      Climb(head, tmp, c1, t, h, top);
      stop, e1 := false, p;
      p1 := e1.parent;
      t1, h1, c1 := Darkened(c1, t), if c1.color == Black then h + 1 else h, c1.up;
    } else {
      t1 := Finish(head, p, onLeft, c1, t, h, top);
      stop, e1, p1, h1 := true, null, null, h;
    }
  }

  /** RB_REMOVE_COLOR. */
  method RemoveColor(head: Head, parent: Node?, elm: Node?, ghost c: Ctx, ghost t: Tree, ghost h: int, ghost top: int)
    returns (ghost t1: Tree, ghost top1: int)
    requires Holds(head, c, t) && Short(c, t, h, top) && elm == RootOf(t) && parent == ParentOf(c)
    modifies head, All(c, t)
    ensures Holds(head, Top, t1) && RedBlack(t1, top1)
    ensures Inorder(t1) == Before(c) + Inorder(t) + After(c) && Nodes(t1) == All(c, t)
  {
    hide Holds, Nodes, CtxNodes, Short, RedBlack, Inorder, Before, After, Plug, Blackened;
    ghost var all, order := All(c, t), Before(c) + Inorder(t) + After(c);
    var e, p := elm, parent;
    ghost var cc, tt, hh := c, t, h;
    HeadRoot(head, cc, tt);
    if tt.Bin? { Around(head, cc, tt); }
    while (e == null || e.color == Black) && e != head.root
      invariant Holds(head, cc, tt) && Short(cc, tt, hh, top) && e == RootOf(tt) && p == ParentOf(cc)
      invariant Before(cc) + Inorder(tt) + After(cc) == order && All(cc, tt) == all
      invariant (cc.Top? <==> head.root == e) && (e != null ==> e in all && e.color == tt.color)
      decreases Depth(cc), if IsRed(tt) then 0 else 1
    {
      var stop;
      stop, e, p, cc, tt, hh := Round(head, e, p, cc, tt, hh, top);
      if stop {
        return tt, top;
      }
    }
    ShortDone(cc, tt, hh, top);
    PlugInorder(cc, Blackened(tt));
    if e != null {
      Paint(head, e, Black, cc, tt);
    }
    Zip(head, cc, Blackened(tt));
    t1, top1 := Plug(cc, Blackened(tt)), if IsRed(tt) then top else hh;
  }
}
