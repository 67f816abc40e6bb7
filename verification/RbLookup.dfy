/** RB_NFIND and RB_NEXT: searching and walking the tree along its links. */
module RbLookup {
  import opened RbTree
  import opened RbLinks
  import opened RbInsert
  import opened RbDelete

  function First(s: seq<Node>): Node? {
    if s == [] then null else s[0]
  }

  /** `i` is where `k` belongs: everything before is smaller, everything from there on is not. */
  ghost predicate Splits(s: seq<Node>, i: nat, k: int) {
    && i <= |s|
    && (forall x :: 0 <= x < i ==> s[x].key < k)
    && (forall x :: i <= x < |s| ==> s[x].key >= k)
  }

  lemma {:induction false} SplitsLeaf(c: Ctx, k: int)
    requires Below(Before(c), k) && Above(After(c), k)
    ensures var s := Inorder(Plug(c, Leaf)); Splits(s, |Before(c)|, k) && s[|Before(c)|..] == After(c)
  {
    PlugInorder(c, Leaf);
    assert Before(c) + Inorder(Leaf) + After(c) == Before(c) + After(c);
  }

  lemma {:induction false} SplitsAt(c: Ctx, t: Tree, k: int)
    requires t.Bin? && t.node.key == k && Sorted(Inorder(Plug(c, t)))
    ensures var s, i := Inorder(Plug(c, t)), |Before(c)| + |Inorder(t.left)|; Splits(s, i, k) && i < |s| && s[i] == t.node
  {
    WithoutNode(c, t);
  }

  /** RB_NFIND: the first element whose key is not below `key`, or null. */
  method Nfind(head: Head, key: int, ghost t: Tree) returns (res: Node?, ghost i: nat)
    requires Holds(head, Top, t) && Sorted(Inorder(t))
    ensures Splits(Inorder(t), i, key) && res == First(Inorder(t)[i..])
  {
    hide Holds, Nodes, CtxNodes, Before, After, Inorder, Sorted, Below, Above, Plug, Splits;
    TopOrder(t, key);
    var tmp := head.root;
    res := null;
    ghost var c, v := Top, t;
    Seen(head, c, v);
    PlugTop(t);
    while tmp != null
      invariant Holds(head, c, v) && tmp == RootOf(v) && Plug(c, v) == t
      invariant Below(Before(c), key) && Above(After(c), key) && res == First(After(c))
      decreases v
    {
      PlugInorder(c, v);
      Narrow(c, v, key);
      Seen(head, c, v);
      LeftAgain(c, v);
      RightAgain(c, v);
      PlugStep(c, v);
      if key < tmp.key {
        res := tmp;
        tmp := tmp.left;
        Up(head, Left(c, v.node, v.color, v.right), v.left);
        c, v := Left(c, v.node, v.color, v.right), v.left;
      } else if key > tmp.key {
        tmp := tmp.right;
        Up(head, Right(c, v.left, v.node, v.color), v.right);
        c, v := Right(c, v.left, v.node, v.color), v.right;
      } else {
        SplitsAt(c, v, key);
        i := |Before(c)| + |Inorder(v.left)|;
        SplitsRange(Inorder(t), i, key);
        return tmp, i;
      }
    }
    SplitsLeaf(c, key);
    i := |Before(c)|;
  }

  lemma {:induction false} SplitsRange(s: seq<Node>, i: nat, k: int)
    requires Splits(s, i, k)
    ensures i <= |s| && (i < |s| ==> First(s[i..]) == s[i])
  {
  }

  lemma {:induction false} PlugTop(t: Tree)
    ensures Plug(Top, t) == t
  {
  }

  lemma {:induction false} PlugStep(c: Ctx, t: Tree)
    requires t.Bin?
    ensures Plug(Left(c, t.node, t.color, t.right), t.left) == Plug(c, t)
    ensures Plug(Right(c, t.left, t.node, t.color), t.right) == Plug(c, t)
  {
  }

  /** What follows, and what precedes, the node in view. */
  lemma {:induction false} NeighboursInOrder(c: Ctx, t: Tree)
    requires t.Bin?
    ensures var s, i := Inorder(Plug(c, t)), |Before(c)| + |Inorder(t.left)|;
            && i < |s| && s[i] == t.node
            && s[i + 1..] == Inorder(t.right) + After(c) && s[..i] == Before(c) + Inorder(t.left)
  {
    hide Plug, Before, After;
    PlugInorder(c, t);
    BinOrder(t.left, t.node, t.color, t.right);
    SplitAround(Before(c), Inorder(t.left), t.node, Inorder(t.right), After(c));
  }

  lemma {:induction false} SplitAround<T>(a: seq<T>, l: seq<T>, n: T, r: seq<T>, b: seq<T>)
    ensures var s, i := a + (l + [n] + r) + b, |a| + |l|;
            i < |s| && s[i] == n && s[i + 1..] == r + b && s[..i] == a + l
  {
  }

  /** RB_NEXT: the element after `elm` in key order, or null. */
  method Next(elm: Node, ghost head: Head, ghost c: Ctx, ghost t: Tree) returns (r: Node?)
    requires Holds(head, c, t) && t.Bin? && t.node == elm
    ensures var s, i := Inorder(Plug(c, t)), |Before(c)| + |Inorder(t.left)|;
            i < |s| && s[i] == elm && r == First(s[i + 1..])
  {
    hide Holds, Nodes, CtxNodes, Before, After, Inorder, Plug;
    NeighboursInOrder(c, t);
    Around(head, c, t);
    if elm.right != null {
      RightAgain(c, t);
      Up(head, Right(c, t.left, t.node, t.color), t.right);
      ghost var inner, v;
      r, inner, v := Leftmost(head, elm.right, Right(c, t.left, t.node, t.color), t.right);
      VineOrder(v, inner);
    } else {
      NoOrder(t.right);
      var e: Node? := elm;
      ghost var cc, tt := c, t;
      if e.parent != null && e == e.parent.left {
        AfterLeft(cc);
        r := e.parent;
      } else {
        while e.parent != null && e == e.parent.right
          invariant e != null && Holds(head, cc, tt) && tt.Bin? && tt.node == e
          invariant After(cc) == After(c)
          decreases cc
        {
          Around(head, cc, tt);
          Up(head, cc, tt);
          AfterRight(cc);
          e := e.parent;
          cc, tt := cc.up, Plug1(cc, tt);
        }
        Around(head, cc, tt);
        AfterEnd(cc);
        r := e.parent;
      }
    }
  }

  lemma {:induction false} NoOrder(t: Tree)
    ensures t.Leaf? ==> Inorder(t) == []
  {
  }

  lemma {:induction false} AfterLeft(c: Ctx)
    ensures c.Left? ==> After(c) != [] && After(c)[0] == c.node
  {
  }

  lemma {:induction false} AfterRight(c: Ctx)
    ensures c.Right? ==> After(c) == After(c.up)
  {
  }

  lemma {:induction false} AfterEnd(c: Ctx)
    ensures c.Top? ==> After(c) == []
    ensures c.Left? ==> After(c) != [] && After(c)[0] == c.node
  {
  }
}
