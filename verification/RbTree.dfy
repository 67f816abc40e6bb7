/**
 Red-black trees as values: the tree the links describe, contexts around a subtree,
 and the red-black conditions on both.
 */
module RbTree {
  import opened Word64

  datatype Color = Red | Black

  /** A tree element: a key and the links of RB_ENTRY. */
  class Node {
    const key: int
    var left: Node?
    var right: Node?
    var parent: Node?
    var color: Color

    constructor (key: int)
      ensures this.key == key
    {
      this.key := key;
      left, right, parent, color := null, null, null, Black;
    }
  }

  datatype Tree = Leaf | Bin(left: Tree, node: Node, color: Color, right: Tree)

  /** The way from a subtree up to the root; `Left` says the subtree is the left child of `node`. */
  datatype Ctx =
    | Top
    | Left(up: Ctx, node: Node, color: Color, right: Tree)
    | Right(up: Ctx, left: Tree, node: Node, color: Color)

  ghost function Plug(c: Ctx, t: Tree): Tree
    decreases c
  {
    match c
    case Top => t
    case Left(up, n, k, r) => Plug(up, Bin(t, n, k, r))
    case Right(up, l, n, k) => Plug(up, Bin(l, n, k, t))
  }

  ghost function Inorder(t: Tree): seq<Node> {
    match t
    case Leaf => []
    case Bin(l, n, _, r) => Inorder(l) + [n] + Inorder(r)
  }

  /** What comes before and after the subtree in the order of the whole tree. */
  ghost function Before(c: Ctx): seq<Node> {
    match c
    case Top => []
    case Left(up, _, _, _) => Before(up)
    case Right(up, l, n, _) => Before(up) + Inorder(l) + [n]
  }

  ghost function After(c: Ctx): seq<Node> {
    match c
    case Top => []
    case Left(up, n, _, r) => [n] + Inorder(r) + After(up)
    case Right(up, _, _, _) => After(up)
  }

  lemma {:induction false} PlugInorder(c: Ctx, t: Tree)
    ensures Inorder(Plug(c, t)) == Before(c) + Inorder(t) + After(c)
    decreases c
  {
    match c
    case Top =>
    case Left(up, n, k, r) =>
      PlugInorder(up, Bin(t, n, k, r));
      Shift(Before(up), Inorder(t), [n] + Inorder(r), After(up));
      assert Inorder(t) + [n] + Inorder(r) == Inorder(t) + ([n] + Inorder(r));
    case Right(up, l, n, k) =>
      PlugInorder(up, Bin(l, n, k, t));
      Shift(Before(up), Inorder(l) + [n], Inorder(t), After(up));
      assert Before(up) + (Inorder(l) + [n]) == Before(up) + Inorder(l) + [n];
  }

  lemma {:induction false} Shift<T>(a: seq<T>, b: seq<T>, c: seq<T>, d: seq<T>)
    ensures a + (b + c) + d == a + b + (c + d) == (a + b) + c + d
  {
  }

  /** Strictly increasing keys. */
  ghost predicate Sorted(s: seq<Node>) {
    forall i, j :: 0 <= i < j < |s| ==> s[i].key < s[j].key
  }

  /** All keys of `s` are below, or above, `k`. */
  ghost predicate Below(s: seq<Node>, k: int) {
    forall i :: 0 <= i < |s| ==> s[i].key < k
  }

  ghost predicate Above(s: seq<Node>, k: int) {
    forall i :: 0 <= i < |s| ==> s[i].key > k
  }

  // ---------------------------------------------------------------------------
  // The red-black conditions

  predicate IsRed(t: Tree) { t.Bin? && t.color == Red }

  /** Every path from the root to a leaf has `h` black nodes. */
  ghost predicate Balanced(t: Tree, h: int) {
    match t
    case Leaf => h == 0
    case Bin(l, _, Black, r) => Balanced(l, h - 1) && Balanced(r, h - 1)
    case Bin(l, _, Red, r) => Balanced(l, h) && Balanced(r, h)
  }

  /** No red node has a red child. */
  ghost predicate Proper(t: Tree) {
    match t
    case Leaf => true
    case Bin(l, _, k, r) => Proper(l) && Proper(r) && (k == Red ==> !IsRed(l) && !IsRed(r))
  }

  /** Both subtrees are proper; the root may be a red node with red children. */
  ghost predicate ProperBelow(t: Tree) {
    t.Bin? ==> Proper(t.left) && Proper(t.right)
  }

  /** With a subtree of black height `h` in place, the whole tree has black height `top`. */
  ghost predicate CtxBalanced(c: Ctx, h: int, top: int) {
    match c
    case Top => h == top
    case Left(up, _, k, r) => Balanced(r, h) && CtxBalanced(up, if k == Black then h + 1 else h, top)
    case Right(up, l, _, k) => Balanced(l, h) && CtxBalanced(up, if k == Black then h + 1 else h, top)
  }

  predicate ParentRed(c: Ctx) { !c.Top? && c.color == Red }

  /** The context is proper apart from the link to the subtree itself. */
  ghost predicate CtxProper(c: Ctx) {
    match c
    case Top => true
    case Left(up, _, k, r) => Proper(r) && (k == Red ==> !IsRed(r) && !ParentRed(up)) && CtxProper(up)
    case Right(up, l, _, k) => Proper(l) && (k == Red ==> !IsRed(l) && !ParentRed(up)) && CtxProper(up)
  }

  /** The root of the whole tree is black, if it is part of the context. */
  ghost predicate TopBlack(c: Ctx) {
    match c
    case Top => true
    case Left(up, _, k, _) => if up.Top? then k == Black else TopBlack(up)
    case Right(up, _, _, k) => if up.Top? then k == Black else TopBlack(up)
  }

  /** A red-black tree. */
  ghost predicate RedBlack(t: Tree, h: int) {
    Balanced(t, h) && Proper(t) && !IsRed(t)
  }

  /** The other child of the context's innermost node. */
  function Sibling(c: Ctx): Tree
    requires !c.Top?
  {
    if c.Left? then c.right else c.left
  }

  /** The subtree of the context's innermost node with `t` in place. */
  function Plug1(c: Ctx, t: Tree): (p: Tree)
    requires !c.Top?
    ensures p.Bin? && p.node == c.node && p.color == c.color
  {
    if c.Left? then Bin(t, c.node, c.color, c.right) else Bin(c.left, c.node, c.color, t)
  }

  /** One level of the conditions on a context. */
  lemma {:induction false} CtxLevel(c: Ctx, h: int, top: int)
    requires !c.Top?
    ensures CtxBalanced(c, h, top) <==>
              Balanced(Sibling(c), h) && CtxBalanced(c.up, if c.color == Black then h + 1 else h, top)
    ensures CtxProper(c) <==>
              Proper(Sibling(c)) && (c.color == Red ==> !IsRed(Sibling(c)) && !ParentRed(c.up)) && CtxProper(c.up)
    ensures TopBlack(c) <==> if c.up.Top? then c.color == Black else TopBlack(c.up)
  {
  }

  /** One level of the conditions on a tree. */
  lemma {:induction false} Level(t: Tree, h: int)
    requires t.Bin?
    ensures var below := if t.color == Black then h - 1 else h;
            Balanced(t, h) <==> Balanced(t.left, below) && Balanced(t.right, below)
    ensures Proper(t) <==> Proper(t.left) && Proper(t.right) && (t.color == Red ==> !IsRed(t.left) && !IsRed(t.right))
  {
  }

  lemma {:induction false} PlugBalanced(c: Ctx, t: Tree, h: int, top: int)
    requires CtxBalanced(c, h, top)
    ensures Balanced(t, h) ==> Balanced(Plug(c, t), top)
    decreases c
  {
    match c
    case Top =>
    case Left(up, n, k, r) => PlugBalanced(up, Bin(t, n, k, r), if k == Black then h + 1 else h, top);
    case Right(up, l, n, k) => PlugBalanced(up, Bin(l, n, k, t), if k == Black then h + 1 else h, top);
  }

  lemma {:induction false} PlugProper(c: Ctx, t: Tree)
    ensures Proper(Plug(c, t)) <==> CtxProper(c) && Proper(t) && !(ParentRed(c) && IsRed(t))
    decreases c
  {
    match c
    case Top =>
    case Left(up, n, k, r) => PlugProper(up, Bin(t, n, k, r));
    case Right(up, l, n, k) => PlugProper(up, Bin(l, n, k, t));
  }

  /** Taking a balanced tree apart. */
  lemma {:induction false} UnplugBalanced(c: Ctx, t: Tree, top: int) returns (h: int)
    requires Balanced(Plug(c, t), top)
    ensures Balanced(t, h) && CtxBalanced(c, h, top)
    decreases c
  {
    match c
    case Top => h := top;
    case Left(up, n, k, r) =>
      h := UnplugBalanced(up, Bin(t, n, k, r), top);
      if k == Black { h := h - 1; }
    case Right(up, l, n, k) =>
      h := UnplugBalanced(up, Bin(l, n, k, t), top);
      if k == Black { h := h - 1; }
  }

  lemma {:induction false} PlugRoot(c: Ctx, t: Tree)
    ensures !c.Top? ==> (!IsRed(Plug(c, t)) <==> TopBlack(c))
    decreases c
  {
    match c
    case Top =>
    case Left(up, n, k, r) => PlugRoot(up, Bin(t, n, k, r));
    case Right(up, l, n, k) => PlugRoot(up, Bin(l, n, k, t));
  }

  lemma {:induction false} BalancedNonNegative(t: Tree, h: int)
    requires Balanced(t, h)
    ensures h >= 0
  {
    match t
    case Leaf =>
    case Bin(l, _, k, _) => BalancedNonNegative(l, if k == Black then h - 1 else h);
  }

  // ---------------------------------------------------------------------------
  // Height

  ghost function Height(t: Tree): nat {
    match t
    case Leaf => 0
    case Bin(l, _, _, r) => 1 + if Height(l) > Height(r) then Height(l) else Height(r)
  }

  /** A balanced tree of black height `h` has at least 2^h - 1 nodes. */
  lemma {:induction false} SizeBound(t: Tree, h: nat)
    requires Balanced(t, h)
    ensures |Inorder(t)| + 1 >= Pow2(h)
  {
    match t
    case Leaf =>
    case Bin(l, _, Black, r) =>
      BalancedNonNegative(l, h - 1);
      SizeBound(l, h - 1);
      SizeBound(r, h - 1);
    case Bin(l, _, Red, r) =>
      SizeBound(l, h);
      SizeBound(r, h);
  }

  /** No path is more than twice as long as the black height, plus one for a red root. */
  lemma {:induction false} HeightBound(t: Tree, h: nat)
    requires Balanced(t, h) && Proper(t)
    ensures Height(t) <= 2 * h + if IsRed(t) then 1 else 0
  {
    match t
    case Leaf =>
    case Bin(l, _, Black, r) =>
      BalancedNonNegative(l, h - 1);
      HeightBound(l, h - 1);
      HeightBound(r, h - 1);
    case Bin(l, _, Red, r) =>
      HeightBound(l, h);
      HeightBound(r, h);
  }

  lemma {:induction false} Pow2Double(h: nat)
    ensures Pow2(2 * h) == Pow2(h) * Pow2(h)
  {
    if h > 0 {
      Pow2Double(h - 1);
      assert Pow2(2 * h) == 4 * Pow2(2 * h - 2);
      var p := Pow2(h - 1);
      assert (2 * p) * (2 * p) == 4 * (p * p);
    }
  }

  /** The height of a red-black tree of n nodes is at most 2 lg(n + 1). */
  lemma {:induction false} HeightLogarithmic(t: Tree, h: nat)
    requires RedBlack(t, h)
    ensures Pow2(Height(t)) <= (|Inorder(t)| + 1) * (|Inorder(t)| + 1)
  {
    HeightBound(t, h);
    SizeBound(t, h);
    Pow2Monotone(Height(t), 2 * h);
    Pow2Double(h);
    var a, b := Pow2(h), |Inorder(t)| + 1;
    assert a * a <= b * b by { MulMonotone(a, b); }
  }

  lemma {:induction false} MulMonotone(a: nat, b: nat)
    requires a <= b
    ensures a * a <= b * b
  {
    assert b * b - a * a == (b - a) * (b + a);
    assert (b - a) * (b + a) >= 0;
  }
}
