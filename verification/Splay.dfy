/**
 Splay trees: the top-down splay of `sys/tree.h` on nodes with two child fields. While it goes
 down, the smaller elements it passed hang on a spine to the left and the larger ones on a
 spine to the right; both start at a node of their own on the stack.
 */
module Splay {
  class Node {
    const key: int
    var left: Node?
    var right: Node?

    constructor (key: int)
      ensures this.key == key && left == null && right == null
    {
      this.key, left, right := key, null, null;
    }
  }

  /** SPLAY_HEAD. */
  class Head {
    var root: Node?

    constructor ()
      ensures root == null
    {
      root := null;
    }
  }

  datatype Tree = Leaf | Bin(left: Tree, node: Node, right: Tree)

  /** A spine without its last link: what is above, the subtree hanging off the last node, and the last node. */
  datatype Spine = End | More(rest: Spine, sub: Tree, node: Node)

  /** What is searched for: a key, or one of the ends. */
  datatype Target = Key(k: int) | NegInf | Inf

  /** The comparison of the target with a node. */
  function Compare(g: Target, n: Node): int {
    match g
    case Key(k) => if k < n.key then -1 else if k > n.key then 1 else 0
    case NegInf => -1
    case Inf => 1
  }

  // ---------------------------------------------------------------------------
  // Order

  ghost function Inorder(t: Tree): seq<Node> {
    match t
    case Leaf => []
    case Bin(l, n, r) => Inorder(l) + [n] + Inorder(r)
  }

  ghost function Smaller(s: Spine): seq<Node> {
    match s
    case End => []
    case More(rest, sub, n) => Smaller(rest) + (Inorder(sub) + [n])
  }

  ghost function Larger(s: Spine): seq<Node> {
    match s
    case End => []
    case More(rest, sub, n) => [n] + Inorder(sub) + Larger(rest)
  }

  ghost predicate Sorted(s: seq<Node>) {
    forall i, j :: 0 <= i < j < |s| ==> s[i].key < s[j].key
  }

  /** All elements are below the target. */
  ghost predicate Below(s: seq<Node>, g: Target) {
    forall i :: 0 <= i < |s| ==> Compare(g, s[i]) > 0
  }

  ghost predicate Above(s: seq<Node>, g: Target) {
    forall i :: 0 <= i < |s| ==> Compare(g, s[i]) < 0
  }

  /** A tree at the open end of the left spine. */
  ghost function PlugLeft(s: Spine, t: Tree): Tree {
    match s
    case End => t
    case More(rest, sub, n) => PlugLeft(rest, Bin(sub, n, t))
  }

  ghost function PlugRight(s: Spine, t: Tree): Tree {
    match s
    case End => t
    case More(rest, sub, n) => PlugRight(rest, Bin(t, n, sub))
  }

  lemma {:induction false} PlugLeftOrder(s: Spine, t: Tree)
    ensures Inorder(PlugLeft(s, t)) == Smaller(s) + Inorder(t)
  {
    match s
    case End =>
    case More(rest, sub, n) =>
      PlugLeftOrder(rest, Bin(sub, n, t));
      assert Smaller(rest) + (Inorder(sub) + [n] + Inorder(t)) == Smaller(rest) + (Inorder(sub) + [n]) + Inorder(t);
  }

  lemma {:induction false} PlugRightOrder(s: Spine, t: Tree)
    ensures Inorder(PlugRight(s, t)) == Inorder(t) + Larger(s)
  {
    match s
    case End =>
    case More(rest, sub, n) =>
      PlugRightOrder(rest, Bin(t, n, sub));
      assert (Inorder(t) + [n] + Inorder(sub)) + Larger(rest) == Inorder(t) + ([n] + Inorder(sub) + Larger(rest));
  }

  // ---------------------------------------------------------------------------
  // Memory

  datatype Fields = Fields(left: Node?, right: Node?)

  type Store = map<Node, Fields>

  ghost function Snap(s: set<Node>): Store
    reads s
  {
    map n | n in s :: Fields(n.left, n.right)
  }

  ghost function Nodes(t: Tree): set<Node> {
    match t
    case Leaf => {}
    case Bin(l, n, r) => Nodes(l) + {n} + Nodes(r)
  }

  ghost function SpineNodes(s: Spine): set<Node> {
    match s
    case End => {}
    case More(rest, sub, n) => SpineNodes(rest) + {n} + Nodes(sub)
  }

  function RootOf(t: Tree): Node? {
    if t.Leaf? then null else t.node
  }

  /** The node whose link is open: the last of the spine, or the one on the stack. */
  function Tail(hdr: Node, s: Spine): Node {
    if s.End? then hdr else s.node
  }

  ghost predicate Apart(t: Tree) {
    match t
    case Leaf => true
    case Bin(l, n, r) => n !in Nodes(l) && n !in Nodes(r) && Nodes(l) !! Nodes(r) && Apart(l) && Apart(r)
  }

  ghost predicate SpineApart(s: Spine) {
    match s
    case End => true
    case More(rest, sub, n) =>
      n !in SpineNodes(rest) && n !in Nodes(sub) && SpineNodes(rest) !! Nodes(sub) && Apart(sub) && SpineApart(rest)
  }

  ghost predicate Links(m: Store, t: Tree) {
    match t
    case Leaf => true
    case Bin(l, n, r) => n in m && m[n] == Fields(RootOf(l), RootOf(r)) && Links(m, l) && Links(m, r)
  }

  /** The left spine goes down by right links. */
  ghost predicate LeftSpine(m: Store, hdr: Node, s: Spine) {
    match s
    case End => hdr in m
    case More(rest, sub, n) =>
      && Tail(hdr, rest) in m && m[Tail(hdr, rest)].right == n
      && n in m && m[n].left == RootOf(sub) && Links(m, sub) && LeftSpine(m, hdr, rest)
  }

  /** The right spine goes down by left links. */
  ghost predicate RightSpine(m: Store, hdr: Node, s: Spine) {
    match s
    case End => hdr in m
    case More(rest, sub, n) =>
      && Tail(hdr, rest) in m && m[Tail(hdr, rest)].left == n
      && n in m && m[n].right == RootOf(sub) && Links(m, sub) && RightSpine(m, hdr, rest)
  }

  /** The splay under way: two spines and the tree in the middle, all apart. */
  ghost predicate Split(m: Store, hdr: Node, a: Spine, t: Tree, b: Spine) {
    && Links(m, t) && LeftSpine(m, hdr, a) && RightSpine(m, hdr, b)
    && Apart(t) && SpineApart(a) && SpineApart(b)
    && SpineNodes(a) !! Nodes(t) && SpineNodes(b) !! Nodes(t) && SpineNodes(a) !! SpineNodes(b)
    && hdr !in Nodes(t) && hdr !in SpineNodes(a) && hdr !in SpineNodes(b)
  }

  ghost predicate Same(m: Store, m1: Store, s: set<Node>) {
    forall n :: n in s && n in m ==> n in m1 && m1[n] == m[n]
  }

  lemma {:induction false} LinksKept(m: Store, m1: Store, t: Tree)
    requires Links(m, t) && Same(m, m1, Nodes(t))
    ensures Links(m1, t)
  {
    match t
    case Leaf =>
    case Bin(l, n, r) =>
      LinksKept(m, m1, l);
      LinksKept(m, m1, r);
  }

  /** A spine whose nodes keep their fields, the last one but for its open link. */
  lemma {:induction false} LeftKept(m: Store, m1: Store, hdr: Node, s: Spine)
    requires LeftSpine(m, hdr, s) && SpineApart(s) && hdr !in SpineNodes(s) && hdr in m && hdr in m1
    requires s.End? || m1[hdr].right == m[hdr].right
    requires Same(m, m1, SpineNodes(s) - {Tail(hdr, s)}) && (s.More? ==> s.node in m1 && m1[s.node].left == m[s.node].left)
    ensures LeftSpine(m1, hdr, s)
  {
    match s
    case End =>
    case More(rest, sub, n) =>
      LinksKept(m, m1, sub);
      LeftKept(m, m1, hdr, rest);
  }

  lemma {:induction false} RightKept(m: Store, m1: Store, hdr: Node, s: Spine)
    requires RightSpine(m, hdr, s) && SpineApart(s) && hdr !in SpineNodes(s) && hdr in m && hdr in m1
    requires s.End? || m1[hdr].left == m[hdr].left
    requires Same(m, m1, SpineNodes(s) - {Tail(hdr, s)}) && (s.More? ==> s.node in m1 && m1[s.node].right == m[s.node].right)
    ensures RightSpine(m1, hdr, s)
  {
    match s
    case End =>
    case More(rest, sub, n) =>
      LinksKept(m, m1, sub);
      RightKept(m, m1, hdr, rest);
  }

  lemma {:induction false} HdrIn(m: Store, hdr: Node, s: Spine, left: bool)
    requires if left then LeftSpine(m, hdr, s) else RightSpine(m, hdr, s)
    ensures hdr in m
  {
    if s.More? {
      HdrIn(m, hdr, s.rest, left);
    }
  }

  // ---------------------------------------------------------------------------
  // Steps on snapshots

  ghost function SetLeft(m: Store, n: Node, x: Node?): Store
    requires n in m
  {
    m[n := m[n].(left := x)]
  }

  ghost function SetRight(m: Store, n: Node, x: Node?): Store
    requires n in m
  {
    m[n := m[n].(right := x)]
  }

  ghost function RotatedRight(t: Tree): Tree
    requires t.Bin? && t.left.Bin?
  {
    Bin(t.left.left, t.left.node, Bin(t.left.right, t.node, t.right))
  }

  ghost function RotatedLeft(t: Tree): Tree
    requires t.Bin? && t.right.Bin?
  {
    Bin(Bin(t.left, t.node, t.right.left), t.right.node, t.right.right)
  }

  /** Parts that a step does not touch. */
  lemma {:induction false} Untouched(m: Store, m1: Store, hdr: Node, a: Spine, b: Spine, s: set<Node>)
    requires LeftSpine(m, hdr, a) && RightSpine(m, hdr, b) && SpineApart(a) && SpineApart(b)
    requires hdr !in SpineNodes(a) && hdr !in SpineNodes(b) && hdr !in s && s !! SpineNodes(a) && s !! SpineNodes(b)
    requires forall n :: n in m && n !in s ==> n in m1 && m1[n] == m[n]
    ensures LeftSpine(m1, hdr, a) && RightSpine(m1, hdr, b)
  {
    HdrIn(m, hdr, a, true);
    TailIn(m, hdr, a, true);
    TailIn(m, hdr, b, false);
    LeftKept(m, m1, hdr, a);
    RightKept(m, m1, hdr, b);
  }

  lemma {:induction false} TailIn(m: Store, hdr: Node, s: Spine, left: bool)
    requires if left then LeftSpine(m, hdr, s) else RightSpine(m, hdr, s)
    ensures Tail(hdr, s) in m && (s.More? ==> s.node in SpineNodes(s))
  {
    HdrIn(m, hdr, s, left);
  }

  /** A tree taken apart. */
  lemma {:induction false} Open(m: Store, t: Tree)
    requires Links(m, t) && Apart(t) && t.Bin?
    ensures t.node in m && m[t.node] == Fields(RootOf(t.left), RootOf(t.right)) && Links(m, t.left) && Links(m, t.right)
    ensures t.node !in Nodes(t.left) && t.node !in Nodes(t.right) && Nodes(t.left) !! Nodes(t.right)
    ensures Apart(t.left) && Apart(t.right) && Nodes(t) == Nodes(t.left) + {t.node} + Nodes(t.right)
  {
  }

  /** And put together. */
  lemma {:induction false} Close(m: Store, l: Tree, n: Node, r: Tree)
    requires n in m && m[n] == Fields(RootOf(l), RootOf(r)) && Links(m, l) && Links(m, r)
    requires n !in Nodes(l) && n !in Nodes(r) && Nodes(l) !! Nodes(r) && Apart(l) && Apart(r)
    ensures Links(m, Bin(l, n, r)) && Apart(Bin(l, n, r)) && Nodes(Bin(l, n, r)) == Nodes(l) + {n} + Nodes(r)
  {
  }

  lemma {:induction false} RotateRightSplit(m: Store, m1: Store, hdr: Node, a: Spine, t: Tree, b: Spine)
    requires Split(m, hdr, a, t, b) && t.Bin? && t.left.Bin?
    requires t.node in m && t.left.node in m
    requires m1 == SetRight(SetLeft(m, t.node, RootOf(t.left.right)), t.left.node, t.node)
    ensures Split(m1, hdr, a, RotatedRight(t), b) && Nodes(RotatedRight(t)) == Nodes(t)
  {
    hide SpineNodes, SpineApart, LeftSpine, RightSpine, Nodes, Links, Apart;
    var l := t.left;
    Open(m, t);
    Open(m, l);
    Untouched(m, m1, hdr, a, b, {t.node, l.node});
    LinksKept(m, m1, l.left);
    LinksKept(m, m1, l.right);
    LinksKept(m, m1, t.right);
    Close(m1, l.right, t.node, t.right);
    Close(m1, l.left, l.node, Bin(l.right, t.node, t.right));
  }

  lemma {:induction false} RotateLeftSplit(m: Store, m1: Store, hdr: Node, a: Spine, t: Tree, b: Spine)
    requires Split(m, hdr, a, t, b) && t.Bin? && t.right.Bin?
    requires t.node in m && t.right.node in m
    requires m1 == SetLeft(SetRight(m, t.node, RootOf(t.right.left)), t.right.node, t.node)
    ensures Split(m1, hdr, a, RotatedLeft(t), b) && Nodes(RotatedLeft(t)) == Nodes(t)
  {
    hide SpineNodes, SpineApart, LeftSpine, RightSpine, Nodes, Links, Apart;
    var r := t.right;
    Open(m, t);
    Open(m, r);
    Untouched(m, m1, hdr, a, b, {t.node, r.node});
    LinksKept(m, m1, r.left);
    LinksKept(m, m1, r.right);
    LinksKept(m, m1, t.left);
    Close(m1, t.left, t.node, r.left);
    Close(m1, Bin(t.left, t.node, r.left), r.node, r.right);
  }

  /** A spine with one node more. */
  lemma {:induction false} Longer(m: Store, hdr: Node, s: Spine, sub: Tree, n: Node)
    requires SpineApart(s) && Apart(sub) && n !in SpineNodes(s) && n !in Nodes(sub) && SpineNodes(s) !! Nodes(sub)
    requires Tail(hdr, s) in m && n in m && Links(m, sub)
    ensures SpineApart(More(s, sub, n)) && SpineNodes(More(s, sub, n)) == SpineNodes(s) + {n} + Nodes(sub)
    ensures LeftSpine(m, hdr, s) && m[Tail(hdr, s)].right == n && m[n].left == RootOf(sub) ==> LeftSpine(m, hdr, More(s, sub, n))
    ensures RightSpine(m, hdr, s) && m[Tail(hdr, s)].left == n && m[n].right == RootOf(sub) ==> RightSpine(m, hdr, More(s, sub, n))
  {
  }

  /** The root joins the left spine and its right subtree becomes the middle. */
  lemma {:induction false} LinkRightSplit(m: Store, m1: Store, hdr: Node, a: Spine, t: Tree, b: Spine)
    requires Split(m, hdr, a, t, b) && t.Bin? && Tail(hdr, a) in m && m1 == SetRight(m, Tail(hdr, a), t.node)
    ensures Split(m1, hdr, More(a, t.left, t.node), t.right, b)
    ensures SpineNodes(More(a, t.left, t.node)) + Nodes(t.right) == SpineNodes(a) + Nodes(t)
  {
    hide LeftSpine, RightSpine, SpineNodes, SpineApart, Nodes, Links, Apart;
    HdrIn(m, hdr, a, true);
    Open(m, t);
    TailIn(m, hdr, a, true);
    TailIn(m, hdr, b, false);
    LeftKept(m, m1, hdr, a);
    RightKept(m, m1, hdr, b);
    LinksKept(m, m1, t.left);
    LinksKept(m, m1, t.right);
    Longer(m1, hdr, a, t.left, t.node);
  }

  lemma {:induction false} LinkLeftSplit(m: Store, m1: Store, hdr: Node, a: Spine, t: Tree, b: Spine)
    requires Split(m, hdr, a, t, b) && t.Bin? && Tail(hdr, b) in m && m1 == SetLeft(m, Tail(hdr, b), t.node)
    ensures Split(m1, hdr, a, t.left, More(b, t.right, t.node))
    ensures SpineNodes(More(b, t.right, t.node)) + Nodes(t.left) == SpineNodes(b) + Nodes(t)
  {
    hide LeftSpine, RightSpine, SpineNodes, SpineApart, Nodes, Links, Apart;
    HdrIn(m, hdr, a, true);
    Open(m, t);
    TailIn(m, hdr, a, true);
    TailIn(m, hdr, b, false);
    LeftKept(m, m1, hdr, a);
    RightKept(m, m1, hdr, b);
    LinksKept(m, m1, t.left);
    LinksKept(m, m1, t.right);
    Longer(m1, hdr, b, t.right, t.node);
  }

  // ---------------------------------------------------------------------------
  // Assembly

  lemma {:induction false} PlugLeftNodes(s: Spine, t: Tree)
    requires SpineApart(s) && Apart(t) && SpineNodes(s) !! Nodes(t)
    ensures Nodes(PlugLeft(s, t)) == SpineNodes(s) + Nodes(t) && Apart(PlugLeft(s, t))
  {
    if s.More? {
      PlugLeftNodes(s.rest, Bin(s.sub, s.node, t));
    }
  }

  lemma {:induction false} PlugRightNodes(s: Spine, t: Tree)
    requires SpineApart(s) && Apart(t) && SpineNodes(s) !! Nodes(t)
    ensures Nodes(PlugRight(s, t)) == SpineNodes(s) + Nodes(t) && Apart(PlugRight(s, t))
  {
    if s.More? {
      PlugRightNodes(s.rest, Bin(t, s.node, s.sub));
    }
  }

  /** Closing the open link of the left spine gives the tree below the stack node's right link. */
  lemma {:induction false} CloseLeft(m: Store, hdr: Node, s: Spine, t: Tree)
    requires LeftSpine(m, hdr, s) && Links(m, t) && Tail(hdr, s) in m && m[Tail(hdr, s)].right == RootOf(t)
    ensures hdr in m && Links(m, PlugLeft(s, t)) && m[hdr].right == RootOf(PlugLeft(s, t))
  {
    if s.More? {
      CloseLeft(m, hdr, s.rest, Bin(s.sub, s.node, t));
    }
  }

  lemma {:induction false} CloseRight(m: Store, hdr: Node, s: Spine, t: Tree)
    requires RightSpine(m, hdr, s) && Links(m, t) && Tail(hdr, s) in m && m[Tail(hdr, s)].left == RootOf(t)
    ensures hdr in m && Links(m, PlugRight(s, t)) && m[hdr].left == RootOf(PlugRight(s, t))
  {
    if s.More? {
      CloseRight(m, hdr, s.rest, Bin(t, s.node, s.sub));
    }
  }

  ghost function Assembled(a: Spine, t: Tree, b: Spine): Tree
    requires t.Bin?
  {
    Bin(PlugLeft(a, t.left), t.node, PlugRight(b, t.right))
  }

  /** SPLAY_ASSEMBLE: both open links are closed with the root's subtrees, and the root gets the two trees. */
  lemma {:induction false} AssembleSplit(m: Store, m1: Store, m2: Store, hdr: Node, a: Spine, t: Tree, b: Spine)
    requires Split(m, hdr, a, t, b) && t.Bin? && t.node in m && Tail(hdr, a) in m && Tail(hdr, b) in m && hdr in m
    requires m1 == SetLeft(SetRight(m, Tail(hdr, a), RootOf(t.left)), Tail(hdr, b), RootOf(t.right))
    requires m2 == m1[t.node := Fields(m1[hdr].right, m1[hdr].left)]
    ensures Links(m2, Assembled(a, t, b)) && Apart(Assembled(a, t, b))
    ensures Nodes(Assembled(a, t, b)) == SpineNodes(a) + Nodes(t) + SpineNodes(b) && hdr !in Nodes(Assembled(a, t, b))
  {
    hide LeftSpine, RightSpine, SpineNodes, SpineApart, Nodes, Links, Apart, PlugLeft, PlugRight;
    Open(m, t);
    Closed(m, m1, hdr, a, t, b);
    PlugLeftNodes(a, t.left);
    PlugRightNodes(b, t.right);
    LinksKept(m1, m2, PlugLeft(a, t.left));
    LinksKept(m1, m2, PlugRight(b, t.right));
    Close(m2, PlugLeft(a, t.left), t.node, PlugRight(b, t.right));
  }

  lemma {:induction false} Closed(m: Store, m1: Store, hdr: Node, a: Spine, t: Tree, b: Spine)
    requires Split(m, hdr, a, t, b) && t.Bin? && Tail(hdr, a) in m && Tail(hdr, b) in m && hdr in m
    requires m1 == SetLeft(SetRight(m, Tail(hdr, a), RootOf(t.left)), Tail(hdr, b), RootOf(t.right))
    ensures hdr in m1 && Links(m1, PlugLeft(a, t.left)) && Links(m1, PlugRight(b, t.right))
    ensures m1[hdr].right == RootOf(PlugLeft(a, t.left)) && m1[hdr].left == RootOf(PlugRight(b, t.right))
  {
    TailIn(m, hdr, a, true);
    TailIn(m, hdr, b, false);
    LeftKept(m, m1, hdr, a);
    RightKept(m, m1, hdr, b);
    LinksKept(m, m1, t.left);
    LinksKept(m, m1, t.right);
    CloseLeft(m1, hdr, a, t.left);
    CloseRight(m1, hdr, b, t.right);
  }

  // ---------------------------------------------------------------------------
  // The splay

  /** Memory holds the tree. */
  ghost predicate Holds(head: Head, t: Tree)
    reads head, Nodes(t)
  {
    Apart(t) && Links(Snap(Nodes(t)), t) && head.root == RootOf(t)
  }

  /** Memory holds a splay under way over the nodes of `all`. */
  ghost predicate Working(head: Head, hdr: Node, a: Spine, t: Tree, b: Spine, all: set<Node>)
    reads head, hdr, all
  {
    && Split(Snap(all + {hdr}), hdr, a, t, b) && head.root == RootOf(t)
    && SpineNodes(a) + Nodes(t) + SpineNodes(b) == all
  }

  /** What the fields of the root and of the open nodes say. */
  lemma {:induction false} Around(head: Head, hdr: Node, a: Spine, t: Tree, b: Spine, all: set<Node>)
    requires Working(head, hdr, a, t, b, all)
    ensures head.root == RootOf(t) && hdr !in all && Tail(hdr, a) in all + {hdr} && Tail(hdr, b) in all + {hdr}
    ensures t.Bin? ==> t.node in all && t.node.left == RootOf(t.left) && t.node.right == RootOf(t.right)
    ensures t.Bin? ==> t.node != Tail(hdr, a) && t.node != Tail(hdr, b)
    ensures t.Bin? && t.left.Bin? ==> t.left.node in all && t.left.node.right == RootOf(t.left.right) && t.left.node != t.node
    ensures t.Bin? && t.right.Bin? ==> t.right.node in all && t.right.node.left == RootOf(t.right.left) && t.right.node != t.node
  {
    var m := Snap(all + {hdr});
    TailIn(m, hdr, a, true);
    TailIn(m, hdr, b, false);
    if t.Bin? {
      Open(m, t);
      if t.left.Bin? { Open(m, t.left); }
      if t.right.Bin? { Open(m, t.right); }
    }
  }

  /** SPLAY_ROTATE_RIGHT. */
  method RotateRight(head: Head, tmp: Node, ghost hdr: Node, ghost a: Spine, ghost t: Tree, ghost b: Spine, ghost all: set<Node>)
    requires Working(head, hdr, a, t, b, all) && t.Bin? && t.left.Bin? && tmp == t.left.node
    modifies head, all
    ensures Working(head, hdr, a, RotatedRight(t), b, all)
  {
    hide Split, Nodes, SpineNodes;
    Around(head, hdr, a, t, b, all);
    ghost var m := Snap(all + {hdr});
    head.root.left := tmp.right;
    tmp.right := head.root;
    head.root := tmp;
    assert Snap(all + {hdr}) == SetRight(SetLeft(m, t.node, RootOf(t.left.right)), t.left.node, t.node);
    RotateRightSplit(m, Snap(all + {hdr}), hdr, a, t, b);
  }

  /** SPLAY_ROTATE_LEFT. */
  method RotateLeft(head: Head, tmp: Node, ghost hdr: Node, ghost a: Spine, ghost t: Tree, ghost b: Spine, ghost all: set<Node>)
    requires Working(head, hdr, a, t, b, all) && t.Bin? && t.right.Bin? && tmp == t.right.node
    modifies head, all
    ensures Working(head, hdr, a, RotatedLeft(t), b, all)
  {
    hide Split, Nodes, SpineNodes;
    Around(head, hdr, a, t, b, all);
    ghost var m := Snap(all + {hdr});
    head.root.right := tmp.left;
    tmp.left := head.root;
    head.root := tmp;
    assert Snap(all + {hdr}) == SetLeft(SetRight(m, t.node, RootOf(t.right.left)), t.right.node, t.node);
    RotateLeftSplit(m, Snap(all + {hdr}), hdr, a, t, b);
  }

  /** SPLAY_LINKLEFT. */
  method LinkLeft(head: Head, right: Node, ghost hdr: Node, ghost a: Spine, ghost t: Tree, ghost b: Spine, ghost all: set<Node>)
    returns (right1: Node)
    requires Working(head, hdr, a, t, b, all) && t.Bin? && right == Tail(hdr, b)
    modifies head, all, hdr
    ensures Working(head, hdr, a, t.left, More(b, t.right, t.node), all) && right1 == t.node
  {
    hide Split, Nodes, SpineNodes;
    Around(head, hdr, a, t, b, all);
    ghost var m := Snap(all + {hdr});
    right.left := head.root;
    right1 := head.root;
    head.root := head.root.left;
    assert Snap(all + {hdr}) == SetLeft(m, right, t.node);
    LinkLeftSplit(m, Snap(all + {hdr}), hdr, a, t, b);
    assert SpineNodes(a) + Nodes(t.left) + SpineNodes(More(b, t.right, t.node)) == all;
  }

  /** SPLAY_LINKRIGHT. */
  method LinkRight(head: Head, left: Node, ghost hdr: Node, ghost a: Spine, ghost t: Tree, ghost b: Spine, ghost all: set<Node>)
    returns (left1: Node)
    requires Working(head, hdr, a, t, b, all) && t.Bin? && left == Tail(hdr, a)
    modifies head, all, hdr
    ensures Working(head, hdr, More(a, t.left, t.node), t.right, b, all) && left1 == t.node
  {
    hide Split, Nodes, SpineNodes;
    Around(head, hdr, a, t, b, all);
    ghost var m := Snap(all + {hdr});
    left.right := head.root;
    left1 := head.root;
    head.root := head.root.right;
    assert Snap(all + {hdr}) == SetRight(m, left, t.node);
    LinkRightSplit(m, Snap(all + {hdr}), hdr, a, t, b);
    assert SpineNodes(More(a, t.left, t.node)) + Nodes(t.right) + SpineNodes(b) == all;
  }

  /** SPLAY_ASSEMBLE. */
  method Assemble(head: Head, hdr: Node, left: Node, right: Node, ghost a: Spine, ghost t: Tree, ghost b: Spine, ghost all: set<Node>)
    requires Working(head, hdr, a, t, b, all) && t.Bin? && left == Tail(hdr, a) && right == Tail(hdr, b)
    modifies head, all, hdr
    ensures Holds(head, Assembled(a, t, b)) && Nodes(Assembled(a, t, b)) == all
  {
    hide Split, Nodes, SpineNodes, Assembled, Links, Apart, SetLeft, SetRight;
    Around(head, hdr, a, t, b, all);
    ghost var m := Snap(all + {hdr});
    CloseBoth(head, left, right, all + {hdr});
    ghost var m1 := Snap(all + {hdr});
    head.root.left := hdr.right;
    head.root.right := hdr.left;
    ghost var m2 := Snap(all + {hdr});
    assert m2 == m1[t.node := Fields(m1[hdr].right, m1[hdr].left)];
    AssembleSplit(m, m1, m2, hdr, a, t, b);
    LinksKept(m2, Snap(all), Assembled(a, t, b));
    RootAssembled(a, t, b);
  }

  /** The first half of it: the open links get the root's subtrees. */
  method CloseBoth(head: Head, left: Node, right: Node, ghost s: set<Node>)
    requires head.root != null && head.root in s && left in s && right in s && left != head.root && right != head.root
    modifies left, right
    ensures Snap(s) == SetLeft(SetRight(old(Snap(s)), left, old(head.root.left)), right, old(head.root.right))
  {
    left.right := head.root.left;
    right.left := head.root.right;
  }

  lemma {:induction false} RootAssembled(a: Spine, t: Tree, b: Spine)
    requires t.Bin?
    ensures RootOf(Assembled(a, t, b)) == t.node
  {
  }

  // ---------------------------------------------------------------------------
  // Order during the splay

  /** All elements in order. */
  ghost function Whole(a: Spine, t: Tree, b: Spine): seq<Node> {
    Smaller(a) + Inorder(t) + Larger(b)
  }

  /** What the spines hold is on the right side of the target. */
  ghost predicate Sided(a: Spine, b: Spine, g: Target) {
    Below(Smaller(a), g) && Above(Larger(b), g)
  }

  lemma {:induction false} RotateOrder(t: Tree)
    ensures t.Bin? && t.left.Bin? ==> Inorder(RotatedRight(t)) == Inorder(t)
    ensures t.Bin? && t.right.Bin? ==> Inorder(RotatedLeft(t)) == Inorder(t)
  {
    if t.Bin? && t.left.Bin? {
      var l := t.left;
      assert Inorder(t) == (Inorder(l.left) + [l.node] + Inorder(l.right)) + [t.node] + Inorder(t.right);
    }
    if t.Bin? && t.right.Bin? {
      var r := t.right;
      assert Inorder(t) == Inorder(t.left) + [t.node] + (Inorder(r.left) + [r.node] + Inorder(r.right));
    }
  }

  lemma {:induction false} LinkRightOrder(a: Spine, t: Tree, b: Spine, g: Target)
    requires t.Bin? && Sorted(Whole(a, t, b)) && Sided(a, b, g) && Compare(g, t.node) > 0
    ensures Whole(More(a, t.left, t.node), t.right, b) == Whole(a, t, b) && Sided(More(a, t.left, t.node), b, g)
    ensures |Inorder(t.right)| < |Inorder(t)|
  {
    var s, l, r, w := Smaller(a), Inorder(t.left), Inorder(t.right), Whole(a, t, b);
    assert w == (s + (l + [t.node])) + r + Larger(b);
    forall i | 0 <= i < |s + (l + [t.node])| ensures Compare(g, (s + (l + [t.node]))[i]) > 0 {
      if |s| <= i < |s| + |l| {
        assert w[i] == l[i - |s|] && w[|s| + |l|] == t.node;
      }
    }
  }

  lemma {:induction false} LinkLeftOrder(a: Spine, t: Tree, b: Spine, g: Target)
    requires t.Bin? && Sorted(Whole(a, t, b)) && Sided(a, b, g) && Compare(g, t.node) < 0
    ensures Whole(a, t.left, More(b, t.right, t.node)) == Whole(a, t, b) && Sided(a, More(b, t.right, t.node), g)
    ensures |Inorder(t.left)| < |Inorder(t)|
  {
    var s, l, r, w := Smaller(a), Inorder(t.left), Inorder(t.right), Whole(a, t, b);
    var big := [t.node] + r + Larger(b);
    assert w == s + l + big;
    forall i | 0 <= i < |big| ensures Compare(g, big[i]) < 0 {
      if 0 < i <= |r| {
        assert w[|s| + |l| + i] == big[i] && w[|s| + |l|] == t.node;
      } else if i > |r| {
        assert big[i] == Larger(b)[i - |r| - 1];
      }
    }
  }

  /** Where the descent stops: at the target, or where nothing is left on its side. */
  ghost predicate Stopped(t: Tree, g: Target) {
    t.Bin? && (Compare(g, t.node) == 0 || (Compare(g, t.node) < 0 && t.left.Leaf?) || (Compare(g, t.node) > 0 && t.right.Leaf?))
  }

  lemma {:induction false} AssembledOrder(a: Spine, t: Tree, b: Spine, g: Target)
    requires Stopped(t, g) && Sorted(Whole(a, t, b)) && Sided(a, b, g)
    ensures var d := Assembled(a, t, b); Inorder(d) == Whole(a, t, b) && Below(Inorder(d.left), g) && Above(Inorder(d.right), g)
  {
    hide PlugLeft, PlugRight, Smaller, Larger, Compare, Sorted, Below, Above;
    PlugLeftOrder(a, t.left);
    PlugRightOrder(b, t.right);
    Sides(Smaller(a), t, Larger(b), g);
    Regrouped(Smaller(a), t, Larger(b));
  }

  lemma {:induction false} Regrouped(s: seq<Node>, t: Tree, x: seq<Node>)
    requires t.Bin?
    ensures s + Inorder(t) + x == (s + Inorder(t.left)) + [t.node] + (Inorder(t.right) + x)
  {
  }

  /** On either side of a stopped root lie only elements of that side. */
  lemma {:induction false} Sides(s: seq<Node>, t: Tree, x: seq<Node>, g: Target)
    requires Stopped(t, g) && Sorted(s + Inorder(t) + x) && Below(s, g) && Above(x, g)
    ensures Below(s + Inorder(t.left), g) && Above(Inorder(t.right) + x, g)
  {
    var l, r, w := Inorder(t.left), Inorder(t.right), s + Inorder(t) + x;
    var n := |s| + |l|;
    assert w[n] == t.node;
    assert forall i :: 0 <= i < |l| ==> w[|s| + i] == l[i];
    assert forall i :: 0 <= i < |r| ==> w[n + 1 + i] == r[i];
  }

  /**
   `SPLAY`, and `SPLAY_MINMAX` for the ends: the same elements in the same order, with a root
   that has only smaller elements than the target on its left and only larger ones on its right.
   */
  method SplayTo(head: Head, g: Target, ghost t: Tree) returns (ghost t1: Tree)
    requires Holds(head, t) && t.Bin? && Sorted(Inorder(t))
    modifies head, Nodes(t)
    ensures Holds(head, t1) && t1.Bin? && Nodes(t1) == Nodes(t) && Inorder(t1) == Inorder(t)
    ensures Below(Inorder(t1.left), g) && Above(Inorder(t1.right), g)
  {
    Existing(t);
    var hdr := new Node(0);
    t1 := SplayFrom(head, g, hdr, t);
  }

  /** The nodes of a tree exist already. */
  lemma {:induction false} Existing(t: Tree)
    ensures forall n :: n in Nodes(t) ==> allocated(n)
  {
    if t.Bin? {
      Existing(t.left);
      Existing(t.right);
    }
  }

  /** The same, with the node on the stack given. */
  method SplayFrom(head: Head, g: Target, hdr: Node, ghost t: Tree) returns (ghost t1: Tree)
    requires Holds(head, t) && t.Bin? && Sorted(Inorder(t)) && hdr !in Nodes(t)
    modifies head, Nodes(t), hdr
    ensures Holds(head, t1) && t1.Bin? && Nodes(t1) == Nodes(t) && Inorder(t1) == Inorder(t)
    ensures Below(Inorder(t1.left), g) && Above(Inorder(t1.right), g)
  {
    hide Working, Holds, Nodes, SpineNodes, Whole, Sided, Sorted, Below, Above, Compare, Assembled, RotatedLeft, RotatedRight;
    ghost var all, order := Nodes(t), Inorder(t);
    hdr.left, hdr.right := null, null;
    var left, right := hdr, hdr;
    ghost var a, m, b := End, t, End;
    Begin(head, hdr, t, g);
    while true
      invariant Working(head, hdr, a, m, b, all) && m.Bin? && left == Tail(hdr, a) && right == Tail(hdr, b)
      invariant Whole(a, m, b) == order && Sided(a, b, g)
      decreases |Inorder(m)|
    {
      Around(head, hdr, a, m, b, all);
      ghost var size := |Inorder(m)|;
      var comp := Compare(g, head.root);
      if comp < 0 {
        var tmp := head.root.left;
        if tmp == null {
          break;
        }
        if Compare(g, tmp) < 0 {
          RotateRight(head, tmp, hdr, a, m, b, all);
          RotateOrder(m);
          RotatedRoot(m);
          WholeIs(a, m, b, RotatedRight(m));
          m := RotatedRight(m);
          Around(head, hdr, a, m, b, all);
          if head.root.left == null {
            break;
          }
        }
        LinkLeftOrder(a, m, b, g);
        right := LinkLeft(head, right, hdr, a, m, b, all);
        m, b := m.left, More(b, m.right, m.node);
      } else if comp > 0 {
        var tmp := head.root.right;
        if tmp == null {
          break;
        }
        if Compare(g, tmp) > 0 {
          RotateLeft(head, tmp, hdr, a, m, b, all);
          RotateOrder(m);
          RotatedRoot(m);
          WholeIs(a, m, b, RotatedLeft(m));
          m := RotatedLeft(m);
          Around(head, hdr, a, m, b, all);
          if head.root.right == null {
            break;
          }
        }
        LinkRightOrder(a, m, b, g);
        left := LinkRight(head, left, hdr, a, m, b, all);
        a, m := More(a, m.left, m.node), m.right;
      } else {
        break;
      }
    }
    assert Stopped(m, g);
    AssembledOrder(a, m, b, g);
    Assemble(head, hdr, left, right, a, m, b, all);
    t1 := Assembled(a, m, b);
    RootAssembled(a, m, b);
  }

  lemma {:induction false} Begin(head: Head, hdr: Node, t: Tree, g: Target)
    requires Holds(head, t) && hdr !in Nodes(t)
    ensures Working(head, hdr, End, t, End, Nodes(t)) && Whole(End, t, End) == Inorder(t) && Sided(End, End, g)
  {
    LinksKept(Snap(Nodes(t)), Snap(Nodes(t) + {hdr}), t);
  }

  lemma {:induction false} RotatedRoot(t: Tree)
    ensures t.Bin? && t.left.Bin? ==> RotatedRight(t).Bin? && RotatedRight(t).node == t.left.node
    ensures t.Bin? && t.right.Bin? ==> RotatedLeft(t).Bin? && RotatedLeft(t).node == t.right.node
  {
  }

  lemma {:induction false} WholeIs(a: Spine, t: Tree, b: Spine, u: Tree)
    requires Inorder(u) == Inorder(t)
    ensures Whole(a, u, b) == Whole(a, t, b)
  {
  }

  // ---------------------------------------------------------------------------
  // Insertion, removal, search

  /** A position of the in-order sequence at which a key belongs. */
  ghost predicate Splits(s: seq<Node>, i: nat, k: int) {
    && i <= |s|
    && (forall j :: 0 <= j < i ==> s[j].key < k)
    && (forall j :: i <= j < |s| ==> s[j].key > k)
  }

  lemma {:induction false} TreeParts(head: Head, t: Tree)
    requires Holds(head, t)
    ensures t.Leaf? <==> head.root == null
    ensures t.Bin? ==>
              && head.root == t.node && t.node in Nodes(t)
              && t.node.left == RootOf(t.left) && t.node.right == RootOf(t.right)
              && t.node !in Nodes(t.left) && t.node !in Nodes(t.right) && Nodes(t.left) !! Nodes(t.right)
              && Apart(t.left) && Apart(t.right) && Nodes(t) == Nodes(t.left) + {t.node} + Nodes(t.right)
              && Links(Snap(Nodes(t)), t.left) && Links(Snap(Nodes(t)), t.right)
              && Inorder(t) == Inorder(t.left) + [t.node] + Inorder(t.right)
  {
    if t.Bin? {
      Open(Snap(Nodes(t)), t);
    }
  }

  lemma {:induction false} NodesOf(l: Tree, n: Node, r: Tree)
    ensures Nodes(Bin(l, n, r)) == Nodes(l) + {n} + Nodes(r) && Inorder(Bin(l, n, r)) == Inorder(l) + [n] + Inorder(r)
  {
  }

  /** SPLAY_FIND: the element with the key, if there is one. */
  method Find(head: Head, k: int, ghost t: Tree) returns (r: Node?, ghost t1: Tree)
    requires Holds(head, t) && Sorted(Inorder(t))
    modifies head, Nodes(t)
    ensures Holds(head, t1) && Nodes(t1) == Nodes(t) && Inorder(t1) == Inorder(t)
    ensures r == null ==> forall n :: n in Inorder(t) ==> n.key != k
    ensures r != null ==> r in Inorder(t) && r.key == k
  {
    hide Holds, Nodes, Sorted;
    TreeParts(head, t);
    t1 := t;
    if head.root == null {
      return null, t1;
    }
    t1 := SplayTo(head, Key(k), t);
    TreeParts(head, t1);
    KeyAtRoot(t1, k);
    if Compare(Key(k), head.root) == 0 {
      return head.root, t1;
    }
    r := null;
  }

  /** Splayed to a key, the tree has it at the root or not at all. */
  lemma {:induction false} KeyAtRoot(t: Tree, k: int)
    requires t.Bin? && Below(Inorder(t.left), Key(k)) && Above(Inorder(t.right), Key(k))
    ensures t.node.key != k ==> forall n :: n in Inorder(t) ==> n.key != k
    ensures t.node in Inorder(t)
  {
    var l, r, w := Inorder(t.left), Inorder(t.right), Inorder(t);
    assert w == l + [t.node] + r;
    assert w[|l|] == t.node;
    forall n | n in w && t.node.key != k ensures n.key != k {
      var i :| 0 <= i < |w| && w[i] == n;
      if i < |l| {
        assert w[i] == l[i];
      } else if i > |l| {
        assert w[i] == r[i - |l| - 1];
      }
    }
  }

  lemma {:induction false} LeafFacts(m: Store)
    ensures Links(m, Leaf) && Apart(Leaf) && Nodes(Leaf) == {} && Inorder(Leaf) == []
  {
  }

  /** A root with its two fields set, over two trees whose nodes kept theirs. */
  lemma {:induction false} Joined(head: Head, m: Store, l: Tree, n: Node, r: Tree)
    requires head.root == n && n.left == RootOf(l) && n.right == RootOf(r)
    requires n !in Nodes(l) && n !in Nodes(r) && Nodes(l) !! Nodes(r) && Apart(l) && Apart(r) && Links(m, l) && Links(m, r)
    requires forall x :: x in Nodes(l) + Nodes(r) && x in m ==> m[x] == Fields(x.left, x.right)
    ensures Holds(head, Bin(l, n, r))
  {
    hide Links, Apart, Nodes;
    NodesOf(l, n, r);
    var m1 := Snap(Nodes(l) + {n} + Nodes(r));
    LinksKept(m, m1, l);
    LinksKept(m, m1, r);
    Close(m1, l, n, r);
  }

  /** `SPLAY_INSERT`: the element at its place and at the root, or the one with an equal key. */
  method Insert(head: Head, elm: Node, ghost t: Tree) returns (dup: Node?, ghost t1: Tree, ghost i: nat)
    requires Holds(head, t) && Sorted(Inorder(t)) && elm !in Nodes(t)
    modifies head, Nodes(t), elm
    ensures Holds(head, t1) && Sorted(Inorder(t1))
    ensures dup != null ==> dup in Inorder(t) && dup.key == elm.key && Inorder(t1) == Inorder(t) && Nodes(t1) == Nodes(t)
                            && elm.left == old(elm.left) && elm.right == old(elm.right)
    ensures dup == null ==> Splits(Inorder(t), i, elm.key) && Inorder(t1) == Inorder(t)[..i] + [elm] + Inorder(t)[i..]
    ensures dup == null ==> Nodes(t1) == Nodes(t) + {elm} && head.root == elm
  {
    hide Holds, Nodes, Sorted, Links, Apart, Splits, Inorder, Below, Above;
    TreeParts(head, t);
    if head.root == null {
      FirstNode(elm);
      elm.left, elm.right := null, null;
      head.root := elm;
      t1, i := Bin(Leaf, elm, Leaf), 0;
      Joined(head, map[], Leaf, elm, Leaf);
    } else {
      i := 0;
      t1 := SplayTo(head, Key(elm.key), t);
      TreeParts(head, t1);
      KeyAtRoot(t1, elm.key);
      var comp := Compare(Key(elm.key), head.root);
      if comp == 0 {
        return head.root, t1, i;
      }
      t1, i := Attach(head, elm, t1);
    }
    dup := null;
  }

  lemma {:induction false} FirstNode(n: Node)
    ensures Links(map[], Leaf) && Apart(Leaf) && Nodes(Leaf) == {} && Inorder(Leaf) == []
    ensures Nodes(Bin(Leaf, n, Leaf)) == {n} && Inorder(Bin(Leaf, n, Leaf)) == [n] && Sorted([n]) && Splits([], 0, n.key)
    ensures [n] == [][..0] + [n] + [][0..]
  {
  }

  /** The element over the two sides of a splayed tree, with the old root on one of them. */
  method Attach(head: Head, elm: Node, ghost t: Tree) returns (ghost t1: Tree, ghost i: nat)
    requires Holds(head, t) && t.Bin? && Sorted(Inorder(t)) && elm !in Nodes(t) && t.node.key != elm.key
    requires Below(Inorder(t.left), Key(elm.key)) && Above(Inorder(t.right), Key(elm.key))
    modifies head, Nodes(t), elm
    ensures Holds(head, t1) && Sorted(Inorder(t1)) && Nodes(t1) == Nodes(t) + {elm} && head.root == elm
    ensures Splits(Inorder(t), i, elm.key) && Inorder(t1) == Inorder(t)[..i] + [elm] + Inorder(t)[i..]
  {
    hide Holds, Nodes, Sorted, Links, Apart, Splits, Inorder, Below, Above;
    TreeParts(head, t);
    ghost var l, x, r, m := t.left, t.node, t.right, Snap(Nodes(t));
    var comp := Compare(Key(elm.key), head.root);
    if comp < 0 {
      elm.left := head.root.left;
      elm.right := head.root;
      head.root.left := null;
      t1, i := Bin(l, elm, Bin(Leaf, x, r)), |Inorder(l)|;
      LowerHalf(elm, l, x, r);
    } else {
      elm.right := head.root.right;
      elm.left := head.root;
      head.root.right := null;
      t1, i := Bin(Bin(l, x, Leaf), elm, r), |Inorder(l)| + 1;
      UpperHalf(elm, l, x, r);
    }
    head.root := elm;
    Hung(head, m, elm, l, x, r, t1, comp < 0);
  }

  /** The two trees an insertion can leave: the old root as a child that lost one of its own. */
  lemma {:induction false} Hung(head: Head, m: Store, elm: Node, l: Tree, x: Node, r: Tree, t: Tree, low: bool)
    requires t == if low then Bin(l, elm, Bin(Leaf, x, r)) else Bin(Bin(l, x, Leaf), elm, r)
    requires head.root == elm && elm.left == RootOf(t.left) && elm.right == RootOf(t.right)
    requires x.left == (if low then null else RootOf(l)) && x.right == (if low then RootOf(r) else null)
    requires elm != x && elm !in Nodes(l) && elm !in Nodes(r) && x !in Nodes(l) && x !in Nodes(r) && Nodes(l) !! Nodes(r)
    requires Apart(l) && Apart(r) && Links(m, l) && Links(m, r)
    requires forall n :: n in Nodes(l) + Nodes(r) && n in m ==> m[n] == Fields(n.left, n.right)
    ensures Holds(head, t) && Nodes(t) == Nodes(l) + {x} + Nodes(r) + {elm}
  {
    hide Links, Apart, Nodes, Holds;
    NodesOf(t.left, elm, t.right);
    var m1 := Snap(Nodes(l) + {x} + Nodes(r));
    LeafFacts(m1);
    LinksKept(m, m1, l);
    LinksKept(m, m1, r);
    if low {
      Close(m1, Leaf, x, r);
    } else {
      Close(m1, l, x, Leaf);
    }
    Joined(head, m1, t.left, elm, t.right);
  }

  /** An element at the place where it belongs keeps the order. */
  lemma {:induction false} Placed(s: seq<Node>, i: nat, elm: Node)
    requires Sorted(s) && i <= |s|
    requires (i == 0 || s[i - 1].key < elm.key) && (i == |s| || s[i].key > elm.key)
    ensures Splits(s, i, elm.key) && Sorted(s[..i] + [elm] + s[i..])
  {
    var w := s[..i] + [elm] + s[i..];
    assert forall j :: 0 <= j < |w| ==> w[j] == if j < i then s[j] else if j == i then elm else s[j - 1];
  }

  lemma {:induction false} LowerHalf(elm: Node, l: Tree, x: Node, r: Tree)
    requires Sorted(Inorder(l) + [x] + Inorder(r)) && Below(Inorder(l), Key(elm.key)) && elm.key < x.key
    ensures var s, i, w := Inorder(l) + [x] + Inorder(r), |Inorder(l)|, Inorder(Bin(l, elm, Bin(Leaf, x, r)));
            Splits(s, i, elm.key) && w == s[..i] + [elm] + s[i..] && Sorted(w)
  {
    hide Sorted, Splits;
    var a, b := Inorder(l), Inorder(r);
    var s := a + [x] + b;
    assert s[..|a|] == a && s[|a|..] == [] + [x] + b;
    assert Inorder(Bin(Leaf, x, r)) == [] + [x] + b;
    assert Inorder(Bin(l, elm, Bin(Leaf, x, r))) == a + [elm] + ([] + [x] + b);
    assert s[|a|] == x && (|a| > 0 ==> s[|a| - 1] == a[|a| - 1]);
    Placed(s, |a|, elm);
  }

  lemma {:induction false} UpperHalf(elm: Node, l: Tree, x: Node, r: Tree)
    requires Sorted(Inorder(l) + [x] + Inorder(r)) && Above(Inorder(r), Key(elm.key)) && elm.key > x.key
    ensures var s, i, w := Inorder(l) + [x] + Inorder(r), |Inorder(l)| + 1, Inorder(Bin(Bin(l, x, Leaf), elm, r));
            Splits(s, i, elm.key) && w == s[..i] + [elm] + s[i..] && Sorted(w)
  {
    hide Sorted, Splits;
    var a, b := Inorder(l), Inorder(r);
    var s := a + [x] + b;
    assert s[..|a| + 1] == a + [x] + [] && s[|a| + 1..] == b;
    assert Inorder(Bin(l, x, Leaf)) == a + [x] + [];
    assert Inorder(Bin(Bin(l, x, Leaf), elm, r)) == (a + [x] + []) + [elm] + b;
    assert s[|a|] == x && (|b| > 0 ==> s[|a| + 1] == b[0]);
    Placed(s, |a| + 1, elm);
  }

  /** `SPLAY_REMOVE`: the element with the key is taken out, and the argument is returned if there was one. */
  method Remove(head: Head, elm: Node, ghost t: Tree) returns (r: Node?, ghost t1: Tree, ghost i: nat)
    requires Holds(head, t) && Sorted(Inorder(t))
    modifies head, Nodes(t)
    ensures Holds(head, t1) && Sorted(Inorder(t1))
    ensures r == null ==> Inorder(t1) == Inorder(t) && Nodes(t1) == Nodes(t) && forall n :: n in Inorder(t) ==> n.key != elm.key
    ensures r != null ==> r == elm && i < |Inorder(t)| && Inorder(t)[i].key == elm.key
    ensures r != null ==> Inorder(t1) == Inorder(t)[..i] + Inorder(t)[i + 1..] && Nodes(t1) == Nodes(t) - {Inorder(t)[i]}
  {
    hide Holds, Nodes, Sorted, Links, Apart, Inorder, Below, Above;
    TreeParts(head, t);
    t1, i := t, 0;
    if head.root == null {
      LeafFacts(map[]);
      return null, t1, 0;
    }
    t1 := SplayTo(head, Key(elm.key), t);
    TreeParts(head, t1);
    KeyAtRoot(t1, elm.key);
    if Compare(Key(elm.key), head.root) != 0 {
      return null, t1, 0;
    }
    t1, i := Detach(head, elm, t1);
    r := elm;
  }

  /** The root of a splayed tree taken out, its left side splayed once more to carry the right one. */
  method Detach(head: Head, elm: Node, ghost t: Tree) returns (ghost t1: Tree, ghost i: nat)
    requires Holds(head, t) && t.Bin? && Sorted(Inorder(t)) && Below(Inorder(t.left), Key(elm.key))
    modifies head, Nodes(t)
    ensures Holds(head, t1) && Sorted(Inorder(t1)) && i < |Inorder(t)| && Inorder(t)[i] == t.node
    ensures Inorder(t1) == Inorder(t)[..i] + Inorder(t)[i + 1..] && Nodes(t1) == Nodes(t) - {t.node}
  {
    hide Holds, Nodes, Sorted, Links, Apart, Inorder, Below, Above;
    TreeParts(head, t);
    ghost var m := Snap(Nodes(t));
    i := |Inorder(t.left)|;
    Without(t, i);
    if head.root.left == null {
      LeafFacts(m);
      head.root := head.root.right;
      t1 := t.right;
      assert [] + Inorder(t1) == Inorder(t1);
      LinksKept(m, Snap(Nodes(t1)), t1);
      Standing(head, t1);
    } else {
      var tmp := head.root.right;
      head.root := head.root.left;
      LinksKept(m, Snap(Nodes(t.left)), t.left);
      Standing(head, t.left);
      t1 := SplayTo(head, Key(elm.key), t.left);
      t1 := Carry(head, tmp, elm.key, t1, t.right, m);
    }
  }

  /** The right side goes below the last element of the left one. */
  method Carry(head: Head, tmp: Node?, ghost k: int, ghost e: Tree, ghost r: Tree, ghost m: Store) returns (ghost t1: Tree)
    requires Holds(head, e) && e.Bin? && Below(Inorder(e), Key(k)) && Above(Inorder(e.right), Key(k))
    requires tmp == RootOf(r) && Links(m, r) && Apart(r) && Nodes(e) !! Nodes(r)
    requires forall n :: n in Nodes(r) && n in m ==> m[n] == Fields(n.left, n.right)
    modifies Nodes(e)
    ensures Holds(head, t1) && Nodes(t1) == Nodes(e) + Nodes(r) && Inorder(t1) == Inorder(e) + Inorder(r)
  {
    hide Holds, Nodes, Sorted, Links, Apart, Inorder, Below, Above;
    TreeParts(head, e);
    NothingAbove(e, k);
    ghost var m0 := Snap(Nodes(e));
    head.root.right := tmp;
    t1 := Bin(e.left, e.node, r);
    NodesOf(e.left, e.node, r);
    ghost var m1 := Snap(Nodes(e.left) + Nodes(r));
    LinksKept(m0, m1, e.left);
    LinksKept(m, m1, r);
    Joined(head, m1, e.left, e.node, r);
  }

  lemma {:induction false} Standing(head: Head, t: Tree)
    requires head.root == RootOf(t) && Apart(t) && Links(Snap(Nodes(t)), t)
    ensures Holds(head, t)
  {
  }

  lemma {:induction false} Suffix(s: seq<Node>, n: nat, g: Target)
    requires Below(s, g) && n <= |s|
    ensures Below(s[n..], g)
  {
    forall j | 0 <= j < |s[n..]| ensures Compare(g, s[n..][j]) > 0 {
      assert s[n..][j] == s[n + j];
    }
  }

  lemma {:induction false} NotBoth(s: seq<Node>, g: Target)
    requires Below(s, g)
    ensures Above(s, g) ==> s == []
  {
    if s != [] {
      assert Compare(g, s[0]) > 0;
    }
  }

  /** Splayed to a key above all elements, the root is the last of them. */
  lemma {:induction false} NothingAbove(e: Tree, k: int)
    requires e.Bin? && Below(Inorder(e), Key(k)) && Above(Inorder(e.right), Key(k))
    ensures Inorder(e) == Inorder(e.left) + [e.node] && Nodes(e) == Nodes(e.left) + {e.node}
  {
    var a, b, w := Inorder(e.left), Inorder(e.right), Inorder(e);
    assert w[|a| + 1..] == b;
    Suffix(w, |a| + 1, Key(k));
    NotBoth(b, Key(k));
  }

  /** The order without its root. */
  lemma {:induction false} Without(d: Tree, i: nat)
    requires d.Bin? && i == |Inorder(d.left)| && Sorted(Inorder(d))
    ensures i < |Inorder(d)| && Inorder(d)[i] == d.node
    ensures Inorder(d.left) + Inorder(d.right) == Inorder(d)[..i] + Inorder(d)[i + 1..]
    ensures Sorted(Inorder(d.left)) && Sorted(Inorder(d.left) + Inorder(d.right))
  {
    var a, b, w := Inorder(d.left), Inorder(d.right), Inorder(d);
    assert forall j :: 0 <= j < |a| ==> a[j] == w[j];
    assert forall j :: 0 <= j < |a + b| ==> (a + b)[j] == if j < i then w[j] else w[j + 1];
  }

  // ---------------------------------------------------------------------------
  // Ends and neighbours

  /** SPLAY_MIN_MAX: the first or the last element, at the root. */
  method MinMax(head: Head, g: Target, ghost t: Tree) returns (r: Node, ghost t1: Tree)
    requires Holds(head, t) && t.Bin? && Sorted(Inorder(t)) && !g.Key?
    modifies head, Nodes(t)
    ensures Holds(head, t1) && Nodes(t1) == Nodes(t) && Inorder(t1) == Inorder(t) && head.root == r
    ensures |Inorder(t)| > 0 && r == if g.NegInf? then Inorder(t)[0] else Inorder(t)[|Inorder(t)| - 1]
  {
    hide Holds, Nodes, Sorted;
    t1 := SplayTo(head, g, t);
    TreeParts(head, t1);
    OneSided(t1, g);
    r := head.root;
  }

  lemma {:induction false} OneSided(t: Tree, g: Target)
    requires t.Bin? && !g.Key? && Below(Inorder(t.left), g) && Above(Inorder(t.right), g)
    ensures |Inorder(t)| > 0 && t.node == if g.NegInf? then Inorder(t)[0] else Inorder(t)[|Inorder(t)| - 1]
  {
    var a, b := Inorder(t.left), Inorder(t.right);
    assert Inorder(t)[|a|] == t.node;
    assert |a| > 0 ==> Compare(g, a[0]) > 0;
    assert |b| > 0 ==> Compare(g, b[0]) < 0;
  }

  /** SPLAY_NEXT: the element after the given one. */
  method Next(head: Head, elm: Node, ghost t: Tree) returns (r: Node?, ghost t1: Tree, ghost i: nat)
    requires Holds(head, t) && Sorted(Inorder(t)) && elm in Inorder(t)
    modifies head, Nodes(t)
    ensures Holds(head, t1) && Nodes(t1) == Nodes(t) && Inorder(t1) == Inorder(t)
    ensures i < |Inorder(t)| && Inorder(t)[i] == elm
    ensures r == if i + 1 < |Inorder(t)| then Inorder(t)[i + 1] else null
  {
    hide Holds, Nodes, Sorted, Links, Apart, Below, Above, Inorder;
    LeafFacts(map[]);
    t1 := SplayTo(head, Key(elm.key), t);
    TreeParts(head, t1);
    KeyAtRoot(t1, elm.key);
    OnlyOne(Inorder(t1), elm, t1.node);
    i := |Inorder(t1.left)|;
    r := null;
    if elm.right != null {
      ghost var m := Snap(Nodes(t1));
      ghost var u := t1.right;
      r := elm.right;
      Front(m, u);
      while r.left != null
        invariant u.Bin? && r == u.node && Links(m, u) && Nodes(u) <= Nodes(t1) && m == Snap(Nodes(t1))
        invariant r in m && m[r].left == RootOf(u.left)
        invariant |Inorder(u)| > 0 && |Inorder(t1.right)| > 0 && Inorder(u)[0] == Inorder(t1.right)[0]
        modifies {}
        decreases u
      {
        Front(m, u);
        r := r.left;
        u := u.left;
        Front(m, u);
      }
      Front(m, u);
    }
  }

  /** What is needed of a subtree on the way to its first element. */
  lemma {:induction false} Front(m: Store, u: Tree)
    requires u.Bin? && Links(m, u)
    ensures u.node in m && m[u.node].left == RootOf(u.left) && Links(m, u.left) && Nodes(u.left) <= Nodes(u)
    ensures |Inorder(u)| > 0 && (u.left.Leaf? ==> Inorder(u)[0] == u.node)
    ensures u.left.Bin? ==> |Inorder(u.left)| > 0 && Inorder(u)[0] == Inorder(u.left)[0]
  {
    if u.left.Bin? {
      var l := u.left;
      assert |Inorder(l)| == |Inorder(l.left)| + 1 + |Inorder(l.right)|;
    }
  }

  lemma {:induction false} OnlyOne(s: seq<Node>, x: Node, y: Node)
    requires Sorted(s) && x in s && y in s && x.key == y.key
    ensures x == y
  {
  }
}
