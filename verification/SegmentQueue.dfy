/**
 The arena's segment queue as a value: span markers, each followed by the
 free and allocated segments that tile it.
 */
module SegmentQueue {
  import opened Word64

  datatype Kind = Allocated | Free | Span

  /** What a boundary tag says. `imported` is meaningful for span markers only. */
  datatype Tag = Tag(kind: Kind, imported: bool, base: nat, size: nat) {
    function End(): nat { base + size }
  }

  function FreeTag(base: nat, size: nat): Tag { Tag(Free, false, base, size) }

  function LiveTag(base: nat, size: nat): Tag { Tag(Allocated, false, base, size) }

  /** A span marker with the segments queued behind it. */
  datatype Group = Group(span: Tag, body: seq<Tag>)

  /** The segments of `body` cover [lo, hi) exactly, in address order. */
  ghost predicate Tiles(body: seq<Tag>, lo: nat, hi: nat) {
    && |body| > 0
    && body[0].base == lo
    && body[|body| - 1].End() == hi
    && (forall i :: 0 <= i < |body| ==> body[i].kind != Span && !body[i].imported && body[i].size > 0)
    && (forall i, j :: 0 <= i < j < |body| && j == i + 1 ==> body[i].End() == body[j].base)
  }

  /** No two neighbours are both free. */
  ghost predicate Separated(body: seq<Tag>) {
    forall i, j :: 0 <= i < j < |body| && j == i + 1 ==> !(body[i].kind == Free && body[j].kind == Free)
  }

  ghost predicate Quantized(t: Tag, quantum: nat) {
    quantum > 0 && t.base % quantum == 0 && t.size % quantum == 0
  }

  ghost predicate GroupOk(g: Group, quantum: nat) {
    && g.span.kind == Span
    && g.span.End() <= TWO64 && g.span.size < TWO64
    && Quantized(g.span, quantum)
    && Tiles(g.body, g.span.base, g.span.End())
    && Separated(g.body)
    && (forall i :: 0 <= i < |g.body| ==> Quantized(g.body[i], quantum))
  }

  predicate Disjoint(a: Tag, b: Tag) {
    a.End() <= b.base || b.End() <= a.base
  }

  /** The address lies in the range. */
  predicate Contains(t: Tag, x: nat) {
    t.base <= x < t.End()
  }

  /** Ranges that are not empty are disjoint exactly if they share no address. */
  lemma {:induction false} DisjointIff(a: Tag, b: Tag)
    requires a.size > 0 && b.size > 0
    ensures Disjoint(a, b) <==> forall x: nat :: !(Contains(a, x) && Contains(b, x))
  {
    var x := Max(a.base, b.base);
    assert !Disjoint(a, b) ==> Contains(a, x) && Contains(b, x);
  }

  /** The whole queue: every span is tiled, and the spans do not overlap. */
  ghost predicate QueueOk(gs: seq<Group>, quantum: nat) {
    && (forall k :: 0 <= k < |gs| ==> GroupOk(gs[k], quantum))
    && (forall k, m :: 0 <= k < m < |gs| ==> Disjoint(gs[k].span, gs[m].span))
  }

  /** The queue in its stored form. */
  ghost function Flatten(gs: seq<Group>): seq<Tag> {
    if gs == [] then [] else [gs[0].span] + gs[0].body + Flatten(gs[1..])
  }

  /** The allocated segments of one span, and of the whole queue. */
  ghost function Live(body: seq<Tag>): set<Tag> {
    set t | t in body && t.kind == Allocated
  }

  ghost function AllLive(gs: seq<Group>): set<Tag> {
    set k, t | 0 <= k < |gs| && t in Live(gs[k].body) :: t
  }

  ghost function Spans(gs: seq<Group>): seq<Tag> {
    seq(|gs|, k requires 0 <= k < |gs| => gs[k].span)
  }

  /** Replace `n` elements from `i` on by `mid`. */
  function Splice<T>(s: seq<T>, i: nat, n: nat, mid: seq<T>): seq<T>
    requires i + n <= |s|
  {
    s[..i] + mid + s[i + n..]
  }

  // ---------------------------------------------------------------------------
  // Flattening

  ghost function Offset(gs: seq<Group>, k: nat): nat
    requires k <= |gs|
  {
    |Flatten(gs[..k])|
  }

  lemma {:induction false} FlattenAppend(a: seq<Group>, b: seq<Group>)
    ensures Flatten(a + b) == Flatten(a) + Flatten(b)
  {
    if a == [] {
      assert a + b == b;
    } else {
      assert (a + b)[1..] == a[1..] + b;
      FlattenAppend(a[1..], b);
    }
  }

  /** The queue around group `k`. */
  lemma {:induction false} FlattenAt(gs: seq<Group>, k: nat)
    requires k < |gs|
    ensures Flatten(gs) == (Flatten(gs[..k]) + [gs[k].span]) + gs[k].body + Flatten(gs[k + 1..])
  {
    assert gs == gs[..k] + gs[k..];
    FlattenAppend(gs[..k], gs[k..]);
    assert gs[k..][1..] == gs[k + 1..];
    assert Flatten(gs[k..]) == [gs[k].span] + gs[k].body + Flatten(gs[k + 1..]);
    Regroup(Flatten(gs[..k]), [gs[k].span], gs[k].body, Flatten(gs[k + 1..]));
  }

  lemma {:induction false} Regroup<T>(a: seq<T>, b: seq<T>, c: seq<T>, d: seq<T>)
    ensures a + (b + c + d) == (a + b) + c + d
  {
  }

  /** Splicing inside a body is splicing inside the queue. */
  lemma {:induction false} FlattenSplice(gs: seq<Group>, k: nat, j: nat, n: nat, mid: seq<Tag>)
    requires k < |gs| && j + n <= |gs[k].body|
    ensures Offset(gs, k) + 1 + j + n <= |Flatten(gs)|
    ensures Flatten(gs[k := Group(gs[k].span, Splice(gs[k].body, j, n, mid))])
            == Splice(Flatten(gs), Offset(gs, k) + 1 + j, n, mid)
  {
    var g' := Group(gs[k].span, Splice(gs[k].body, j, n, mid));
    var hs := gs[k := g'];
    FlattenAt(gs, k);
    FlattenAt(hs, k);
    assert hs[..k] == gs[..k] && hs[k + 1..] == gs[k + 1..];
    SpliceInside(Flatten(gs[..k]) + [gs[k].span], gs[k].body, Flatten(gs[k + 1..]), j, n, mid);
  }

  lemma {:induction false} SpliceInside<T>(a: seq<T>, b: seq<T>, c: seq<T>, j: nat, n: nat, mid: seq<T>)
    requires j + n <= |b|
    ensures a + Splice(b, j, n, mid) + c == Splice(a + b + c, |a| + j, n, mid)
  {
  }

  /** Every queued segment that is not a marker belongs to one body. */
  lemma {:induction false} Locate(gs: seq<Group>, i: nat) returns (k: nat, j: nat)
    requires forall k :: 0 <= k < |gs| ==> gs[k].span.kind == Span
    requires i < |Flatten(gs)| && Flatten(gs)[i].kind != Span
    ensures k < |gs| && j < |gs[k].body|
    ensures i == Offset(gs, k) + 1 + j && Flatten(gs)[i] == gs[k].body[j]
  {
    var g := gs[0];
    if i <= |g.body| {
      k, j := 0, i - 1;
    } else {
      var k', j' := Locate(gs[1..], i - 1 - |g.body|);
      k, j := k' + 1, j';
      assert gs[..k][1..] == gs[1..][..k'];
    }
  }

  /** The neighbours of a body element in the queue. */
  lemma {:induction false} Neighbours(gs: seq<Group>, k: nat, j: nat)
    requires k < |gs| && j < |gs[k].body|
    requires forall k :: 0 <= k < |gs| ==> gs[k].span.kind == Span
    ensures var i := Offset(gs, k) + 1 + j;
            && i < |Flatten(gs)|
            && Flatten(gs)[i] == gs[k].body[j]
            && Flatten(gs)[i - 1] == (if j == 0 then gs[k].span else gs[k].body[j - 1])
            && (j + 1 < |gs[k].body| ==> i + 1 < |Flatten(gs)| && Flatten(gs)[i + 1] == gs[k].body[j + 1])
            && (j + 1 == |gs[k].body| && i + 1 < |Flatten(gs)| ==> Flatten(gs)[i + 1].kind == Span)
  {
    FlattenAt(gs, k);
    var rest := gs[k + 1..];
    if rest != [] {
      assert rest[0] == gs[k + 1];
      assert Flatten(rest)[0] == rest[0].span;
    }
  }

  lemma {:induction false} FlattenMember(gs: seq<Group>, k: nat, t: Tag)
    requires k < |gs| && (t in gs[k].body || t == gs[k].span)
    ensures t in Flatten(gs)
  {
    FlattenAt(gs, k);
  }

  // ---------------------------------------------------------------------------
  // Address order

  lemma {:induction false} TilesOrdered(body: seq<Tag>, lo: nat, hi: nat, i: nat, j: nat)
    requires Tiles(body, lo, hi) && i < j < |body|
    ensures body[i].End() <= body[j].base
    decreases j - i
  {
    if j == i + 1 {
    } else {
      TilesOrdered(body, lo, hi, i, j - 1);
      assert body[j - 1].End() == body[j].base;
    }
  }

  /** Every tile lies inside the tiled range. */
  lemma {:induction false} TilesInside(body: seq<Tag>, lo: nat, hi: nat, i: nat)
    requires Tiles(body, lo, hi) && i < |body|
    ensures lo <= body[i].base && body[i].End() <= hi
  {
    if 0 < i { TilesOrdered(body, lo, hi, 0, i); }
    if i < |body| - 1 { TilesOrdered(body, lo, hi, i, |body| - 1); }
  }

  /** Distinct queued segments never overlap, within a span or across spans. */
  lemma {:induction false} SegmentsDisjoint(gs: seq<Group>, quantum: nat, k: nat, i: nat, m: nat, j: nat)
    requires QueueOk(gs, quantum)
    requires k < |gs| && i < |gs[k].body| && m < |gs| && j < |gs[m].body|
    requires (k, i) != (m, j)
    ensures Disjoint(gs[k].body[i], gs[m].body[j])
  {
    var a, b := gs[k], gs[m];
    TilesInside(a.body, a.span.base, a.span.End(), i);
    TilesInside(b.body, b.span.base, b.span.End(), j);
    if k == m {
      TilesOrdered(a.body, a.span.base, a.span.End(), if i < j then i else j, if i < j then j else i);
    } else if k < m {
      assert Disjoint(gs[k].span, gs[m].span);
    } else {
      assert Disjoint(gs[m].span, gs[k].span);
    }
  }

  /** Live blocks never overlap. */
  lemma {:induction false} LiveDisjoint(gs: seq<Group>, quantum: nat, a: Tag, b: Tag)
    requires QueueOk(gs, quantum)
    requires a in AllLive(gs) && b in AllLive(gs) && a != b
    ensures Disjoint(a, b)
  {
    var k: nat :| k < |gs| && a in Live(gs[k].body);
    var m: nat :| m < |gs| && b in Live(gs[m].body);
    var i: nat :| i < |gs[k].body| && gs[k].body[i] == a;
    var j: nat :| j < |gs[m].body| && gs[m].body[j] == b;
    SegmentsDisjoint(gs, quantum, k, i, m, j);
  }

  // ---------------------------------------------------------------------------
  // Splitting and coalescing

  /** What a free segment becomes when [addr, addr + size) is taken out of it. */
  function Pieces(t: Tag, addr: nat, size: nat): seq<Tag>
    requires t.base <= addr && addr + size <= t.End()
  {
    var front, block, rest := FreeTag(t.base, addr - t.base), LiveTag(addr, size), FreeTag(addr + size, t.End() - addr - size);
    if addr == t.base && addr + size == t.End() then [block]
    else if addr == t.base then [block, rest]
    else if addr + size == t.End() then [front, block]
    else [front, block, rest]
  }

  ghost function Place(body: seq<Tag>, j: nat, addr: nat, size: nat): seq<Tag>
    requires j < |body| && body[j].base <= addr && addr + size <= body[j].End()
  {
    Splice(body, j, 1, Pieces(body[j], addr, size))
  }

  predicate FreeAt(body: seq<Tag>, j: int) {
    0 <= j < |body| && body[j].kind == Free
  }

  /** First and last index merged when the block at `j` is freed. */
  function MergeFirst(body: seq<Tag>, j: nat): (f: nat)
    requires j < |body|
    ensures f <= j <= f + 1
  {
    if FreeAt(body, j - 1) then j - 1 else j
  }

  function MergeLast(body: seq<Tag>, j: nat): (l: nat)
    requires j < |body|
    ensures j <= l < |body|
  {
    if FreeAt(body, j + 1) then j + 1 else j
  }

  /** The free segment left behind: the sizes are added, the base is the leftmost one. */
  function Merged(body: seq<Tag>, j: nat): Tag
    requires j < |body|
  {
    var f, l := MergeFirst(body, j), MergeLast(body, j);
    FreeTag(body[f].base,
            body[j].size + (if f < j then body[f].size else 0) + (if j < l then body[l].size else 0))
  }

  ghost function Release(body: seq<Tag>, j: nat): seq<Tag>
    requires j < |body|
  {
    var f, l := MergeFirst(body, j), MergeLast(body, j);
    Splice(body, f, l - f + 1, [Merged(body, j)])
  }

  /** A stretch of tiles may be replaced by any tiling of the same range. */
  lemma {:induction false} SpliceTiles(body: seq<Tag>, lo: nat, hi: nat, i: nat, n: nat, mid: seq<Tag>)
    requires Tiles(body, lo, hi) && 0 < n && i + n <= |body|
    requires Tiles(mid, body[i].base, body[i + n - 1].End())
    ensures Tiles(Splice(body, i, n, mid), lo, hi)
  {
    var s, d := Splice(body, i, n, mid), |mid| - n;
    SpliceAt(body, i, n, mid);
    forall x, y | 0 <= x < y < |s| && y == x + 1 ensures s[x].End() == s[y].base {
      if y < i {
      } else if y == i {
        assert body[i - 1].End() == body[i].base;
      } else if y < i + |mid| {
      } else if y == i + |mid| {
        assert body[i + n - 1].End() == body[i + n].base;
      } else {
        assert body[x - d].End() == body[y - d].base;
      }
    }
  }

  lemma {:induction false} SpliceAt<T>(s: seq<T>, i: nat, n: nat, mid: seq<T>)
    requires i + n <= |s|
    ensures var r := Splice(s, i, n, mid);
            && |r| == |s| - n + |mid|
            && (forall x :: 0 <= x < i ==> r[x] == s[x])
            && (forall x :: i <= x < i + |mid| ==> r[x] == mid[x - i])
            && (forall x :: i + |mid| <= x < |r| ==> r[x] == s[x + n - |mid|])
  {
  }

  /** The replacement is separated when it is separated itself and from both neighbours. */
  lemma {:induction false} SpliceSeparated(body: seq<Tag>, i: nat, n: nat, mid: seq<Tag>)
    requires Separated(body) && 0 < n && i + n <= |body| && |mid| > 0 && Separated(mid)
    requires mid[0].kind == Free ==> !FreeAt(body, i - 1)
    requires mid[|mid| - 1].kind == Free ==> !FreeAt(body, i + n)
    ensures Separated(Splice(body, i, n, mid))
  {
    var s, d := Splice(body, i, n, mid), |mid| - n;
    SpliceAt(body, i, n, mid);
    forall x, y | 0 <= x < y < |s| && y == x + 1 ensures !(s[x].kind == Free && s[y].kind == Free) {
      if y > i + |mid| {
        assert !(body[x - d].kind == Free && body[y - d].kind == Free);
      }
    }
  }

  lemma {:induction false} PiecesTile(t: Tag, addr: nat, size: nat)
    requires size > 0 && t.base <= addr && addr + size <= t.End()
    ensures Tiles(Pieces(t, addr, size), t.base, t.End()) && Separated(Pieces(t, addr, size))
  {
  }

  lemma {:induction false} PlaceTiles(body: seq<Tag>, lo: nat, hi: nat, j: nat, addr: nat, size: nat)
    requires Tiles(body, lo, hi) && Separated(body)
    requires FreeAt(body, j) && size > 0
    requires body[j].base <= addr && addr + size <= body[j].End()
    ensures Tiles(Place(body, j, addr, size), lo, hi) && Separated(Place(body, j, addr, size))
  {
    PiecesTile(body[j], addr, size);
    SpliceTiles(body, lo, hi, j, 1, Pieces(body[j], addr, size));
    SpliceSeparated(body, j, 1, Pieces(body[j], addr, size));
  }

  lemma {:induction false} PlaceLive(body: seq<Tag>, j: nat, addr: nat, size: nat)
    requires FreeAt(body, j) && body[j].base <= addr && addr + size <= body[j].End()
    ensures Live(Place(body, j, addr, size)) == Live(body) + {LiveTag(addr, size)}
  {
    var p := Pieces(body[j], addr, size);
    SpliceMembers(body, j, 1, p);
    assert LiveTag(addr, size) in p;
    forall t | t in p && t.kind == Allocated ensures t == LiveTag(addr, size) { }
    assert body[j..j + 1] == [body[j]];
  }

  /** Membership in a splice. */
  lemma {:induction false} SpliceMembers<T>(s: seq<T>, i: nat, n: nat, mid: seq<T>)
    requires i + n <= |s|
    ensures forall x :: x in Splice(s, i, n, mid) <==> x in s[..i] || x in mid || x in s[i + n..]
    ensures forall x :: x in s <==> x in s[..i] || x in s[i..i + n] || x in s[i + n..]
  {
    assert s == s[..i] + s[i..i + n] + s[i + n..];
  }

  lemma {:induction false} ReleaseTiles(body: seq<Tag>, lo: nat, hi: nat, j: nat)
    requires Tiles(body, lo, hi) && Separated(body)
    requires j < |body| && body[j].kind == Allocated
    ensures Merged(body, j).End() == body[MergeLast(body, j)].End()
    ensures Tiles(Release(body, j), lo, hi) && Separated(Release(body, j))
  {
    hide Splice;
    var f, l := MergeFirst(body, j), MergeLast(body, j);
    if f < j { assert body[f].End() == body[j].base; }
    if j < l { assert body[j].End() == body[l].base; }
    var merged := [Merged(body, j)];
    SpliceTiles(body, lo, hi, f, l - f + 1, merged);
    SpliceSeparated(body, f, l - f + 1, merged);
  }

  lemma {:induction false} ReleaseLive(body: seq<Tag>, lo: nat, hi: nat, j: nat)
    requires Tiles(body, lo, hi) && Separated(body)
    requires j < |body| && body[j].kind == Allocated
    ensures Live(Release(body, j)) == Live(body) - {body[j]}
  {
    hide Splice, Separated;
    ReleaseTiles(body, lo, hi, j);
    var f, l := MergeFirst(body, j), MergeLast(body, j);
    SpliceMembers(body, f, l - f + 1, [Merged(body, j)]);
    forall i | 0 <= i < |body| && i != j ensures body[i] != body[j] {
      TilesOrdered(body, lo, hi, if i < j then i else j, if i < j then j else i);
    }
    forall t | t in body[f..l + 1] && t.kind == Allocated ensures t == body[j] {
      var i :| f <= i < l + 1 && body[i] == t;
    }
    assert body[j] in body[f..l + 1] by { assert body[f..l + 1][j - f] == body[j]; }
  }

  /** The pieces of a quantized segment are quantized. */
  lemma {:induction false} PiecesQuantized(t: Tag, addr: nat, size: nat, quantum: nat)
    requires Quantized(t, quantum) && addr % quantum == 0 && size % quantum == 0
    requires t.base <= addr && addr + size <= t.End()
    ensures forall p :: p in Pieces(t, addr, size) ==> Quantized(p, quantum)
  {
    MultipleSum(addr, t.base, quantum);
    MultipleSum(addr, size, quantum);
    MultipleSum(t.base, t.size, quantum);
    MultipleSum(t.End(), addr, quantum);
    MultipleSum(t.End(), addr + size, quantum);
  }

  lemma {:induction false} PlaceOk(g: Group, quantum: nat, j: nat, addr: nat, size: nat)
    requires GroupOk(g, quantum) && FreeAt(g.body, j) && size > 0
    requires g.body[j].base <= addr && addr + size <= g.body[j].End()
    requires addr % quantum == 0 && size % quantum == 0
    ensures GroupOk(Group(g.span, Place(g.body, j, addr, size)), quantum)
  {
    PlaceTiles(g.body, g.span.base, g.span.End(), j, addr, size);
    var p := Pieces(g.body[j], addr, size);
    PiecesQuantized(g.body[j], addr, size, quantum);
    var b := Place(g.body, j, addr, size);
    SpliceMembers(g.body, j, 1, p);
    forall i | 0 <= i < |b| ensures Quantized(b[i], quantum) {
      assert b[i] in b;
    }
  }

  lemma {:induction false} ReleaseOk(g: Group, quantum: nat, j: nat)
    requires GroupOk(g, quantum) && j < |g.body| && g.body[j].kind == Allocated
    ensures GroupOk(Group(g.span, Release(g.body, j)), quantum)
  {
    ReleaseTiles(g.body, g.span.base, g.span.End(), j);
    var f, l := MergeFirst(g.body, j), MergeLast(g.body, j);
    var t := Merged(g.body, j);
    assert Quantized(t, quantum) by {
      MultipleSum(g.body[l].base, g.body[l].size, quantum);
      MultipleSum(g.body[l].End(), g.body[f].base, quantum);
    }
    var b := Release(g.body, j);
    SpliceMembers(g.body, f, l - f + 1, [t]);
    forall i | 0 <= i < |b| ensures Quantized(b[i], quantum) {
      assert b[i] in b;
    }
  }

  // ---------------------------------------------------------------------------
  // Canonical form

  /** Two separated tilings of a range with the same live blocks are the same sequence. */
  lemma {:induction false} BodyCanonical(a: seq<Tag>, b: seq<Tag>, lo: nat, hi: nat)
    requires Tiles(a, lo, hi) && Separated(a) && Tiles(b, lo, hi) && Separated(b)
    requires Live(a) == Live(b)
    ensures a == b
    decreases |a|
  {
    HeadsEqual(a, b, lo, hi);
    if |a| == 1 {
      if |b| > 1 { TilesOrdered(b, lo, hi, 0, |b| - 1); assert false; }
    } else {
      if |b| == 1 { TilesOrdered(a, lo, hi, 0, |a| - 1); assert false; }
      var mid := a[0].End();
      LiveTail(a, lo, hi);
      LiveTail(b, lo, hi);
      TailTiles(a, lo, hi);
      TailTiles(b, lo, hi);
      BodyCanonical(a[1..], b[1..], mid, hi);
      assert a == [a[0]] + a[1..] && b == [b[0]] + b[1..];
    }
  }

  lemma {:induction false} TailTiles(a: seq<Tag>, lo: nat, hi: nat)
    requires Tiles(a, lo, hi) && Separated(a) && |a| > 1
    ensures Tiles(a[1..], a[0].End(), hi) && Separated(a[1..])
  {
    assert a[0].End() == a[1].base;
  }

  lemma {:induction false} LiveTail(a: seq<Tag>, lo: nat, hi: nat)
    requires Tiles(a, lo, hi)
    ensures Live(a[1..]) == if a[0].kind == Allocated then Live(a) - {a[0]} else Live(a)
  {
    assert a == [a[0]] + a[1..];
    forall t | t in a[1..] ensures t != a[0] {
      var i :| 0 < i < |a| && a[i] == t;
      TilesOrdered(a, lo, hi, 0, i);
    }
  }

  lemma {:induction false} HeadsEqual(a: seq<Tag>, b: seq<Tag>, lo: nat, hi: nat)
    requires Tiles(a, lo, hi) && Separated(a) && Tiles(b, lo, hi) && Separated(b)
    requires Live(a) == Live(b)
    ensures a[0] == b[0]
  {
    if a[0].kind == Allocated {
      LiveHead(a, b, lo, hi);
    } else if b[0].kind == Allocated {
      LiveHead(b, a, lo, hi);
    } else {
      FreeHead(a, b, lo, hi);
      FreeHead(b, a, lo, hi);
    }
  }

  lemma {:induction false} LiveHead(a: seq<Tag>, b: seq<Tag>, lo: nat, hi: nat)
    requires Tiles(a, lo, hi) && Tiles(b, lo, hi) && Live(a) == Live(b) && a[0].kind == Allocated
    ensures a[0] == b[0]
  {
    assert a[0] in Live(a);
    var i :| 0 <= i < |b| && b[i] == a[0];
    if i > 0 { TilesOrdered(b, lo, hi, 0, i); }
  }

  /** A free head reaches at least as far as the other tiling's free head. */
  lemma {:induction false} FreeHead(a: seq<Tag>, b: seq<Tag>, lo: nat, hi: nat)
    requires Tiles(a, lo, hi) && Separated(a) && Tiles(b, lo, hi) && Live(a) == Live(b)
    requires a[0].kind == Free && b[0].kind == Free
    ensures a[0].End() >= b[0].End()
  {
    if a[0].End() < b[0].End() {
      TilesInside(b, lo, hi, 0);
      assert |a| > 1;
      assert a[1].kind == Allocated && a[0].End() == a[1].base;
      assert a[1] in Live(a);
      var i :| 0 <= i < |b| && b[i] == a[1];
      if i > 0 { TilesOrdered(b, lo, hi, 0, i); }
      assert false;
    }
  }

  /** The spans in order and the live blocks determine the whole queue. */
  lemma {:induction false} QueueCanonical(gs: seq<Group>, hs: seq<Group>, quantum: nat)
    requires QueueOk(gs, quantum) && QueueOk(hs, quantum)
    requires Spans(gs) == Spans(hs) && AllLive(gs) == AllLive(hs)
    ensures gs == hs
  {
    assert |gs| == |Spans(gs)| == |Spans(hs)| == |hs|;
    forall k | 0 <= k < |gs| ensures gs[k] == hs[k] {
      assert gs[k].span == Spans(gs)[k] == Spans(hs)[k] == hs[k].span;
      LiveOfSpan(gs, hs, quantum, k);
      LiveOfSpan(hs, gs, quantum, k);
      BodyCanonical(gs[k].body, hs[k].body, gs[k].span.base, gs[k].span.End());
    }
  }

  lemma {:induction false} LiveOfSpan(gs: seq<Group>, hs: seq<Group>, quantum: nat, k: nat)
    requires QueueOk(gs, quantum) && QueueOk(hs, quantum)
    requires Spans(gs) == Spans(hs) && AllLive(gs) == AllLive(hs)
    requires k < |gs| && k < |hs|
    ensures Live(gs[k].body) <= Live(hs[k].body)
  {
    forall t | t in Live(gs[k].body) ensures t in Live(hs[k].body) {
      assert t in AllLive(gs);
      var m: nat :| m < |hs| && t in Live(hs[m].body);
      var i: nat :| i < |gs[k].body| && gs[k].body[i] == t;
      var j: nat :| j < |hs[m].body| && hs[m].body[j] == t;
      assert gs[k].span == Spans(gs)[k] == Spans(hs)[k] == hs[k].span;
      TilesInside(gs[k].body, gs[k].span.base, gs[k].span.End(), i);
      TilesInside(hs[m].body, hs[m].span.base, hs[m].span.End(), j);
      assert m == k;
    }
  }

  // ---------------------------------------------------------------------------
  // Accounting

  /** Bytes in live blocks. */
  ghost function LiveBytes(body: seq<Tag>): nat {
    if body == [] then 0
    else (if body[0].kind == Allocated then body[0].size else 0) + LiveBytes(body[1..])
  }

  ghost function TotalLive(gs: seq<Group>): nat {
    if gs == [] then 0 else LiveBytes(gs[0].body) + TotalLive(gs[1..])
  }

  lemma {:induction false} LiveBytesAppend(a: seq<Tag>, b: seq<Tag>)
    ensures LiveBytes(a + b) == LiveBytes(a) + LiveBytes(b)
  {
    if a == [] {
      assert a + b == b;
    } else {
      assert (a + b)[1..] == a[1..] + b;
      LiveBytesAppend(a[1..], b);
    }
  }

  lemma {:induction false} LiveBytesSplice(body: seq<Tag>, i: nat, n: nat, mid: seq<Tag>)
    requires i + n <= |body|
    ensures LiveBytes(Splice(body, i, n, mid)) == LiveBytes(body) - LiveBytes(body[i..i + n]) + LiveBytes(mid)
  {
    assert body == body[..i] + body[i..i + n] + body[i + n..];
    LiveBytesAppend(body[..i] + body[i..i + n], body[i + n..]);
    LiveBytesAppend(body[..i], body[i..i + n]);
    LiveBytesAppend(body[..i] + mid, body[i + n..]);
    LiveBytesAppend(body[..i], mid);
  }

  lemma {:induction false} TotalLiveAppend(a: seq<Group>, b: seq<Group>)
    ensures TotalLive(a + b) == TotalLive(a) + TotalLive(b)
  {
    if a == [] {
      assert a + b == b;
    } else {
      assert (a + b)[1..] == a[1..] + b;
      TotalLiveAppend(a[1..], b);
    }
  }

  lemma {:induction false} TotalLiveSplice(gs: seq<Group>, k: nat, n: nat, mid: seq<Group>)
    requires k + n <= |gs|
    ensures TotalLive(Splice(gs, k, n, mid)) == TotalLive(gs) - TotalLive(gs[k..k + n]) + TotalLive(mid)
  {
    assert gs == gs[..k] + gs[k..k + n] + gs[k + n..];
    TotalLiveAppend(gs[..k] + gs[k..k + n], gs[k + n..]);
    TotalLiveAppend(gs[..k], gs[k..k + n]);
    TotalLiveAppend(gs[..k] + mid, gs[k + n..]);
    TotalLiveAppend(gs[..k], mid);
  }

  lemma {:induction false} TotalLiveUpdate(gs: seq<Group>, k: nat, g: Group)
    requires k < |gs|
    ensures TotalLive(gs[k := g]) == TotalLive(gs) - LiveBytes(gs[k].body) + LiveBytes(g.body)
  {
    assert gs[k := g] == Splice(gs, k, 1, [g]);
    TotalLiveSplice(gs, k, 1, [g]);
    assert gs[k..k + 1] == [gs[k]];
    assert TotalLive([gs[k]]) == LiveBytes(gs[k].body) + TotalLive([gs[k]][1..]);
    assert TotalLive([g]) == LiveBytes(g.body) + TotalLive([g][1..]);
  }

  lemma {:induction false} PlaceBytes(body: seq<Tag>, j: nat, addr: nat, size: nat)
    requires FreeAt(body, j) && body[j].base <= addr && addr + size <= body[j].End()
    ensures LiveBytes(Place(body, j, addr, size)) == LiveBytes(body) + size
  {
    var p := Pieces(body[j], addr, size);
    LiveBytesSplice(body, j, 1, p);
    assert body[j..j + 1] == [body[j]];
    LiveBytesOne(body[j]);
    BytesOfPieces(body[j], addr, size);
  }

  lemma {:induction false} LiveBytesOne(t: Tag)
    ensures LiveBytes([t]) == if t.kind == Allocated then t.size else 0
  {
    assert [t][1..] == [];
  }

  lemma {:induction false} BytesOfPieces(t: Tag, addr: nat, size: nat)
    requires t.base <= addr && addr + size <= t.End()
    ensures LiveBytes(Pieces(t, addr, size)) == size
  {
    var p := Pieces(t, addr, size);
    if |p| == 1 {
      LiveBytesOne(p[0]);
    } else if |p| == 2 {
      assert p == [p[0]] + [p[1]];
      LiveBytesAppend([p[0]], [p[1]]);
      LiveBytesOne(p[0]);
      LiveBytesOne(p[1]);
    } else {
      assert p == [p[0]] + [p[1]] + [p[2]];
      LiveBytesAppend([p[0]] + [p[1]], [p[2]]);
      LiveBytesAppend([p[0]], [p[1]]);
      LiveBytesOne(p[0]);
      LiveBytesOne(p[1]);
      LiveBytesOne(p[2]);
    }
  }

  lemma {:induction false} ReleaseBytes(body: seq<Tag>, j: nat)
    requires j < |body| && body[j].kind == Allocated
    ensures LiveBytes(Release(body, j)) == LiveBytes(body) - body[j].size
  {
    var f, l := MergeFirst(body, j), MergeLast(body, j);
    var t := Merged(body, j);
    LiveBytesSplice(body, f, l - f + 1, [t]);
    LiveBytesOne(t);
    MergedBytes(body, f, j, l);
  }

  lemma {:induction false} MergedBytes(body: seq<Tag>, f: nat, j: nat, l: nat)
    requires f <= j <= f + 1 && j <= l <= j + 1 && l < |body|
    requires body[j].kind == Allocated && (f < j ==> body[f].kind == Free) && (j < l ==> body[l].kind == Free)
    ensures LiveBytes(body[f..l + 1]) == body[j].size
  {
    var a, b := body[f..j], body[j + 1..l + 1];
    assert body[f..l + 1] == a + [body[j]] + b;
    LiveBytesAppend(a + [body[j]], b);
    LiveBytesAppend(a, [body[j]]);
    LiveBytesOne(body[j]);
    NoLiveBytes(a);
    NoLiveBytes(b);
  }

  lemma {:induction false} NoLiveBytes(s: seq<Tag>)
    requires |s| <= 1 && forall t :: t in s ==> t.kind == Free
    ensures LiveBytes(s) == 0
  {
    if |s| == 1 {
      assert s == [s[0]];
      LiveBytesOne(s[0]);
    }
  }

  // ---------------------------------------------------------------------------
  // Updating one span of a queue

  lemma {:induction false} AllLiveUpdate(gs: seq<Group>, quantum: nat, k: nat, body: seq<Tag>)
    requires QueueOk(gs, quantum) && k < |gs| && GroupOk(Group(gs[k].span, body), quantum)
    ensures var hs := gs[k := Group(gs[k].span, body)];
            QueueOk(hs, quantum) && Spans(hs) == Spans(gs)
            && AllLive(hs) == AllLive(gs) - Live(gs[k].body) + Live(body)
  {
    var hs := gs[k := Group(gs[k].span, body)];
    forall t | t in AllLive(hs) ensures t in AllLive(gs) - Live(gs[k].body) + Live(body) {
      var m :| 0 <= m < |hs| && t in Live(hs[m].body);
      if m != k {
        assert t in Live(gs[m].body);
        LiveElsewhere(gs, quantum, m, k, t);
      }
    }
    forall t | t in AllLive(gs) && t !in Live(gs[k].body) ensures t in AllLive(hs) {
      var m :| 0 <= m < |gs| && t in Live(gs[m].body);
      assert t in Live(hs[m].body);
    }
    forall t | t in Live(body) ensures t in AllLive(hs) {
      assert t in Live(hs[k].body);
    }
  }

  lemma {:induction false} LiveElsewhere(gs: seq<Group>, quantum: nat, m: nat, k: nat, t: Tag)
    requires QueueOk(gs, quantum) && m < |gs| && k < |gs| && m != k && t in Live(gs[m].body)
    ensures t !in Live(gs[k].body)
  {
    var i: nat :| i < |gs[m].body| && gs[m].body[i] == t;
    if t in Live(gs[k].body) {
      var j: nat :| j < |gs[k].body| && gs[k].body[j] == t;
      SegmentsDisjoint(gs, quantum, m, i, k, j);
    }
  }

  /** A span without live blocks is one free segment, and the other way round. */
  lemma {:induction false} WhollyFree(g: Group, quantum: nat)
    requires GroupOk(g, quantum)
    ensures Live(g.body) == {} <==> g.body == [FreeTag(g.span.base, g.span.size)]
  {
    if Live(g.body) == {} {
      var whole := [FreeTag(g.span.base, g.span.size)];
      assert g.span.size > 0 by { TilesInside(g.body, g.span.base, g.span.End(), 0); }
      BodyCanonical(g.body, whole, g.span.base, g.span.End());
    }
  }

  /** Freeing the block at `j` of span `k`: the same spans, one live block less. */
  ghost function Freed(gs: seq<Group>, k: nat, j: nat): seq<Group>
    requires k < |gs| && j < |gs[k].body|
  {
    gs[k := Group(gs[k].span, Release(gs[k].body, j))]
  }

  lemma {:induction false} FreedOk(gs: seq<Group>, quantum: nat, k: nat, j: nat)
    requires QueueOk(gs, quantum) && k < |gs| && j < |gs[k].body| && gs[k].body[j].kind == Allocated
    ensures QueueOk(Freed(gs, k, j), quantum) && Spans(Freed(gs, k, j)) == Spans(gs)
    ensures AllLive(Freed(gs, k, j)) == AllLive(gs) - {gs[k].body[j]}
    ensures TotalLive(Freed(gs, k, j)) == TotalLive(gs) - gs[k].body[j].size
  {
    var g := gs[k];
    ReleaseOk(g, quantum, j);
    ReleaseLive(g.body, g.span.base, g.span.End(), j);
    AllLiveUpdate(gs, quantum, k, Release(g.body, j));
    assert g.body[j] in Live(g.body);
    ReleaseBytes(g.body, j);
    TotalLiveUpdate(gs, k, Group(g.span, Release(g.body, j)));
  }

  /** Taking a block out of the free segment at `j` of span `k`: the same spans, one live block more. */
  ghost function Placed(gs: seq<Group>, k: nat, j: nat, addr: nat, size: nat): seq<Group>
    requires k < |gs| && j < |gs[k].body|
    requires gs[k].body[j].base <= addr && addr + size <= gs[k].body[j].End()
  {
    gs[k := Group(gs[k].span, Place(gs[k].body, j, addr, size))]
  }

  lemma {:induction false} PlacedOk(gs: seq<Group>, quantum: nat, k: nat, j: nat, addr: nat, size: nat)
    requires QueueOk(gs, quantum) && k < |gs| && FreeAt(gs[k].body, j) && size > 0
    requires gs[k].body[j].base <= addr && addr + size <= gs[k].body[j].End()
    requires quantum > 0 && addr % quantum == 0 && size % quantum == 0
    ensures QueueOk(Placed(gs, k, j, addr, size), quantum) && Spans(Placed(gs, k, j, addr, size)) == Spans(gs)
    ensures AllLive(Placed(gs, k, j, addr, size)) == AllLive(gs) + {LiveTag(addr, size)}
    ensures LiveTag(addr, size) !in AllLive(gs)
    ensures TotalLive(Placed(gs, k, j, addr, size)) == TotalLive(gs) + size
  {
    var g := gs[k];
    var b := Place(g.body, j, addr, size);
    PlaceOk(g, quantum, j, addr, size);
    PlaceLive(g.body, j, addr, size);
    AllLiveUpdate(gs, quantum, k, b);
    assert Live(g.body) <= AllLive(gs);
    PlaceBytes(g.body, j, addr, size);
    TotalLiveUpdate(gs, k, Group(g.span, b));
    FreeIsNotLive(gs, quantum, k, j, LiveTag(addr, size));
  }

  /** No live block overlaps a free segment. */
  lemma {:induction false} FreeIsNotLive(gs: seq<Group>, quantum: nat, k: nat, j: nat, t: Tag)
    requires QueueOk(gs, quantum) && k < |gs| && FreeAt(gs[k].body, j)
    requires t.size > 0 && !Disjoint(t, gs[k].body[j])
    ensures t !in AllLive(gs)
  {
    if t in AllLive(gs) {
      var m: nat :| m < |gs| && t in Live(gs[m].body);
      var i: nat :| i < |gs[m].body| && gs[m].body[i] == t;
      SegmentsDisjoint(gs, quantum, m, i, k, j);
      assert false;
    }
  }

  /** Dropping a whole span. */
  lemma {:induction false} DroppedOk(gs: seq<Group>, quantum: nat, k: nat)
    requires QueueOk(gs, quantum) && k < |gs|
    ensures QueueOk(Splice(gs, k, 1, []), quantum)
    ensures AllLive(Splice(gs, k, 1, [])) == AllLive(gs) - Live(gs[k].body)
    ensures TotalLive(Splice(gs, k, 1, [])) == TotalLive(gs) - LiveBytes(gs[k].body)
  {
    hide GroupOk, Live, LiveBytes;
    SpliceAt(gs, k, 1, []);
    TotalLiveSplice(gs, k, 1, []);
    assert gs[k..k + 1] == [gs[k]];
    assert TotalLive([gs[k]]) == LiveBytes(gs[k].body) + TotalLive([gs[k]][1..]);
    DroppedLive(gs, quantum, k);
  }

  lemma {:induction false} DroppedFlatten(gs: seq<Group>, k: nat)
    requires k < |gs|
    ensures Offset(gs, k) + 1 + |gs[k].body| <= |Flatten(gs)|
    ensures Flatten(Splice(gs, k, 1, [])) == Splice(Flatten(gs), Offset(gs, k), 1 + |gs[k].body|, [])
  {
    FlattenAt(gs, k);
    FlattenAppend(gs[..k], gs[k + 1..]);
    assert Splice(gs, k, 1, []) == gs[..k] + gs[k + 1..];
    var a, b, c := Flatten(gs[..k]), gs[k].body, Flatten(gs[k + 1..]);
    assert Splice(a + [gs[k].span] + b + c, |a|, 1 + |b|, []) == a + c;
  }

  lemma {:induction false} DroppedLive(gs: seq<Group>, quantum: nat, k: nat)
    requires QueueOk(gs, quantum) && k < |gs|
    ensures AllLive(Splice(gs, k, 1, [])) == AllLive(gs) - Live(gs[k].body)
  {
    hide QueueOk, Live;
    var hs := Splice(gs, k, 1, []);
    SpliceAt(gs, k, 1, []);
    forall t | t in AllLive(hs) ensures t in AllLive(gs) - Live(gs[k].body) {
      var m :| 0 <= m < |hs| && t in Live(hs[m].body);
      var m' := if m < k then m else m + 1;
      assert hs[m] == gs[m'];
      LiveElsewhere(gs, quantum, m', k, t);
    }
    forall t | t in AllLive(gs) && t !in Live(gs[k].body) ensures t in AllLive(hs) {
      var m :| 0 <= m < |gs| && t in Live(gs[m].body);
      assert gs[m] == hs[if m < k then m else m - 1];
    }
  }

  /** Queueing a new span behind the others. */
  lemma {:induction false} AddedOk(gs: seq<Group>, quantum: nat, span: Tag)
    requires QueueOk(gs, quantum) && span.kind == Span && 0 < span.size < TWO64 && span.End() <= TWO64
    requires Quantized(span, quantum)
    requires forall k :: 0 <= k < |gs| ==> Disjoint(gs[k].span, span)
    ensures var g := Group(span, [FreeTag(span.base, span.size)]);
            && QueueOk(gs + [g], quantum)
            && AllLive(gs + [g]) == AllLive(gs)
            && TotalLive(gs + [g]) == TotalLive(gs)
            && Flatten(gs + [g]) == Flatten(gs) + [span, FreeTag(span.base, span.size)]
  {
    var t := FreeTag(span.base, span.size);
    var g := Group(span, [t]);
    var hs := gs + [g];
    assert GroupOk(g, quantum);
    FlattenAppend(gs, [g]);
    assert [g][1..] == [];
    assert Flatten([g]) == [span] + [t] + Flatten([g][1..]);
    TotalLiveAppend(gs, [g]);
    assert TotalLive([g]) == LiveBytes([t]) + TotalLive([g][1..]);
    LiveBytesOne(t);
    forall x | x in AllLive(hs) ensures x in AllLive(gs) {
      var m :| 0 <= m < |hs| && x in Live(hs[m].body);
      assert m < |gs|;
      assert hs[m] == gs[m];
    }
    forall x | x in AllLive(gs) ensures x in AllLive(hs) {
      var m :| 0 <= m < |gs| && x in Live(gs[m].body);
      assert hs[m] == gs[m];
    }
  }

  /** A free segment as large as its span is the whole span: no live block is left in it. */
  lemma {:induction false} SpanDone(g: Group, quantum: nat, j: nat)
    requires GroupOk(g, quantum) && FreeAt(g.body, j)
    ensures Live(g.body) == {} <==> j == 0 && g.body[0].size == g.span.size
    ensures Live(g.body) == {} ==> g.body == [FreeTag(g.span.base, g.span.size)]
    ensures j > 0 ==> g.body[j - 1].kind == Allocated
  {
    WhollyFree(g, quantum);
    if j == 0 && g.body[0].size == g.span.size && |g.body| > 1 {
      TilesOrdered(g.body, g.span.base, g.span.End(), 0, |g.body| - 1);
      assert false;
    }
  }

  /** Every segment of a quantized queue has a size the freelists can hold. */
  lemma {:induction false} SizedTile(g: Group, quantum: nat, j: nat)
    requires GroupOk(g, quantum) && j < |g.body|
    ensures quantum <= g.body[j].size < TWO64
  {
    TilesInside(g.body, g.span.base, g.span.End(), j);
    if g.body[j].size < quantum {
      ModOffset(0, g.body[j].size, quantum);
      assert false;
    }
  }
}
