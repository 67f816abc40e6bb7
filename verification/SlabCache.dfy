/** `kmem_cache_alloc`, `kmem_cache_free` and `kmem_cache_destroy` on a cache and its slabs. */
module SlabCache {
  import opened Sequences
  import opened Word64
  import opened Slab

  /** A slab. Its free list holds the addresses of its free chunks. */
  class KmemSlab {
    const start: nat
    const large: bool
    var refcnt: nat
    var freelist: seq<nat>

    constructor (start: nat, large: bool)
      ensures this.start == start && this.large == large && refcnt == 0 && freelist == []
    {
      this.start, this.large, refcnt, freelist := start, large, 0, [];
    }
  }

  /** The descriptor of a large chunk that is handed out. */
  datatype Bufctl = Bufctl(chunk: nat, slab: KmemSlab)

  // ---------------------------------------------------------------------------
  // The cache as a value

  datatype SlabState = SlabState(refcnt: nat, freelist: seq<nat>)

  /** The slabs, the two lists, the descriptors in use, and the small slabs' headers by address. */
  datatype State = State(slabs: map<KmemSlab, SlabState>, slablist: seq<KmemSlab>, full: seq<KmemSlab>,
                         buflist: seq<Bufctl>, headers: map<int, KmemSlab>)

  ghost predicate DistinctSlabs(s: seq<KmemSlab>) {
    forall i, j :: 0 <= i < j < |s| ==> s[i] != s[j]
  }

  ghost predicate SlabOk(g: Geometry, c: State, s: KmemSlab)
    requires Sound(g) && s in c.slabs
  {
    var v := c.slabs[s];
    && g.cap > 0 && s.start % PAGE == 0 && s.large == (g.chunk > SMALL_MAX)
    && Distinct(v.freelist) && v.refcnt + |v.freelist| == g.cap
    && (forall a :: a in v.freelist ==> IsChunk(g, s.start, a))
    && (!s.large ==> s.start + PAGE - HEADER in c.headers && c.headers[s.start + PAGE - HEADER] == s)
    && (s in c.full <==> v.refcnt == g.cap)
    && (s in c.slablist <==> v.refcnt < g.cap)
  }

  ghost predicate Apart(g: Geometry, s: nat, t: nat) {
    s + g.pages * PAGE <= t || t + g.pages * PAGE <= s
  }

  /** An object handed out by the slab. */
  ghost predicate Out(g: Geometry, c: State, s: KmemSlab, a: nat)
    requires Sound(g)
  {
    s in c.slabs && IsChunk(g, s.start, a) && a !in c.slabs[s].freelist
  }

  /** The large chunks handed out are those with a descriptor in use. */
  ghost predicate BuflistOk(g: Geometry, c: State)
    requires Sound(g)
  {
    && (forall i :: 0 <= i < |c.buflist| ==> Out(g, c, c.buflist[i].slab, c.buflist[i].chunk))
    && (forall i, j :: 0 <= i < j < |c.buflist| ==> c.buflist[i] != c.buflist[j])
    && (forall s, a :: s in c.slabs && Out(g, c, s, a) ==> Bufctl(a, s) in c.buflist)
  }

  ghost predicate Ok(g: Geometry, c: State) {
    && Sound(g)
    && (forall s :: s in c.slablist ==> s in c.slabs) && (forall s :: s in c.full ==> s in c.slabs)
    && DistinctSlabs(c.slablist) && DistinctSlabs(c.full)
    && (forall s :: s in c.slabs ==> SlabOk(g, c, s))
    && (forall s, t :: s in c.slabs && t in c.slabs && s != t ==> Apart(g, s.start, t.start))
    && (g.chunk > SMALL_MAX ==> BuflistOk(g, c))
  }

  /** The objects that are out. */
  ghost predicate Live(g: Geometry, c: State, a: nat)
    requires Sound(g)
  {
    exists s :: s in c.slabs && Out(g, c, s, a)
  }

  /** A chunk belongs to one slab only. */
  lemma {:induction false} OneOwner(g: Geometry, s: nat, t: nat, a: nat)
    requires Sound(g) && IsChunk(g, s, a) && IsChunk(g, t, a)
    ensures !Apart(g, s, t)
  {
  }

  /** Objects that are out do not overlap, are aligned if pages are, and stay clear of every header. */
  lemma {:induction false} LiveObjects(g: Geometry, c: State, a: nat, b: nat, s: KmemSlab)
    requires Ok(g, c) && Live(g, c, a) && Live(g, c, b) && s in c.slabs
    ensures a != b ==> a + g.chunk <= b || b + g.chunk <= a
    ensures PAGE % g.align == 0 ==> a % g.align == 0
    ensures !s.large ==> a + g.chunk <= s.start + PAGE - HEADER || s.start + PAGE <= a
  {
    hide Distinct, BuflistOk;
    var sa :| sa in c.slabs && Out(g, c, sa, a);
    var sb :| sb in c.slabs && Out(g, c, sb, b);
    assert SlabOk(g, c, sa) && SlabOk(g, c, sb) && SlabOk(g, c, s);
    if sa == sb {
      if a < b {
        ChunksApart(g, sa.start, a, b);
      } else if b < a {
        ChunksApart(g, sa.start, b, a);
      }
    } else {
      assert Apart(g, sa.start, sb.start);
    }
    if PAGE % g.align == 0 {
      ChunkAligned(g, sa.start, a);
    }
    assert sa == s || Apart(g, sa.start, s.start);
  }

  /** Nothing is out exactly if no slab has references. */
  lemma {:induction false} IdleIff(g: Geometry, c: State)
    requires Ok(g, c)
    ensures (forall a :: !Live(g, c, a)) <==> (forall s :: s in c.slabs ==> c.slabs[s].refcnt == 0)
  {
    hide BuflistOk, IsChunk, Distinct;
    forall s | s in c.slabs ensures c.slabs[s].refcnt == 0 <==> forall a :: !Out(g, c, s, a) {
      SlabIdleIff(g, c, s);
    }
    if forall s :: s in c.slabs ==> c.slabs[s].refcnt == 0 {
      forall a ensures !Live(g, c, a) { }
    } else {
      var s :| s in c.slabs && c.slabs[s].refcnt != 0;
      var a :| Out(g, c, s, a);
      assert Live(g, c, a);
    }
  }

  lemma {:induction false} SlabIdleIff(g: Geometry, c: State, s: KmemSlab)
    requires Ok(g, c) && s in c.slabs
    ensures c.slabs[s].refcnt == 0 <==> forall a :: !Out(g, c, s, a)
  {
    hide BuflistOk, IsChunk, Distinct;
    assert SlabOk(g, c, s);
    FullFreelist(g, s.start, c.slabs[s].freelist);
    if c.slabs[s].refcnt != 0 {
      var a: nat :| IsChunk(g, s.start, a) && a !in c.slabs[s].freelist;
      assert Out(g, c, s, a);
    }
  }

  // ---------------------------------------------------------------------------
  // A new slab

  ghost predicate Unused(g: Geometry, c: State, start: nat) {
    forall s :: s in c.slabs ==> Apart(g, start, s.start)
  }

  ghost function Grown(c: State, sp: KmemSlab, free: seq<nat>): State {
    c.(slabs := c.slabs[sp := SlabState(0, free)], slablist := [sp] + c.slablist,
       headers := if sp.large then c.headers else c.headers[sp.start + PAGE - HEADER := sp])
  }

  lemma {:induction false} GrownOk(g: Geometry, c: State, sp: KmemSlab, free: seq<nat>)
    requires Ok(g, c) && Unused(g, c, sp.start) && g.cap > 0 && sp !in c.slabs
    requires sp.start % PAGE == 0 && sp.large == (g.chunk > SMALL_MAX)
    requires Distinct(free) && |free| == g.cap && forall a: nat :: a in free <==> IsChunk(g, sp.start, a)
    ensures Ok(g, Grown(c, sp, free))
    ensures forall a :: Live(g, Grown(c, sp, free), a) <==> Live(g, c, a)
  {
    hide IsChunk, Distinct, SlabOk;
    var d := Grown(c, sp, free);
    assert forall s :: s in d.slablist <==> s == sp || s in c.slablist;
    forall s | s in d.slabs ensures SlabOk(g, d, s) {
      GrownSlab(g, c, sp, free, s);
    }
    forall s, a ensures Out(g, d, s, a) <==> Out(g, c, s, a) { }
    forall a ensures Live(g, d, a) <==> Live(g, c, a) {
      SameLive(g, c, d, a);
    }
  }

  lemma {:induction false} GrownSlab(g: Geometry, c: State, sp: KmemSlab, free: seq<nat>, s: KmemSlab)
    requires Ok(g, c) && Unused(g, c, sp.start) && g.cap > 0 && sp !in c.slabs && s in Grown(c, sp, free).slabs
    requires sp.start % PAGE == 0 && sp.large == (g.chunk > SMALL_MAX)
    requires Distinct(free) && |free| == g.cap && forall a: nat :: a in free <==> IsChunk(g, sp.start, a)
    ensures SlabOk(g, Grown(c, sp, free), s)
  {
    hide IsChunk, Distinct, BuflistOk, DistinctSlabs;
    if s != sp {
      assert SlabOk(g, c, s) && Apart(g, sp.start, s.start);
    }
  }

  lemma {:induction false} SameLive(g: Geometry, c: State, d: State, a: nat)
    requires Sound(g) && forall s :: Out(g, d, s, a) <==> Out(g, c, s, a)
    ensures Live(g, d, a) <==> Live(g, c, a)
  {
    hide IsChunk;
    if Live(g, c, a) {
      var s :| s in c.slabs && Out(g, c, s, a);
      assert Out(g, d, s, a);
    }
    if Live(g, d, a) {
      var s :| s in d.slabs && Out(g, d, s, a);
      assert Out(g, c, s, a);
    }
  }

  // ---------------------------------------------------------------------------
  // One chunk out

  /** `slab_alloc`. */
  ghost function Taken(g: Geometry, c: State, sp: KmemSlab): State
    requires sp in c.slabs && c.slabs[sp].freelist != []
  {
    var v := c.slabs[sp];
    var c1 := c.(slabs := c.slabs[sp := SlabState(v.refcnt + 1, v.freelist[1..])]);
    var c2 := if v.refcnt + 1 == g.cap then c1.(slablist := Drop(c.slablist, sp), full := [sp] + c.full) else c1;
    if sp.large then c2.(buflist := [Bufctl(v.freelist[0], sp)] + c.buflist) else c2
  }

  /** The members of one list are those of another without `x`, or with it. */
  ghost predicate Less(d: seq<KmemSlab>, c: seq<KmemSlab>, x: KmemSlab) {
    (forall s :: s in d ==> s in c && s != x) && (forall s :: s in c && s != x ==> s in d)
  }

  ghost predicate More(d: seq<KmemSlab>, c: seq<KmemSlab>, x: KmemSlab) {
    x in d && (forall s :: s in d ==> s in c || s == x) && (forall s :: s in c ==> s in d)
  }

  /** A list without one of its members. */
  function Drop(s: seq<KmemSlab>, x: KmemSlab): seq<KmemSlab> {
    if s == [] then [] else if s[0] == x then s[1..] else [s[0]] + Drop(s[1..], x)
  }

  lemma {:induction false} DropSpec(s: seq<KmemSlab>, x: KmemSlab)
    requires DistinctSlabs(s)
    ensures DistinctSlabs(Drop(s, x)) && Less(Drop(s, x), s, x)
  {
    if s != [] {
      var t := s[1..];
      assert forall i :: 0 <= i < |t| ==> t[i] == s[i + 1];
      assert s == [s[0]] + t;
      assert s[0] !in t;
      if s[0] != x {
        DropSpec(t, x);
      }
    }
  }

  lemma {:induction false} HeadOff(s: seq<nat>)
    requires Distinct(s) && s != []
    ensures Distinct(s[1..]) && forall a :: a in s[1..] <==> a in s && a != s[0]
  {
    assert s == [s[0]] + s[1..];
  }

  lemma {:induction false} TakenOk(g: Geometry, c: State, sp: KmemSlab)
    requires Ok(g, c) && sp in c.slablist && c.slabs[sp].freelist != []
    ensures Ok(g, Taken(g, c, sp)) && IsChunk(g, sp.start, c.slabs[sp].freelist[0])
    ensures !Live(g, c, c.slabs[sp].freelist[0])
    ensures forall a :: Live(g, Taken(g, c, sp), a) <==> Live(g, c, a) || a == c.slabs[sp].freelist[0]
  {
    hide IsChunk, Distinct, DistinctSlabs, BuflistOk, Drop, SlabOk, Out, Live;
    var d, obj := Taken(g, c, sp), c.slabs[sp].freelist[0];
    TakenLists(g, c, sp);
    forall s | s in d.slabs ensures SlabOk(g, d, s) {
      TakenSlab(g, c, sp, s);
    }
    if g.chunk > SMALL_MAX {
      TakenBufs(g, c, sp);
    }
    TakenOut(g, c, sp);
    forall a ensures Live(g, d, a) <==> Live(g, c, a) || a == obj {
      TakenLive(g, c, d, sp, a, obj);
    }
    NotOut(g, c, sp, obj);
    assert IsChunk(g, sp.start, obj) by { FreeChunk(g, c, sp, obj); }
  }

  lemma {:induction false} FreeChunk(g: Geometry, c: State, sp: KmemSlab, a: nat)
    requires Ok(g, c) && sp in c.slabs && a in c.slabs[sp].freelist
    ensures IsChunk(g, sp.start, a)
  {
    assert SlabOk(g, c, sp);
  }

  lemma {:induction false} TakenLists(g: Geometry, c: State, sp: KmemSlab)
    requires Ok(g, c) && sp in c.slablist && c.slabs[sp].freelist != []
    ensures var d := Taken(g, c, sp);
            && DistinctSlabs(d.slablist) && DistinctSlabs(d.full)
            && if c.slabs[sp].refcnt + 1 == g.cap then Less(d.slablist, c.slablist, sp) && More(d.full, c.full, sp)
               else d.slablist == c.slablist && d.full == c.full
  {
    hide IsChunk, Distinct, DistinctSlabs, BuflistOk, Drop;
    assert SlabOk(g, c, sp);
    DropSpec(c.slablist, sp);
    Fronted(c.full, sp);
  }

  lemma {:induction false} TakenSlab(g: Geometry, c: State, sp: KmemSlab, s: KmemSlab)
    requires Ok(g, c) && sp in c.slablist && c.slabs[sp].freelist != [] && s in c.slabs
    ensures SlabOk(g, Taken(g, c, sp), s)
  {
    hide IsChunk, Distinct, DistinctSlabs, BuflistOk, Drop;
    assert SlabOk(g, c, sp) && SlabOk(g, c, s);
    TakenLists(g, c, sp);
    HeadOff(c.slabs[sp].freelist);
  }

  lemma {:induction false} Fronted(s: seq<KmemSlab>, x: KmemSlab)
    requires DistinctSlabs(s) && x !in s
    ensures DistinctSlabs([x] + s) && More([x] + s, s, x)
  {
  }

  lemma {:induction false} TakenOut(g: Geometry, c: State, sp: KmemSlab)
    requires Ok(g, c) && sp in c.slabs && c.slabs[sp].freelist != []
    ensures forall s, a :: Out(g, Taken(g, c, sp), s, a) <==> Out(g, c, s, a) || (s == sp && a == c.slabs[sp].freelist[0])
  {
    hide IsChunk, Distinct, DistinctSlabs, BuflistOk, Drop;
    assert SlabOk(g, c, sp);
    HeadOff(c.slabs[sp].freelist);
  }

  lemma {:induction false} TakenBufs(g: Geometry, c: State, sp: KmemSlab)
    requires Ok(g, c) && sp in c.slabs && c.slabs[sp].freelist != [] && g.chunk > SMALL_MAX
    ensures BuflistOk(g, Taken(g, c, sp))
  {
    hide IsChunk, Distinct, DistinctSlabs, Drop, Out;
    var d, obj := Taken(g, c, sp), c.slabs[sp].freelist[0];
    TakenOut(g, c, sp);
    assert SlabOk(g, c, sp);
    NotOutHere(g, c, sp, obj);
    assert d.buflist == [Bufctl(obj, sp)] + c.buflist;
    assert Bufctl(obj, sp) !in c.buflist;
    forall i | 0 <= i < |d.buflist| ensures Out(g, d, d.buflist[i].slab, d.buflist[i].chunk) {
      if i > 0 {
        assert d.buflist[i] == c.buflist[i - 1];
      }
    }
  }

  lemma {:induction false} NotOutHere(g: Geometry, c: State, sp: KmemSlab, a: nat)
    requires Sound(g) && sp in c.slabs && a in c.slabs[sp].freelist
    ensures !Out(g, c, sp, a)
  {
  }

  lemma {:induction false} NotOut(g: Geometry, c: State, sp: KmemSlab, a: nat)
    requires Ok(g, c) && sp in c.slabs && a in c.slabs[sp].freelist
    ensures !Live(g, c, a)
  {
    hide Distinct, BuflistOk, DistinctSlabs, IsChunk;
    assert SlabOk(g, c, sp);
    if Live(g, c, a) {
      var s :| s in c.slabs && Out(g, c, s, a);
      OneOwner(g, s.start, sp.start, a);
      assert false;
    }
  }

  lemma {:induction false} TakenLive(g: Geometry, c: State, d: State, sp: KmemSlab, a: nat, obj: nat)
    requires Sound(g) && sp in d.slabs
    requires forall s, b :: Out(g, d, s, b) <==> Out(g, c, s, b) || (s == sp && b == obj)
    ensures Live(g, d, a) <==> Live(g, c, a) || a == obj
  {
    hide IsChunk;
    if Live(g, d, a) {
      var s :| s in d.slabs && Out(g, d, s, a);
      assert Out(g, c, s, a) || a == obj;
    }
    if Live(g, c, a) {
      var s :| s in c.slabs && Out(g, c, s, a);
      assert Out(g, d, s, a);
    }
    if a == obj {
      assert Out(g, d, sp, a);
    }
  }

  // ---------------------------------------------------------------------------
  // One chunk back

  /** `slab_free`; `i` is the position of the chunk's descriptor, if it has one. */
  ghost function Given(g: Geometry, c: State, sp: KmemSlab, a: nat, i: nat): State
    requires sp in c.slabs && c.slabs[sp].refcnt > 0 && (sp.large ==> i < |c.buflist|)
  {
    var v := c.slabs[sp];
    var c1 := c.(slabs := c.slabs[sp := SlabState(v.refcnt - 1, [a] + v.freelist)]);
    var c2 := if v.refcnt == g.cap then c1.(full := Drop(c.full, sp), slablist := [sp] + c.slablist) else c1;
    if sp.large then c2.(buflist := Cut(c.buflist, i)) else c2
  }

  ghost predicate Givable(g: Geometry, c: State, sp: KmemSlab, a: nat, i: nat) {
    && Ok(g, c) && sp in c.slabs && Out(g, c, sp, a)
    && (sp.large ==> i < |c.buflist| && c.buflist[i] == Bufctl(a, sp))
  }

  lemma {:induction false} Referenced(g: Geometry, c: State, sp: KmemSlab, a: nat)
    requires Ok(g, c) && sp in c.slabs && Out(g, c, sp, a)
    ensures 0 < c.slabs[sp].refcnt <= g.cap
  {
    hide IsChunk, Distinct, DistinctSlabs, BuflistOk;
    SlabIdleIff(g, c, sp);
    assert SlabOk(g, c, sp);
  }

  lemma {:induction false} GivenOk(g: Geometry, c: State, sp: KmemSlab, a: nat, i: nat)
    requires Givable(g, c, sp, a, i)
    ensures c.slabs[sp].refcnt > 0 && Ok(g, Given(g, c, sp, a, i))
    ensures forall b :: Live(g, Given(g, c, sp, a, i), b) <==> Live(g, c, b) && b != a
  {
    hide IsChunk, Distinct, DistinctSlabs, BuflistOk, Drop, SlabOk, Out, Live;
    Referenced(g, c, sp, a);
    var d := Given(g, c, sp, a, i);
    GivenLists(g, c, sp, a, i);
    forall s | s in d.slabs ensures SlabOk(g, d, s) {
      GivenSlab(g, c, sp, a, i, s);
    }
    if g.chunk > SMALL_MAX {
      GivenBufs(g, c, sp, a, i);
    }
    GivenOut(g, c, sp, a, i);
    forall b ensures Live(g, d, b) <==> Live(g, c, b) && b != a {
      GivenLive(g, c, d, sp, a, b);
    }
  }

  lemma {:induction false} GivenLists(g: Geometry, c: State, sp: KmemSlab, a: nat, i: nat)
    requires Givable(g, c, sp, a, i) && c.slabs[sp].refcnt > 0
    ensures var d := Given(g, c, sp, a, i);
            && DistinctSlabs(d.slablist) && DistinctSlabs(d.full)
            && if c.slabs[sp].refcnt == g.cap then Less(d.full, c.full, sp) && More(d.slablist, c.slablist, sp)
               else d.slablist == c.slablist && d.full == c.full
  {
    hide IsChunk, Distinct, DistinctSlabs, BuflistOk, Drop;
    assert SlabOk(g, c, sp);
    if c.slabs[sp].refcnt == g.cap {
      DropSpec(c.full, sp);
      Fronted(c.slablist, sp);
    }
  }

  lemma {:induction false} GivenSlab(g: Geometry, c: State, sp: KmemSlab, a: nat, i: nat, s: KmemSlab)
    requires Givable(g, c, sp, a, i) && c.slabs[sp].refcnt > 0 && s in c.slabs
    ensures SlabOk(g, Given(g, c, sp, a, i), s)
  {
    hide IsChunk, DistinctSlabs, BuflistOk, Drop;
    assert SlabOk(g, c, sp) && SlabOk(g, c, s);
    GivenLists(g, c, sp, a, i);
    var free := [a] + c.slabs[sp].freelist;
    assert Distinct(free);
    assert forall b :: b in free <==> b == a || b in c.slabs[sp].freelist;
  }

  lemma {:induction false} GivenOut(g: Geometry, c: State, sp: KmemSlab, a: nat, i: nat)
    requires Givable(g, c, sp, a, i) && c.slabs[sp].refcnt > 0
    ensures forall s, b :: Out(g, Given(g, c, sp, a, i), s, b) <==> Out(g, c, s, b) && !(s == sp && b == a)
  {
    hide IsChunk, Distinct, DistinctSlabs, BuflistOk, Drop;
    var free := [a] + c.slabs[sp].freelist;
    assert forall b :: b in free <==> b == a || b in c.slabs[sp].freelist;
  }

  lemma {:induction false} GivenBufs(g: Geometry, c: State, sp: KmemSlab, a: nat, i: nat)
    requires Givable(g, c, sp, a, i) && c.slabs[sp].refcnt > 0 && g.chunk > SMALL_MAX
    ensures BuflistOk(g, Given(g, c, sp, a, i))
  {
    hide IsChunk, Distinct, DistinctSlabs, Drop, Out;
    var d := Given(g, c, sp, a, i);
    GivenOut(g, c, sp, a, i);
    assert SlabOk(g, c, sp);
    var bufs := Cut(c.buflist, i);
    CutSpec(c.buflist, i);
    forall s, b | s in d.slabs && Out(g, d, s, b) ensures Bufctl(b, s) in bufs {
      assert Bufctl(b, s) in c.buflist;
    }
  }

  /** The list without its `i`th descriptor. */
  function Cut(bufs: seq<Bufctl>, i: nat): seq<Bufctl>
    requires i < |bufs|
  {
    bufs[..i] + bufs[i + 1..]
  }

  lemma {:induction false} CutSpec(bufs: seq<Bufctl>, i: nat)
    requires i < |bufs| && forall j, k :: 0 <= j < k < |bufs| ==> bufs[j] != bufs[k]
    ensures forall j, k :: 0 <= j < k < |Cut(bufs, i)| ==> Cut(bufs, i)[j] != Cut(bufs, i)[k]
    ensures forall b :: b in Cut(bufs, i) <==> b in bufs && b != bufs[i]
  {
    var cut := Cut(bufs, i);
    assert forall j :: 0 <= j < |cut| ==> cut[j] == if j < i then bufs[j] else bufs[j + 1];
    forall b | b in bufs && b != bufs[i] ensures b in cut {
      var j :| 0 <= j < |bufs| && bufs[j] == b;
      assert cut[if j < i then j else j - 1] == b;
    }
  }

  lemma {:induction false} GivenLive(g: Geometry, c: State, d: State, sp: KmemSlab, a: nat, b: nat)
    requires Ok(g, c) && Sound(g) && sp in c.slabs && Out(g, c, sp, a) && d.slabs.Keys == c.slabs.Keys
    requires forall s, x :: Out(g, d, s, x) <==> Out(g, c, s, x) && !(s == sp && x == a)
    ensures Live(g, d, b) <==> Live(g, c, b) && b != a
  {
    hide IsChunk, SlabOk, BuflistOk, DistinctSlabs;
    if Live(g, d, b) {
      var s :| s in d.slabs && Out(g, d, s, b);
      assert Out(g, c, s, b);
      if b == a {
        OneOwner(g, s.start, sp.start, a);
        assert false;
      }
    }
    if Live(g, c, b) && b != a {
      var s :| s in c.slabs && Out(g, c, s, b);
      assert Out(g, d, s, b);
    }
  }

  // ---------------------------------------------------------------------------
  // A slab destroyed

  ghost function Destroyed(c: State, sp: KmemSlab): State {
    c.(slabs := map s | s in c.slabs && s != sp :: c.slabs[s], slablist := Drop(c.slablist, sp))
  }

  lemma {:induction false} DestroyedOk(g: Geometry, c: State, sp: KmemSlab)
    requires Ok(g, c) && sp in c.slablist && c.slabs[sp].refcnt == 0
    ensures Ok(g, Destroyed(c, sp)) && forall a :: Live(g, Destroyed(c, sp), a) <==> Live(g, c, a)
  {
    hide IsChunk, Distinct, DistinctSlabs, Drop;
    var d := Destroyed(c, sp);
    assert SlabOk(g, c, sp);
    DropSpec(c.slablist, sp);
    SlabIdleIff(g, c, sp);
    forall s | s in d.slabs ensures SlabOk(g, d, s) {
      assert SlabOk(g, c, s);
    }
    forall s, a ensures Out(g, d, s, a) <==> Out(g, c, s, a) { }
    forall a ensures Live(g, d, a) <==> Live(g, c, a) {
      SameLive(g, c, d, a);
    }
  }

  // ---------------------------------------------------------------------------
  // The cache

  /** A slab is on the first list exactly if it has a free chunk. */
  lemma {:induction false} ListedIff(g: Geometry, c: State)
    requires Ok(g, c)
    ensures c.slablist != [] <==> exists s :: s in c.slabs && c.slabs[s].refcnt < g.cap
    ensures c.slablist != [] ==> c.slablist[0] in c.slabs && c.slabs[c.slablist[0]].freelist != []
    ensures forall s :: s in c.slabs ==> c.slabs[s].refcnt <= g.cap
  {
    hide IsChunk, BuflistOk, Distinct, DistinctSlabs;
    forall s | s in c.slabs ensures c.slabs[s].refcnt <= g.cap && (s in c.slablist <==> c.slabs[s].refcnt < g.cap) {
      assert SlabOk(g, c, s);
    }
    if c.slablist != [] {
      assert c.slablist[0] in c.slablist;
      assert SlabOk(g, c, c.slablist[0]);
    }
  }

  /** Objects have the alignment that was asked for. */
  lemma {:induction false} LiveAligned(g: Geometry, c: State, a: nat, align: nat)
    requires Ok(g, c) && Live(g, c, a) && align > 0 && g.align % align == 0 && PAGE % g.align == 0
    ensures a % align == 0
  {
    hide Ok, Live;
    SomeSlab(g, c, a);
    var s :| s in c.slabs && Out(g, c, s, a);
    LiveObjects(g, c, a, a, s);
    MultipleTransitive(a, g.align, align);
  }

  lemma {:induction false} SomeSlab(g: Geometry, c: State, a: nat)
    requires Ok(g, c) && Live(g, c, a)
    ensures Sound(g) && exists s :: s in c.slabs && Out(g, c, s, a)
  {
  }

  class Cache {
    const g: Geometry
    var slablist: seq<KmemSlab>
    var full: seq<KmemSlab>
    var buflist: seq<Bufctl>
    var headers: map<int, KmemSlab>
    ghost var state: State

    ghost predicate Valid()
      reads this, state.slabs.Keys
    {
      && Ok(g, state)
      && state.slablist == slablist && state.full == full && state.buflist == buflist && state.headers == headers
      && (forall s :: s in state.slabs ==> state.slabs[s] == SlabState(s.refcnt, s.freelist))
    }

    /** `kmem_cache_create`, with the descriptor list taken to be empty. */
    constructor (g: Geometry)
      requires Sound(g)
      ensures Valid() && this.g == g && state.slabs == map[] && forall a :: !Live(g, state, a)
    {
      this.g := g;
      slablist, full, buflist, headers := [], [], [], map[];
      state := State(map[], [], [], [], map[]);
    }

    /** `small_slab_create` and `large_slab_create`: all chunks go onto the free list, the last one first. */
    method NewSlab(start: nat) returns (sp: KmemSlab)
      requires Sound(g)
      ensures fresh(sp) && sp.start == start && sp.large == (g.chunk > SMALL_MAX) && sp.refcnt == 0
      ensures |sp.freelist| == g.cap && Distinct(sp.freelist)
      ensures forall a: nat :: a in sp.freelist <==> IsChunk(g, start, a)
    {
      sp := new KmemSlab(start, g.chunk > SMALL_MAX);
      var i := 0;
      while i < g.cap
        invariant i <= g.cap && |sp.freelist| == i && Distinct(sp.freelist) && sp.refcnt == 0
        invariant Elements(sp.freelist) == Chunks(start, g.chunk, i)
        modifies sp
      {
        ChunkMember(start, g.chunk, i, start + i * g.chunk);
        assert start + i * g.chunk !in Elements(sp.freelist);
        var a := start + i * g.chunk;
        assert Elements([a] + sp.freelist) == Elements(sp.freelist) + {a};
        sp.freelist := [a] + sp.freelist;
        i := i + 1;
      }
      ChunksAre(g, start);
      assert forall a: nat :: a in sp.freelist <==> a in Elements(sp.freelist);
    }

    /** `kmem_cache_alloc`; `start` is what `vm_kalloc` returns if it is asked for pages. */
    method Alloc(start: nat) returns (obj: nat)
      requires Valid() && g.cap > 0
      requires slablist == [] ==> start % PAGE == 0 && Unused(g, state, start)
      modifies this, state.slabs.Keys
      ensures Valid() && fresh(state.slabs.Keys - old(state.slabs.Keys))
      ensures !old(Live(g, state, obj))
      ensures forall a :: Live(g, state, a) <==> old(Live(g, state, a)) || a == obj
      ensures (exists s :: s in old(state.slabs) && old(state.slabs)[s].refcnt < g.cap) ==> state.slabs.Keys == old(state.slabs.Keys)
      ensures (forall s :: s in old(state.slabs) ==> old(state.slabs)[s].refcnt == g.cap) ==>
                exists sp :: sp !in old(state.slabs) && sp.start == start && state.slabs.Keys == old(state.slabs.Keys) + {sp}
      ensures old(slablist) != [] ==> |old(slablist[0].freelist)| > 0 && obj == old(slablist[0].freelist)[0]
    {
      hide Ok, Live, IsChunk, Distinct, Unused;
      ListedIff(g, state);
      if slablist == [] {
        Grow(start);
      }
      var sp := slablist[0];
      HasFree(g, state, sp);
      ghost var c := state;
      TakenOk(g, c, sp);
      obj := SlabAlloc(sp);
    }

    method Grow(start: nat)
      requires Valid() && g.cap > 0 && slablist == [] && start % PAGE == 0 && Unused(g, state, start)
      modifies this
      ensures Valid() && slablist != [] && fresh(state.slabs.Keys - old(state.slabs.Keys))
      ensures exists sp :: sp !in old(state.slabs) && sp.start == start && state.slabs.Keys == old(state.slabs.Keys) + {sp}
      ensures forall a :: Live(g, state, a) <==> old(Live(g, state, a))
    {
      hide Ok, Live, IsChunk, Distinct, Unused;
      SoundOf(g, state);
      ghost var keys := state.slabs.Keys;
      var slab := NewSlab(start);
      assert slab !in keys;
      GrownOk(g, state, slab, slab.freelist);
      slablist := [slab] + slablist;
      if !slab.large {
        headers := headers[start + PAGE - HEADER := slab];
      }
      state := Grown(state, slab, slab.freelist);
    }

    /** `slab_alloc`. */
    method SlabAlloc(sp: KmemSlab) returns (obj: nat)
      requires Valid() && sp in slablist && sp in state.slabs && sp.freelist != [] && Ok(g, Taken(g, state, sp))
      modifies this, sp
      ensures state == Taken(g, old(state), sp) && Valid() && obj == old(sp.freelist[0])
    {
      hide Ok;
      var bufctl := sp.freelist[0];
      ghost var c := state;
      sp.freelist := sp.freelist[1..];
      sp.refcnt := sp.refcnt + 1;
      if sp.refcnt == g.cap {
        slablist := Drop(slablist, sp);
        full := [sp] + full;
      }
      if sp.large {
        buflist := [Bufctl(bufctl, sp)] + buflist;
      }
      state := Taken(g, c, sp);
      obj := bufctl;
    }

    /** The descriptor of a large object, as `kmem_cache_free` searches for it. */
    method FindBufctl(obj: nat) returns (i: nat)
      requires Valid() && g.chunk > SMALL_MAX && Live(g, state, obj)
      ensures i < |buflist| && buflist[i].chunk == obj && Givable(g, state, buflist[i].slab, obj, i)
    {
      HasBufctl(g, state, obj);
      i := 0;
      while i < |buflist|
        invariant i <= |buflist| && exists j :: i <= j < |buflist| && buflist[j].chunk == obj
      {
        if buflist[i].chunk == obj {
          break;
        }
        i := i + 1;
      }
      assert Out(g, state, buflist[i].slab, buflist[i].chunk);
    }

    /** `slab_free`. */
    method SlabFree(sp: KmemSlab, obj: nat, i: nat)
      requires Valid() && Givable(g, state, sp, obj, i) && sp.refcnt > 0 && Ok(g, Given(g, state, sp, obj, i))
      modifies this, sp
      ensures state == Given(g, old(state), sp, obj, i) && Valid()
    {
      hide Ok, IsChunk;
      ghost var c := state;
      if sp.refcnt == g.cap {
        full := Drop(full, sp);
        slablist := [sp] + slablist;
      }
      sp.refcnt := sp.refcnt - 1;
      if sp.large {
        buflist := Cut(buflist, i);
      }
      sp.freelist := [obj] + sp.freelist;
      state := Given(g, c, sp, obj, i);
    }

    /** `kmem_cache_free` of an object that is out. */
    method Free(obj: nat)
      requires Valid() && Live(g, state, obj)
      modifies this, state.slabs.Keys
      ensures Valid() && state.slabs.Keys == old(state.slabs.Keys)
      ensures forall a :: Live(g, state, a) <==> old(Live(g, state, a)) && a != obj
      ensures exists sp :: sp in old(state.slabs) && sp in state.slabs
                && state.slabs[sp].freelist == [obj] + old(state.slabs)[sp].freelist
                && slablist == (if old(state.slabs)[sp].refcnt == g.cap then [sp] else []) + old(slablist)
    {
      hide Ok, Live, IsChunk;
      var sp, i;
      if g.chunk <= SMALL_MAX {
        HeaderThere(g, state, obj);
        sp, i := headers[HeaderOf(obj)], 0;
      } else {
        i := FindBufctl(obj);
        sp := buflist[i].slab;
      }
      ghost var c := state;
      GivenOk(g, c, sp, obj, i);
      SlabFree(sp, obj, i);
    }

    /** `kmem_cache_destroy`: 0 exactly if nothing is out. The pages of the slabs that went are given back. */
    method Destroy() returns (status: int, given: seq<nat>)
      requires Valid()
      modifies this
      ensures Valid() && Shrunk(g, old(state), state, given)
      ensures status == 0 <==> forall a :: !Live(g, old(state), a)
      ensures status == 0 ==> state.slabs == map[]
    {
      hide Ok, Live, Shrunk, Drop;
      given := [];
      NotShrunk(g, state);
      IdleIff(g, state);
      if full != [] {
        Busy(g, state, full[0]);
        return -1, given;
      }
      ghost var c0 := state;
      while slablist != []
        invariant Valid() && full == [] && Shrunk(g, c0, state, given)
        decreases |slablist|
      {
        var sp := slablist[0];
        ghost var c := state;
        HasFree(g, c, sp);
        if sp.refcnt != 0 {
          StillBusy(g, c0, c, given, sp);
          return -1, given;
        }
        DestroyedOk(g, c, sp);
        ShrunkMore(g, c0, c, given, sp);
        DropHead(slablist);
        slablist := Drop(slablist, sp);
        state := Destroyed(c, sp);
        given := given + [sp.start];
      }
      NoSlabs(g, state);
      AllGone(g, c0, state, given);
      status := 0;
    }
  }

  /** Slabs without references went, the others are as they were, and what is out is still out. */
  ghost predicate Shrunk(g: Geometry, c0: State, c: State, given: seq<nat>)
    requires Sound(g)
  {
    && (forall s :: s in c.slabs ==> s in c0.slabs && c.slabs[s] == c0.slabs[s])
    && (forall s :: s in c0.slabs && s !in c.slabs ==> c0.slabs[s].refcnt == 0 && s.start in given)
    && (forall p :: p in given ==> exists s :: s in c0.slabs && s !in c.slabs && s.start == p)
    && (forall a :: Live(g, c, a) <==> Live(g, c0, a))
  }

  lemma {:induction false} NotShrunk(g: Geometry, c: State)
    requires Ok(g, c)
    ensures Sound(g) && Shrunk(g, c, c, [])
  {
  }

  lemma {:induction false} ShrunkMore(g: Geometry, c0: State, c: State, given: seq<nat>, sp: KmemSlab)
    requires Sound(g) && Shrunk(g, c0, c, given) && sp in c.slabs && c.slabs[sp].refcnt == 0
    requires forall a :: Live(g, Destroyed(c, sp), a) <==> Live(g, c, a)
    ensures Shrunk(g, c0, Destroyed(c, sp), given + [sp.start])
  {
    hide Live, Drop;
    var d, more := Destroyed(c, sp), given + [sp.start];
    forall p | p in more ensures exists s :: s in c0.slabs && s !in d.slabs && s.start == p {
      if p in given {
        var s :| s in c0.slabs && s !in c.slabs && s.start == p;
        assert s !in d.slabs;
      } else {
        assert sp in c0.slabs && sp !in d.slabs;
      }
    }
  }

  lemma {:induction false} StillBusy(g: Geometry, c0: State, c: State, given: seq<nat>, sp: KmemSlab)
    requires Sound(g) && Shrunk(g, c0, c, given) && Ok(g, c) && sp in c.slablist && c.slabs[sp].refcnt != 0
    ensures sp in c0.slabs && c0.slabs[sp].refcnt != 0
  {
    hide Live, SlabOk;
  }

  lemma {:induction false} AllGone(g: Geometry, c0: State, c: State, given: seq<nat>)
    requires Sound(g) && Shrunk(g, c0, c, given) && c.slabs == map[]
    ensures forall s :: s in c0.slabs ==> c0.slabs[s].refcnt == 0
  {
    hide Live;
  }

  lemma {:induction false} DropHead(s: seq<KmemSlab>)
    requires s != []
    ensures Drop(s, s[0]) == s[1..]
  {
  }

  lemma {:induction false} SoundOf(g: Geometry, c: State)
    requires Ok(g, c)
    ensures Sound(g)
  {
  }

  /** A slab on the list has a free chunk. */
  lemma {:induction false} HasFree(g: Geometry, c: State, sp: KmemSlab)
    requires Ok(g, c) && sp in c.slablist
    ensures sp in c.slabs && c.slabs[sp].freelist != []
  {
    assert SlabOk(g, c, sp);
  }

  /** A full slab has references. */
  lemma {:induction false} Busy(g: Geometry, c: State, sp: KmemSlab)
    requires Ok(g, c) && sp in c.full
    ensures sp in c.slabs && c.slabs[sp].refcnt != 0
  {
    assert SlabOk(g, c, sp);
  }

  lemma {:induction false} NoSlabs(g: Geometry, c: State)
    requires Ok(g, c) && c.slablist == [] && c.full == []
    ensures c.slabs == map[]
  {
    assert forall s :: s in c.slabs ==> SlabOk(g, c, s);
    assert forall s :: s !in c.slabs;
  }

  lemma {:induction false} HasBufctl(g: Geometry, c: State, a: nat)
    requires Ok(g, c) && g.chunk > SMALL_MAX && Live(g, c, a)
    ensures exists i :: 0 <= i < |c.buflist| && c.buflist[i].chunk == a
  {
    var s :| s in c.slabs && Out(g, c, s, a);
    assert Bufctl(a, s) in c.buflist;
  }

  /** The header that freeing looks up is the one of the slab the object came from. */
  lemma {:induction false} HeaderThere(g: Geometry, c: State, a: nat)
    requires Ok(g, c) && g.chunk <= SMALL_MAX && Live(g, c, a)
    ensures HeaderOf(a) in c.headers && Givable(g, c, c.headers[HeaderOf(a)], a, 0)
  {
    var s :| s in c.slabs && Out(g, c, s, a);
    assert SlabOk(g, c, s);
    HeaderFound(g, s.start, a);
  }

  /** `kmem_cache_create`: null stands for the failed assertion on the slab size. */
  method Create(bufsize: nat, align: nat) returns (cp: Cache?)
    requires bufsize != 0 && (align == 0 || IsPow2(align))
    ensures cp == null <==> bufsize > SMALL_MAX && AlignUp(bufsize, if align == 0 then 16 else Max(align, 8)) > 2048
    ensures cp != null ==> fresh(cp) && cp.Valid() && bufsize <= cp.g.chunk && forall a :: !Live(cp.g, cp.state, a)
    ensures cp != null ==> cp.g.align == if align > 0 then Max(align, 8) else if bufsize > 8 then 16 else 8
    ensures cp != null ==> cp.g.align % 8 == 0 && (align > 0 ==> cp.g.align % align == 0)
  {
    hide AlignUp, IsPow2, Sound, Ok, Live;
    var g := Plan(bufsize, align);
    if g.None? {
      return null;
    }
    cp := new Cache(g.value);
  }
}
