/**
 Wired kernel memory: `allocwired` backs a stretch of kernel addresses with physical pages, and
 `freewired` finds those pages again through the page tables and gives them back.
 */
module Wired {
  import opened Sequences
  import opened Word64
  import opened Paging
  import opened PageMap
  import Pm

  /** kVmAll. */
  const WIRED_DATA := Access(true, true, false, false, false)

  /** Read and write, write-through, no execution. */
  ghost function RightsOf(space: AddressSpace): Rights {
    space.Grant(0, Writethrough, WIRED_DATA).value
  }

  /** Page `i` of the stretch is frame `frames[i]`; every other address is as before. */
  ghost predicate Backed(t: Tables, t1: Tables, va: nat, frames: seq<nat>, g: Rights)
    requires Sound(t) && Sound(t1)
  {
    forall x: nat :: x < SPACE ==>
      Where(t1, x) == if va <= x < va + |frames| * PAGE then Some(Hit(frames[(x - va) / PAGE] * PAGE + (x - va) % PAGE, g))
                      else Where(t, x)
  }

  /** The frames that were free are free, back the stretch, or became tables: one of these each, and each once. */
  ghost predicate Divided(free: seq<nat>, free1: seq<nat>, frames: seq<nat>, tables: set<nat>, tables1: set<nat>) {
    && tables <= tables1 && Distinct(frames)
    && (forall f :: f in free <==> f in free1 || f in frames || f in tables1 - tables)
    && (forall f :: f in frames ==> f !in free1 && f !in tables1)
    && (forall f :: f in free1 ==> f !in tables1)
  }

  ghost predicate InUse(frames: seq<nat>, usage: map<nat, Pm.Usage>) {
    forall f :: f in frames ==> f in usage && usage[f] == Pm.Wired
  }

  lemma {:induction false} NotDivided(pm: seq<nat>, tables: set<nat>)
    requires forall f :: f in pm ==> f !in tables
    ensures Divided(pm, pm, [], tables, tables)
  {
  }

  /** One more frame for the stretch. */
  lemma {:induction false} DividedData(free: seq<nat>, free1: seq<nat>, frames: seq<nat>, tables: set<nat>, tables1: set<nat>)
    requires Divided(free, free1, frames, tables, tables1) && Distinct(free1) && free1 != []
    ensures Divided(free, free1[1..], frames + [free1[0]], tables, tables1)
  {
    Pm.HeadOff(free1);
    var more := frames + [free1[0]];
    assert free1[0] in free1;
    assert forall f :: f in more <==> f in frames || f == free1[0];
  }

  /** Frames that became tables on the way. */
  lemma {:induction false} DividedTables(free: seq<nat>, free1: seq<nat>, free2: seq<nat>, frames: seq<nat>, tables: set<nat>,
                                         tables1: set<nat>, tables2: set<nat>, usage: map<nat, Pm.Usage>, usage1: map<nat, Pm.Usage>)
    requires Divided(free, free1, frames, tables, tables1) && Distinct(free1) && InUse(frames, usage)
    requires Took(free1, free2, tables1, tables2, usage, usage1)
    ensures Divided(free, free2, frames, tables, tables2) && InUse(frames, usage1)
  {
    hide Distinct;
    var n := |free1| - |free2|;
    Apart(free1, n);
  }

  lemma {:induction false} Apart(s: seq<nat>, n: nat)
    requires Distinct(s) && n <= |s|
    ensures forall f :: f in s <==> f in s[..n] || f in s[n..]
    ensures forall f :: f in s[..n] ==> f !in s[n..]
  {
    assert s == s[..n] + s[n..];
  }

  lemma {:induction false} NotBacked(t: Tables, va: nat, g: Rights)
    requires Sound(t)
    ensures Backed(t, t, va, [], g)
  {
  }

  lemma {:induction false} BackedMore(t: Tables, t1: Tables, t2: Tables, va: nat, frames: seq<nat>, f: nat, g: Rights)
    requires Sound(t) && Sound(t1) && Sound(t2) && Backed(t, t1, va, frames, g)
    requires Mapped(t1, t2, va + |frames| * PAGE, PAGE, f * PAGE, Some(g))
    ensures Backed(t, t2, va, frames + [f], g)
  {
    hide Where;
    var more, end := frames + [f], va + |frames| * PAGE;
    forall x: nat | x < SPACE
      ensures Where(t2, x) == if va <= x < va + |more| * PAGE then Some(Hit(more[(x - va) / PAGE] * PAGE + (x - va) % PAGE, g))
                              else Where(t, x)
    {
      if end <= x < end + PAGE {
        assert (x - va) / PAGE == |frames| && (x - va) % PAGE == x - end;
      } else if va <= x < end {
        assert (x - va) / PAGE < |frames|;
      }
    }
  }

  lemma {:induction false} PageAddress(f: nat, va: nat, i: nat)
    requires va % PAGE == 0
    ensures AlignDown(f * PAGE, PAGE) == f * PAGE && AlignDown(va + i * PAGE, PAGE) == va + i * PAGE
  {
  }

  /** The kernel's pages ahead are free of large mappings still. */
  lemma {:induction false} AheadClear(t: Tables, t1: Tables, start: nat, size: nat, x: nat)
    requires Sound(t) && Sound(t1) && LargeIn(t, t1, start, size, 0) && x < SPACE && IsClear(t, x, 0)
    ensures IsClear(t1, x, 0)
  {
    hide IsClear;
  }

  /** `allocwired` on the `n` pages at `va` that the arena handed out. False stands for running out of frames. */
  method AllocWired(space: AddressSpace, va: nat, n: nat) returns (ok: bool, ghost frames: seq<nat>)
    requires space.Valid() && va % PAGE == 0 && va + n * PAGE <= SPACE
    requires forall x: nat :: va <= x < va + n * PAGE ==> IsClear(space.Now(), x, 0)
    modifies space, space.pm
    ensures space.Valid() && (old(space.pm.Accounted()) ==> space.pm.Accounted())
    ensures ok ==> |frames| == n && Backed(old(space.Now()), space.Now(), va, frames, RightsOf(space))
    ensures var g := RightsOf(space); g.write && !g.user && !g.global_ && g.noExecute == space.nx && PatIndex(g) == 1
    ensures LargeIn(old(space.Now()), space.Now(), va, n * PAGE, 0)
    ensures ok ==> Divided(old(space.pm.freelist), space.pm.freelist, frames, old(space.cover.Keys), space.cover.Keys)
                   && InUse(frames, space.pm.usage)
  {
    hide Translate, NoLarge, AllTables, Mapped, LargeIn, Backed, Divided, InUse, Took, AlignDown, Pm.PagesOk,
         Pm.PhysicalMemory.Accounted;
    ghost var t, free, tables := space.Now(), space.pm.freelist, space.cover.Keys;
    frames := [];
    Start(space, va);
    ok := true;
    var i := 0;
    while i < n
      invariant i <= n && ok && space.Valid() && |frames| == i && (old(space.pm.Accounted()) ==> space.pm.Accounted())
      invariant Backed(t, space.Now(), va, frames, RightsOf(space)) && LargeIn(t, space.Now(), va, i * PAGE, 0)
      invariant Divided(free, space.pm.freelist, frames, tables, space.cover.Keys) && InUse(frames, space.pm.usage)
    {
      ok, frames := OneMore(space, va, n, i, t, free, tables, frames);
      if !ok {
        return;
      }
      i := i + 1;
    }
  }

  lemma {:induction false} Start(space: AddressSpace, va: nat)
    requires space.Valid()
    ensures Divided(space.pm.freelist, space.pm.freelist, [], space.cover.Keys, space.cover.Keys)
    ensures Backed(space.Now(), space.Now(), va, [], RightsOf(space)) && LargeIn(space.Now(), space.Now(), va, 0, 0) && InUse([], space.pm.usage)
  {
    hide Translate, NoLarge, AllTables;
    NotDivided(space.pm.freelist, space.cover.Keys);
    NotBacked(space.Now(), va, RightsOf(space));
    NothingMapped(space.Now(), va, 0, None, 0);
  }

  /** One turn of the loop in `allocwired`. */
  method OneMore(space: AddressSpace, va: nat, n: nat, i: nat, ghost t: Tables, ghost free: seq<nat>, ghost tables: set<nat>,
                 ghost frames: seq<nat>) returns (ok: bool, ghost more: seq<nat>)
    requires space.Valid() && va % PAGE == 0 && i < n && va + n * PAGE <= SPACE && Sound(t) && |frames| == i
    requires forall x: nat :: va <= x < va + n * PAGE ==> IsClear(t, x, 0)
    requires Backed(t, space.Now(), va, frames, RightsOf(space)) && LargeIn(t, space.Now(), va, i * PAGE, 0)
    requires Divided(free, space.pm.freelist, frames, tables, space.cover.Keys) && InUse(frames, space.pm.usage)
    modifies space, space.pm
    ensures space.Valid() && (old(space.pm.Accounted()) ==> space.pm.Accounted())
    ensures ok ==> Backed(t, space.Now(), va, more, RightsOf(space)) && |more| == i + 1
    ensures LargeIn(t, space.Now(), va, (i + 1) * PAGE, 0) && LargeIn(t, space.Now(), va, n * PAGE, 0)
    ensures ok ==> Divided(free, space.pm.freelist, more, tables, space.cover.Keys) && InUse(more, space.pm.usage)
  {
    hide Translate, NoLarge, AllTables, Mapped, LargeIn, Backed, Divided, Took, AlignDown, IsClear, Pm.PagesOk,
         Pm.PhysicalMemory.Accounted;
    ghost var free0, t1 := space.pm.freelist, space.Now();
    more := frames;
    LargeInMore(t, t1, va, i * PAGE, n * PAGE, 0);
    LargeInMore(t, t1, va, i * PAGE, (i + 1) * PAGE, 0);
    Listed(space.pm);
    var got := space.pm.Allocate(Pm.Wired);
    if got == None {
      return false, more;
    }
    var f := got.value;
    DividedData(free, free0, frames, tables, space.cover.Keys);
    more := frames + [f];
    assert InUse(more, space.pm.usage);
    ghost var free1, usage1, tables1 := space.pm.freelist, space.pm.usage, space.cover.Keys;
    PageAddress(f, va, i);
    forall x: nat | va + i * PAGE <= x < va + i * PAGE + PAGE ensures IsClear(space.Now(), x, 0) {
      AheadClear(t, t1, va, i * PAGE, x);
    }
    ok := space.Map(f * PAGE, va + i * PAGE, 0, Writethrough, WIRED_DATA);
    LargeInAgain(t, t1, space.Now(), va, i * PAGE, PAGE, 0);
    LargeInMore(t, space.Now(), va, (i + 1) * PAGE, n * PAGE, 0);
    if ok {
      BackedMore(t, t1, space.Now(), va, frames, f, RightsOf(space));
      DividedTables(free, free1, space.pm.freelist, more, tables, tables1, space.cover.Keys, usage1, space.pm.usage);
    }
  }

  lemma {:induction false} Listed(pm: Pm.PhysicalMemory)
    requires pm.Valid()
    ensures Distinct(pm.freelist) && (pm.freelist != [] ==> Distinct(pm.freelist[1..]))
    ensures forall f :: f in pm.freelist ==> f in pm.usage && pm.usage[f] == Pm.Free
  {
  }

  // ---------------------------------------------------------------------------
  // freewired

  /** The first `i` pages of the stretch lead nowhere, the others where they did. */
  ghost predicate Cleared(t: Tables, t1: Tables, va: nat, size: nat)
    requires Sound(t) && Sound(t1)
  {
    forall x: nat :: x < SPACE ==> Where(t1, x) == if va <= x < va + size then None else Where(t, x)
  }

  /** The stretch is backed by these frames, which are in use for it. */
  ghost predicate Wiring(t: Tables, va: nat, frames: seq<nat>)
    requires Sound(t)
  {
    forall i :: 0 <= i < |frames| ==> Where(t, va + i * PAGE).Some? && Where(t, va + i * PAGE).value.pa == frames[i] * PAGE
  }

  lemma {:induction false} BackedWiring(t: Tables, t1: Tables, va: nat, frames: seq<nat>, g: Rights)
    requires Sound(t) && Sound(t1) && Backed(t, t1, va, frames, g) && va + |frames| * PAGE <= SPACE
    ensures Wiring(t1, va, frames)
  {
    hide Where;
    forall i | 0 <= i < |frames| ensures Where(t1, va + i * PAGE).Some? && Where(t1, va + i * PAGE).value.pa == frames[i] * PAGE {
      PageIndex(i, |frames|);
      assert va + i * PAGE - va == i * PAGE;
    }
  }

  lemma {:induction false} PageIndex(i: nat, n: nat)
    requires i < n
    ensures i * PAGE / PAGE == i && i * PAGE % PAGE == 0 && i * PAGE < n * PAGE
  {
  }

  ghost predicate Unused(frames: seq<nat>, usage: map<nat, Pm.Usage>, i: nat)
    requires i <= |frames|
  {
    forall k :: i <= k < |frames| ==> frames[k] in usage && usage[frames[k]] == Pm.Wired
  }

  /** `freewired` on a stretch that `allocwired` backed. */
  method FreeWired(space: AddressSpace, va: nat, n: nat, ghost frames: seq<nat>)
    requires space.Valid() && va % PAGE == 0 && va + n * PAGE <= SPACE && |frames| == n
    requires forall x: nat :: va <= x < va + n * PAGE ==> IsClear(space.Now(), x, 0)
    requires Wiring(space.Now(), va, frames) && Distinct(frames) && InUse(frames, space.pm.usage)
    modifies space, space.pm
    ensures space.Valid() && space.cover == old(space.cover)
    ensures Cleared(old(space.Now()), space.Now(), va, n * PAGE)
    ensures space.pm.freelist == old(space.pm.freelist) + frames
    ensures old(space.pm.Accounted()) && |space.pm.freelist| < TWO64 ==> space.pm.Accounted()
  {
    hide Translate, NoLarge, AllTables, LargeIn, Cleared, Pm.PagesOk, Pm.PhysicalMemory.Accounted, Unused, Wiring;
    ghost var t, free := space.Now(), space.pm.freelist;
    Untouched(t, va, frames, space.pm.usage);
    assert free + frames[..0] == free;
    var i := 0;
    while i < n
      invariant i <= n && space.Valid() && space.cover == old(space.cover)
      invariant Cleared(t, space.Now(), va, i * PAGE) && LargeIn(t, space.Now(), va, i * PAGE, 0)
      invariant space.pm.freelist == free + frames[..i] && Unused(frames, space.pm.usage, i)
      invariant old(space.pm.Accounted()) && |free| + i < TWO64 ==> space.pm.Accounted()
    {
      OneLess(space, va, n, i, t, frames);
      assert free + frames[..i] + [frames[i]] == free + frames[..i + 1];
      i := i + 1;
    }
    assert frames[..n] == frames;
  }

  lemma {:induction false} Untouched(t: Tables, va: nat, frames: seq<nat>, usage: map<nat, Pm.Usage>)
    requires Sound(t) && InUse(frames, usage)
    ensures Cleared(t, t, va, 0) && LargeIn(t, t, va, 0, 0) && Unused(frames, usage, 0)
  {
  }

  /** One turn of the loop in `freewired`. */
  method OneLess(space: AddressSpace, va: nat, n: nat, i: nat, ghost t: Tables, ghost frames: seq<nat>)
    requires space.Valid() && va % PAGE == 0 && i < n == |frames| && va + n * PAGE <= SPACE && Sound(t)
    requires forall x: nat :: va <= x < va + n * PAGE ==> IsClear(t, x, 0)
    requires Wiring(t, va, frames) && Distinct(frames) && Unused(frames, space.pm.usage, i)
    requires Cleared(t, space.Now(), va, i * PAGE) && LargeIn(t, space.Now(), va, i * PAGE, 0)
    modifies space, space.pm
    ensures space.Valid() && space.cover == old(space.cover)
    ensures Cleared(t, space.Now(), va, (i + 1) * PAGE) && LargeIn(t, space.Now(), va, (i + 1) * PAGE, 0)
    ensures space.pm.freelist == old(space.pm.freelist) + [frames[i]] && Unused(frames, space.pm.usage, i + 1)
    ensures old(space.pm.Accounted()) && |space.pm.freelist| < TWO64 ==> space.pm.Accounted()
  {
    hide Translate, NoLarge, AllTables, LargeIn, Pm.PagesOk, Pm.PhysicalMemory.Accounted, AlignDown, OnPage, Cleared;
    ghost var t1 := space.Now();
    var at := va + i * PAGE;
    PageAddress(frames[i], va, i);
    StillWired(t, t1, va, frames, i);
    AheadClear(t, t1, va, i * PAGE, at);
    var pa := space.TranslatePaddr(at);
    InSomeRegion(space.pm, frames[i]);
    var page := Pm.Lookup(space.pm.regions, pa.value);
    assert page != None;
    space.Unmap(at, 0);
    ClearedMore(t, t1, space.Now(), va, i, n);
    LargeInAgain(t, t1, space.Now(), va, i * PAGE, PAGE, 0);
    var f := Pm.Address(space.pm.regions, page.value) / PAGE;
    assert f == frames[i];
    NotTable(space, f);
    space.pm.Release(f);
  }

  lemma {:induction false} StillWired(t: Tables, t1: Tables, va: nat, frames: seq<nat>, i: nat)
    requires Sound(t) && Sound(t1) && i < |frames| && va + |frames| * PAGE <= SPACE
    requires Wiring(t, va, frames) && Cleared(t, t1, va, i * PAGE)
    ensures Where(t1, va + i * PAGE).Some? && Where(t1, va + i * PAGE).value.pa == frames[i] * PAGE
  {
    hide Where;
    assert va + i * PAGE < va + |frames| * PAGE;
  }

  lemma {:induction false} InSomeRegion(pm: Pm.PhysicalMemory, f: nat)
    requires pm.Valid() && f in pm.usage
    ensures Pm.RegionsOk(pm.regions) && exists i :: 0 <= i < |pm.regions| && Pm.Within(pm.regions[i], f * PAGE)
  {
    var i :| 0 <= i < |pm.regions| && Pm.InRegion(pm.regions[i], f);
    assert Pm.Within(pm.regions[i], f * PAGE);
  }

  lemma {:induction false} ClearedMore(t: Tables, t1: Tables, t2: Tables, va: nat, i: nat, n: nat)
    requires Sound(t) && Sound(t1) && Sound(t2) && va % PAGE == 0 && i < n && Cleared(t, t1, va, i * PAGE)
    requires forall x: nat :: x < SPACE ==> Where(t2, x) == if OnPage(x, va + i * PAGE, 0) then None else Where(t1, x)
    ensures Cleared(t, t2, va, (i + 1) * PAGE)
  {
    hide Where;
    PageAddress(0, va, i);
  }

  lemma {:induction false} NotTable(space: AddressSpace, f: nat)
    requires space.Valid() && f in space.pm.usage && space.pm.usage[f] == Pm.Wired
    ensures f !in space.cover
  {
  }

  /**
   Allocating and freeing again: every frame that was free is free once more or became a table,
   and an address that led nowhere before leads nowhere again.
   */
  method AllocThenFree(space: AddressSpace, va: nat, n: nat) returns (ok: bool)
    requires space.Valid() && va % PAGE == 0 && va + n * PAGE <= SPACE
    requires forall x: nat :: va <= x < va + n * PAGE ==> IsClear(space.Now(), x, 0) && Where(space.Now(), x) == None
    modifies space, space.pm
    ensures space.Valid()
    ensures ok ==> forall x: nat :: x < SPACE ==> Where(space.Now(), x) == old(Where(space.Now(), x))
    ensures ok ==> old(space.cover.Keys) <= space.cover.Keys && Distinct(space.pm.freelist)
                   && forall f :: f in old(space.pm.freelist) <==>
                                  f in space.pm.freelist || f in space.cover.Keys - old(space.cover.Keys)
  {
    hide Translate, NoLarge, AllTables, LargeIn, Pm.PagesOk, Pm.PhysicalMemory.Accounted, Where, IsClear, Wiring;
    ghost var t, frames := space.Now(), [];
    ok, frames := AllocWired(space, va, n);
    if ok {
      ghost var t1, free1 := space.Now(), space.pm.freelist;
      BackedWiring(t, t1, va, frames, RightsOf(space));
      forall x: nat | va <= x < va + n * PAGE ensures IsClear(t1, x, 0) {
        AheadClear(t, t1, va, n * PAGE, x);
      }
      FreeWired(space, va, n, frames);
      Listed(space.pm);
      assert forall f :: f in free1 + frames <==> f in free1 || f in frames;
    }
  }
}
