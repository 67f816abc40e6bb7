/**
 The direct map: `remap_memmap_entry` makes the physical memory of a memory-map entry readable
 at a fixed distance, with the largest pages that fit or with 4 KiB pages only.
 */
module Hhdm {
  import opened Word64
  import opened Paging
  import opened PageMap

  /** kVmGlobal | kVmAll. */
  const KERNEL_DATA := Access(true, true, false, false, true)

  /** A page-aligned entry of the memory map. */
  datatype Region = Region(base: nat, length: nat, cache: CacheMode)

  ghost predicate Fits(r: Region, hhdm: nat) {
    r.base % PAGE == 0 && r.length % PAGE == 0 && hhdm + r.base + r.length <= SPACE
  }

  /** No large page is in the way of the region's part of the direct map. */
  ghost predicate Vacant(t: Tables, hhdm: nat, r: Region)
    requires Sound(t)
  {
    forall x: nat :: hhdm + r.base <= x < hhdm + r.base + r.length ==> IsClear(t, x, 0)
  }

  /** The rights of a region in the direct map, as 4 KiB pages give them. */
  ghost function RightsOf(map_: AddressSpace, cache: CacheMode): Rights {
    map_.Grant(0, cache, KERNEL_DATA).value
  }

  /** The aligned 2 MiB block of `pa` lies in the region. */
  predicate InBlock(r: Region, pa: nat) {
    r.base <= AlignDown(pa, MEGA2) && AlignDown(pa, MEGA2) + MEGA2 <= r.base + r.length
  }

  /** What an address of the region gets: PAT is lost exactly in the aligned 2 MiB blocks, if huge pages are used. */
  ghost function RightsAt(g: Rights, r: Region, hugepages: bool, pa: nat): Rights {
    if hugepages && InBlock(r, pa) then g.(pat := false) else g
  }

  /** The first `n` bytes of the region lead to their place; every other address is as before. */
  ghost predicate Direct(t: Tables, t1: Tables, hhdm: nat, r: Region, n: nat, g: Rights, hugepages: bool)
    requires Sound(t) && Sound(t1)
  {
    forall x: nat :: x < SPACE ==>
      Where(t1, x) == if hhdm + r.base <= x < hhdm + r.base + n
                      then Some(Hit(x - hhdm, RightsAt(g, r, hugepages, x - hhdm)))
                      else Where(t, x)
  }

  lemma {:induction false} NothingDirect(t: Tables, hhdm: nat, r: Region, g: Rights, hugepages: bool)
    requires Sound(t)
    ensures Direct(t, t, hhdm, r, 0, g, hugepages) && LargeWithin(t, t, hhdm + r.base, 0)
  {
    hide Where, IsClear;
  }

  /** One more page, with the rights its addresses are to have. */
  lemma {:induction false} DirectAgain(t: Tables, t1: Tables, t2: Tables, hhdm: nat, r: Region, n: nat, more: nat,
                                       g: Rights, h: Rights, hugepages: bool)
    requires Sound(t) && Sound(t1) && Sound(t2)
    requires forall pa: nat :: r.base + n <= pa < r.base + n + more ==> RightsAt(g, r, hugepages, pa) == h
    requires Direct(t, t1, hhdm, r, n, g, hugepages) && Mapped(t1, t2, hhdm + r.base + n, more, r.base + n, Some(h))
    ensures Direct(t, t2, hhdm, r, n + more, g, hugepages)
  {
    hide Where, IsClear, RightsAt;
    forall x: nat | x < SPACE
      ensures Where(t2, x) == if hhdm + r.base <= x < hhdm + r.base + (n + more)
                              then Some(Hit(x - hhdm, RightsAt(g, r, hugepages, x - hhdm)))
                              else Where(t, x)
    {
      if hhdm + r.base + n <= x < hhdm + r.base + n + more {
        assert RightsAt(g, r, hugepages, x - hhdm) == h;
      }
    }
  }

  lemma {:induction false} AlignDownBounds(x: nat, a: nat)
    requires a > 0
    ensures AlignDown(x, a) <= x < AlignDown(x, a) + a && AlignDown(x, a) % a == 0
  {
    assert x == a * (x / a) + x % a;
    ModOffset(x / a, 0, a);
  }

  /** The only multiple of `a` up to `x` and less than `a` below it. */
  lemma {:induction false} AlignDownIs(x: nat, a: nat, b: nat)
    requires a > 0 && b % a == 0 && b <= x < b + a
    ensures AlignDown(x, a) == b
  {
    AlignDownBounds(x, a);
    var d := AlignDown(x, a);
    if d <= b {
      ModUnique(d, b, a);
    } else {
      ModUnique(b, d, a);
    }
  }

  /** Within one page of 4 KiB all addresses have the same block. */
  lemma {:induction false} SmallPageBlock(base: nat, pa: nat)
    requires base % PAGE == 0 && base <= pa < base + PAGE
    ensures AlignDown(pa, MEGA2) == AlignDown(base, MEGA2)
  {
    AlignDownBounds(base, MEGA2);
    var b := AlignDown(base, MEGA2);
    MultipleTransitive(b + MEGA2, MEGA2, PAGE);
    PageBelow(base, b + MEGA2);
    AlignDownIs(pa, MEGA2, b);
  }

  lemma {:induction false} PageBelow(x: nat, y: nat)
    requires x % PAGE == 0 && y % PAGE == 0 && x < y
    ensures x + PAGE <= y
  {
  }

  /** The block of the next page, unless a new block begins there. */
  lemma {:induction false} NextPageBlock(base: nat)
    requires base % PAGE == 0 && (base + PAGE) % MEGA2 != 0
    ensures AlignDown(base + PAGE, MEGA2) == AlignDown(base, MEGA2)
  {
    AlignDownBounds(base, MEGA2);
    var b := AlignDown(base, MEGA2);
    MultipleTransitive(b + MEGA2, MEGA2, PAGE);
    PageBelow(base, b + MEGA2);
    assert base + PAGE != b + MEGA2;
    AlignDownIs(base + PAGE, MEGA2, b);
  }

  /** Every block of a large page lies in the region that the page lies in. */
  lemma {:induction false} LargePageBlocks(r: Region, base: nat, level: nat, pa: nat)
    requires 0 < level <= 2 && base % Span(level) == 0 && r.base <= base && base + Span(level) <= r.base + r.length
    requires base <= pa < base + Span(level)
    ensures InBlock(r, pa)
  {
    AlignDownBounds(pa, MEGA2);
    var d := AlignDown(pa, MEGA2);
    MultipleTransitive(base, Span(level), MEGA2);
    MultipleSum(base, Span(level), MEGA2);
    if d < base {
      BlockBelow(d, base);
      assert false;
    }
    BlockBelow(d, base + Span(level));
  }

  lemma {:induction false} BlockBelow(x: nat, y: nat)
    requires x % MEGA2 == 0 && y % MEGA2 == 0 && x < y
    ensures x + MEGA2 <= y
  {
  }

  /** A page of either loop gives its addresses exactly the rights they are to have. */
  lemma {:induction false} PageRights(map_: AddressSpace, r: Region, hugepages: bool, base: nat, level: nat)
    requires level <= 2 && base % Span(level) == 0 && r.base <= base && base + Span(level) <= r.base + r.length
    requires if level == 0 then hugepages ==> !InBlock(r, base) else hugepages
    ensures forall pa: nat :: base <= pa < base + Span(level) ==>
              RightsAt(RightsOf(map_, r.cache), r, hugepages, pa) == map_.Grant(level, r.cache, KERNEL_DATA).value
  {
    hide AlignDown;
    forall pa: nat | base <= pa < base + Span(level)
      ensures RightsAt(RightsOf(map_, r.cache), r, hugepages, pa) == map_.Grant(level, r.cache, KERNEL_DATA).value
    {
      if level == 0 {
        SmallPageBlock(base, pa);
      } else {
        LargePageBlocks(r, base, level, pa);
      }
    }
  }

  /** The largest level whose page fits at `base`, as the second loop picks it. */
  function Largest(base: nat, end: nat): (level: nat)
    ensures level <= 2
  {
    if base % GIGA == 0 && base + GIGA <= end then 2
    else if base % MEGA2 == 0 && base + MEGA2 <= end then 1
    else 0
  }

  lemma {:induction false} LargestFits(base: nat, end: nat)
    requires base % PAGE == 0 && end % PAGE == 0 && base < end
    ensures var level := Largest(base, end);
            && level <= 2 && base % Span(level) == 0 && base + Span(level) <= end && (base + Span(level)) % PAGE == 0
            && forall l: nat :: l <= 2 && base % Span(l) == 0 && base + Span(l) <= end ==> l <= level
  {
  }

  lemma {:induction false} StripLevel(t: Tables, t1: Tables, start: nat, size: nat, level: nat)
    requires Sound(t) && Sound(t1) && LargeIn(t, t1, start, size, level)
    ensures LargeWithin(t, t1, start, size)
  {
  }

  lemma {:induction false} WithinAgain(t: Tables, t1: Tables, t2: Tables, start: nat, size: nat, more: nat, all: nat)
    requires Sound(t) && Sound(t1) && Sound(t2) && size + more <= all
    requires LargeWithin(t, t1, start, size) && LargeWithin(t1, t2, start + size, more)
    ensures LargeWithin(t, t2, start, size + more) && LargeWithin(t, t2, start, all)
  {
    hide IsClear;
  }

  /** A way clear for the smallest pages is clear for larger ones. */
  lemma {:induction false} ClearUp(mem: Memory, cover: Cover, t: nat, x: nat, level: nat)
    requires AllTables(mem, cover) && t in cover && NoLarge(mem, cover, t, x, 0)
    ensures NoLarge(mem, cover, t, x, level)
    decreases cover[t].level
  {
    hide Index, Span;
    assert TableOk(t, mem, cover);
    var l := cover[t].level;
    var e := mem[t][Index(x, l)];
    assert EntryOk(e, cover[t], Index(x, l), cover);
    if e.present && !MapsPage(e, l) {
      ClearUp(mem, cover, FrameOf(e.address), x, level);
    }
  }

  /** What is still to be mapped is still clear. */
  lemma {:induction false} AheadClear(t: Tables, t1: Tables, hhdm: nat, r: Region, base: nat, size: nat, level: nat)
    requires Sound(t) && Sound(t1) && Fits(r, hhdm) && Vacant(t, hhdm, r)
    requires r.base <= base && base + size <= r.base + r.length
    requires LargeWithin(t, t1, hhdm + r.base, base - r.base)
    ensures forall x: nat :: hhdm + base <= x < hhdm + base + size ==> IsClear(t1, x, level)
  {
    forall x: nat | hhdm + base <= x < hhdm + base + size ensures IsClear(t1, x, level) {
      assert IsClear(t, x, 0);
      ClearUp(t.mem, t.cover, t.root, x, level);
    }
  }

  lemma {:induction false} AlignedHere(map_: AddressSpace, hhdm: nat, base: nat, level: nat)
    requires hhdm % GIGA == 0 && level <= 2 && base % Span(level) == 0
    ensures AlignDown(hhdm + base, Span(map_.Native(level))) == hhdm + base && AlignDown(base, PAGE) == base
  {
    MultipleTransitive(hhdm, GIGA, Span(level));
    MultipleSum(hhdm, base, Span(level));
    MultipleTransitive(hhdm + base, Span(level), Span(map_.Native(level)));
    MultipleTransitive(base, Span(level), PAGE);
  }

  /** One `vm_port_map` of either loop. */
  method Step(map_: AddressSpace, hhdm: nat, r: Region, base: nat, level: nat, hugepages: bool, ghost t: Tables) returns (ok: bool)
    requires map_.Valid() && hhdm % GIGA == 0 && Fits(r, hhdm) && Sound(t) && Vacant(t, hhdm, r)
    requires level <= 2 && base % Span(level) == 0 && r.base <= base && base + Span(level) <= r.base + r.length
    requires if level == 0 then hugepages ==> !InBlock(r, base) else hugepages
    requires Direct(t, map_.Now(), hhdm, r, base - r.base, RightsOf(map_, r.cache), hugepages)
    requires LargeWithin(t, map_.Now(), hhdm + r.base, base - r.base)
    modifies map_, map_.pm
    ensures map_.Valid() && (!ok ==> map_.pm.freelist == [])
    ensures ok ==> Direct(t, map_.Now(), hhdm, r, base + Span(level) - r.base, RightsOf(map_, r.cache), hugepages)
    ensures LargeWithin(t, map_.Now(), hhdm + r.base, base + Span(level) - r.base)
    ensures LargeWithin(t, map_.Now(), hhdm + r.base, r.length)
  {
    hide Translate, NoLarge, AllTables, Mapped, Direct, LargeWithin, LargeIn, Vacant, AlignDown, Span, AddressSpace.Valid, Sound, Took,
         RightsAt, InBlock;
    ghost var t1 := map_.Now();
    ghost var n, g := base - r.base, RightsOf(map_, r.cache);
    AlignedHere(map_, hhdm, base, level);
    AheadClear(t, t1, hhdm, r, base, Span(level), map_.Native(level));
    PageRights(map_, r, hugepages, base, level);
    ok := map_.Map(base, hhdm + base, level, r.cache, KERNEL_DATA);
    StripLevel(t1, map_.Now(), hhdm + base, Span(level), map_.Native(level));
    WithinAgain(t, t1, map_.Now(), hhdm + r.base, n, Span(level), r.length);
    if ok {
      DirectAgain(t, t1, map_.Now(), hhdm, r, n, Span(level), g, map_.Grant(level, r.cache, KERNEL_DATA).value, hugepages);
    }
  }

  /** In the first loop: the block of `base` began before the region, or begins here. */
  predicate Leading(r: Region, base: nat) {
    base % MEGA2 == 0 || AlignDown(base, MEGA2) < r.base
  }

  /** In the second loop: the block of `base` ends behind the region, or begins here. */
  predicate Trailing(r: Region, base: nat) {
    base % MEGA2 == 0 || AlignDown(base, MEGA2) + MEGA2 > r.base + r.length
  }

  lemma {:induction false} LeadingStep(r: Region, base: nat)
    requires base % PAGE == 0 && Leading(r, base) && base % MEGA2 != 0
    ensures !InBlock(r, base) && Leading(r, base + PAGE)
  {
    if (base + PAGE) % MEGA2 != 0 {
      NextPageBlock(base);
    }
  }

  lemma {:induction false} TrailingStep(r: Region, base: nat, level: nat)
    requires base % PAGE == 0 && Trailing(r, base) && level == Largest(base, r.base + r.length)
    ensures level == 0 ==> !InBlock(r, base)
    ensures Trailing(r, base + Span(level))
  {
    if level == 0 {
      if base % MEGA2 == 0 {
        AlignDownIs(base, MEGA2, base);
      }
      if (base + PAGE) % MEGA2 != 0 {
        NextPageBlock(base);
      }
    }
  }

  /**
   `remap_memmap_entry`. With and without huge pages, and with and without the emulation of
   1 GiB pages, every address of the entry leads to its place, and its rights are exact. False
   stands for running out of frames.
   */
  method RemapEntry(map_: AddressSpace, hhdm: nat, r: Region, hugepages: bool) returns (ok: bool)
    requires map_.Valid() && hhdm % GIGA == 0 && Fits(r, hhdm) && Vacant(map_.Now(), hhdm, r)
    modifies map_, map_.pm
    ensures map_.Valid() && (!ok ==> map_.pm.freelist == [])
    ensures ok ==> Direct(old(map_.Now()), map_.Now(), hhdm, r, r.length, RightsOf(map_, r.cache), hugepages)
    ensures var g := RightsOf(map_, r.cache);
            && g.write && !g.user && g.noExecute == map_.nx && g.global_ == map_.pge
            && PatIndex(g) == match r.cache
                              case Writeback => 0
                              case Writethrough => 1
                              case Uncached => 3
                              case Writecombine => 5
    ensures LargeWithin(old(map_.Now()), map_.Now(), hhdm + r.base, r.length)
  {
    hide Translate, NoLarge, AllTables, Mapped, Direct, LargeWithin, LargeIn, Vacant, AlignDown, Largest, AddressSpace.Valid, Sound,
         RightsAt, InBlock, Leading, Trailing;
    ghost var t, g := map_.Now(), RightsOf(map_, r.cache);
    var base, end := r.base, r.base + r.length;
    NothingDirect(t, hhdm, r, g, hugepages);
    FirstBlock(r);
    EndAligned(r, hhdm);
    while base < end && !(hugepages && base % MEGA2 == 0)
      invariant r.base <= base <= end && base % PAGE == 0 && map_.Valid() && (hugepages ==> Leading(r, base))
      invariant Direct(t, map_.Now(), hhdm, r, base - r.base, g, hugepages)
      invariant LargeWithin(t, map_.Now(), hhdm + r.base, base - r.base)
    {
      if hugepages {
        LeadingStep(r, base);
      }
      NextPage(base, end);
      ok := Step(map_, hhdm, r, base, 0, hugepages, t);
      if !ok {
        return;
      }
      base := base + PAGE;
    }
    if hugepages {
      if base < end {
        BlockStarts(r, base);
      }
      while base < end
        invariant r.base <= base <= end && base % PAGE == 0 && map_.Valid() && (base < end ==> Trailing(r, base))
        invariant Direct(t, map_.Now(), hhdm, r, base - r.base, g, hugepages)
        invariant LargeWithin(t, map_.Now(), hhdm + r.base, base - r.base)
      {
        var level := Largest(base, end);
        LargestFits(base, end);
        TrailingStep(r, base, level);
        ok := Step(map_, hhdm, r, base, level, hugepages, t);
        if !ok {
          return;
        }
        base := base + Span(level);
      }
    }
    ok := true;
  }

  lemma {:induction false} EndAligned(r: Region, hhdm: nat)
    requires Fits(r, hhdm)
    ensures (r.base + r.length) % PAGE == 0
  {
    MultipleSum(r.base, r.length, PAGE);
  }

  lemma {:induction false} NextPage(base: nat, end: nat)
    requires base % PAGE == 0 && end % PAGE == 0 && base < end
    ensures (base + PAGE) % PAGE == 0 && base + PAGE <= end
  {
  }

  lemma {:induction false} FirstBlock(r: Region)
    ensures Leading(r, r.base)
  {
  }

  lemma {:induction false} BlockStarts(r: Region, base: nat)
    requires base % MEGA2 == 0
    ensures Trailing(r, base)
  {
  }

  /** The regions up to the `n`th, seen in the direct map. */
  ghost predicate Within(rs: seq<Region>, n: nat, hhdm: nat, x: nat)
    requires n <= |rs|
  {
    exists i :: 0 <= i < n && InRegion(rs[i], hhdm, x)
  }

  ghost predicate InRegion(r: Region, hhdm: nat, x: nat) {
    hhdm + r.base <= x < hhdm + r.base + r.length
  }

  ghost predicate Disjoint(r: Region, s: Region) {
    r.base + r.length <= s.base || s.base + s.length <= r.base
  }

  /** Regions that are not empty are disjoint exactly if no address of the direct map is in both. */
  lemma {:induction false} DisjointIff(r: Region, s: Region, hhdm: nat)
    requires r.length > 0 && s.length > 0
    ensures Disjoint(r, s) <==> forall x: nat :: !(InRegion(r, hhdm, x) && InRegion(s, hhdm, x))
  {
    var x := hhdm + Max(r.base, s.base);
    assert !Disjoint(r, s) ==> InRegion(r, hhdm, x) && InRegion(s, hhdm, x);
  }

  /** Regions that fit, do not overlap and have nothing large in the way. */
  ghost predicate Ready(t: Tables, hhdm: nat, rs: seq<Region>)
    requires Sound(t)
  {
    && (forall i :: 0 <= i < |rs| ==> Fits(rs[i], hhdm) && Vacant(t, hhdm, rs[i]))
    && (forall i, j :: 0 <= i < j < |rs| ==> Disjoint(rs[i], rs[j]))
  }

  /** The direct map of the first `n` regions, and every other address as before. */
  ghost predicate DirectMap(map_: AddressSpace, t: Tables, t1: Tables, hhdm: nat, rs: seq<Region>, n: nat, hugepages: bool)
    requires Sound(t) && Sound(t1) && n <= |rs|
  {
    && (forall i, x: nat :: 0 <= i < n && x < SPACE && InRegion(rs[i], hhdm, x) ==>
          Where(t1, x) == Some(Hit(x - hhdm, RightsAt(RightsOf(map_, rs[i].cache), rs[i], hugepages, x - hhdm))))
    && (forall x: nat :: x < SPACE && !Within(rs, n, hhdm, x) ==> Where(t1, x) == Where(t, x))
    && (forall x: nat, lv :: x < SPACE && !Within(rs, n, hhdm, x) ==> IsClear(t1, x, lv) == IsClear(t, x, lv))
  }

  lemma {:induction false} DirectMapNext(map_: AddressSpace, t: Tables, t1: Tables, t2: Tables, hhdm: nat, rs: seq<Region>, n: nat,
                                         hugepages: bool)
    requires Sound(t) && Sound(t1) && Sound(t2) && n < |rs| && DirectMap(map_, t, t1, hhdm, rs, n, hugepages) && Ready(t, hhdm, rs)
    requires Direct(t1, t2, hhdm, rs[n], rs[n].length, RightsOf(map_, rs[n].cache), hugepages)
    requires LargeWithin(t1, t2, hhdm + rs[n].base, rs[n].length)
    ensures DirectMap(map_, t, t2, hhdm, rs, n + 1, hugepages)
  {
    hide Where, IsClear, RightsAt, Vacant;
    forall x: nat | x < SPACE ensures Within(rs, n + 1, hhdm, x) <==> Within(rs, n, hhdm, x) || InRegion(rs[n], hhdm, x) {
      OneMoreRegion(rs, n, hhdm, x);
    }
    forall i, x: nat | 0 <= i < n + 1 && x < SPACE && InRegion(rs[i], hhdm, x)
      ensures Where(t2, x) == Some(Hit(x - hhdm, RightsAt(RightsOf(map_, rs[i].cache), rs[i], hugepages, x - hhdm)))
    {
      if i < n {
        assert Disjoint(rs[i], rs[n]);
      }
    }
  }

  lemma {:induction false} OneMoreRegion(rs: seq<Region>, n: nat, hhdm: nat, x: nat)
    requires n < |rs|
    ensures Within(rs, n + 1, hhdm, x) <==> Within(rs, n, hhdm, x) || InRegion(rs[n], hhdm, x)
  {
    if InRegion(rs[n], hhdm, x) {
      assert 0 <= n < n + 1;
    } else if Within(rs, n, hhdm, x) {
      var i :| 0 <= i < n && InRegion(rs[i], hhdm, x);
      assert 0 <= i < n + 1;
    }
  }

  lemma {:induction false} StillVacant(map_: AddressSpace, t: Tables, t1: Tables, hhdm: nat, rs: seq<Region>, n: nat, hugepages: bool)
    requires Sound(t) && Sound(t1) && n < |rs| && Ready(t, hhdm, rs) && DirectMap(map_, t, t1, hhdm, rs, n, hugepages)
    ensures Vacant(t1, hhdm, rs[n])
  {
    hide Where, IsClear, RightsAt;
    forall x: nat | InRegion(rs[n], hhdm, x) ensures IsClear(t1, x, 0) {
      assert IsClear(t, x, 0);
      assert !Within(rs, n, hhdm, x);
    }
  }

  /** The loop over the memory map at boot. */
  method RemapAll(map_: AddressSpace, hhdm: nat, rs: seq<Region>, hugepages: bool) returns (ok: bool)
    requires map_.Valid() && hhdm % GIGA == 0 && Ready(map_.Now(), hhdm, rs)
    modifies map_, map_.pm
    ensures map_.Valid() && (!ok ==> map_.pm.freelist == [])
    ensures ok ==> DirectMap(map_, old(map_.Now()), map_.Now(), hhdm, rs, |rs|, hugepages)
  {
    hide Translate, NoLarge, AllTables, Direct, LargeWithin, Vacant, DirectMap, AddressSpace.Valid, Sound;
    ghost var t := map_.Now();
    assert DirectMap(map_, t, t, hhdm, rs, 0, hugepages) by { NoRegions(map_, t, hhdm, rs, hugepages); }
    var i := 0;
    while i < |rs|
      invariant 0 <= i <= |rs| && map_.Valid() && DirectMap(map_, t, map_.Now(), hhdm, rs, i, hugepages)
    {
      ghost var t1 := map_.Now();
      StillVacant(map_, t, t1, hhdm, rs, i, hugepages);
      ok := RemapEntry(map_, hhdm, rs[i], hugepages);
      if !ok {
        return;
      }
      DirectMapNext(map_, t, t1, map_.Now(), hhdm, rs, i, hugepages);
      i := i + 1;
    }
    ok := true;
  }

  lemma {:induction false} NoRegions(map_: AddressSpace, t: Tables, hhdm: nat, rs: seq<Region>, hugepages: bool)
    requires Sound(t)
    ensures DirectMap(map_, t, t, hhdm, rs, 0, hugepages)
  {
  }

  // ---------------------------------------------------------------------------
  // Huge pages against plain ones

  /** An aligned 2 MiB block fits in the region: the first one does. */
  predicate HasBlock(r: Region) {
    AlignDown(r.base + MEGA2 - 1, MEGA2) + MEGA2 <= r.base + r.length
  }

  lemma {:induction false} HasBlockIff(r: Region)
    ensures HasBlock(r) <==> exists b: nat :: b % MEGA2 == 0 && r.base <= b && b + MEGA2 <= r.base + r.length
    ensures HasBlock(r) ==> InBlock(r, AlignDown(r.base + MEGA2 - 1, MEGA2))
    ensures forall pa: nat :: InBlock(r, pa) ==> HasBlock(r)
  {
    var first := AlignDown(r.base + MEGA2 - 1, MEGA2);
    AlignDownBounds(r.base + MEGA2 - 1, MEGA2);
    AlignDownIs(first, MEGA2, first);
    forall b: nat | b % MEGA2 == 0 && r.base <= b ensures first <= b {
      if b < first {
        BlockBelow(b, first);
        assert false;
      }
    }
    forall pa: nat | InBlock(r, pa) ensures HasBlock(r) {
      AlignDownBounds(pa, MEGA2);
    }
  }

  /** Huge pages leave the memory type of the region alone. */
  predicate Preserved(r: Region) {
    r.cache != Writecombine || !HasBlock(r)
  }

  /** In one region: huge and plain pages agree on every address exactly if the memory type is preserved. */
  lemma {:induction false} RegionAgrees(map_: AddressSpace, r: Region)
    ensures Preserved(r) <==>
            forall pa: nat :: r.base <= pa < r.base + r.length ==>
              RightsAt(RightsOf(map_, r.cache), r, true, pa) == RightsAt(RightsOf(map_, r.cache), r, false, pa)
  {
    hide AlignDown;
    HasBlockIff(r);
    var g := RightsOf(map_, r.cache);
    if !Preserved(r) {
      var b := AlignDown(r.base + MEGA2 - 1, MEGA2);
      AlignDownBounds(b, MEGA2);
      AlignDownBounds(r.base + MEGA2 - 1, MEGA2);
      assert r.base <= b < r.base + r.length;
      assert RightsAt(g, r, true, b).pat != RightsAt(g, r, false, b).pat;
    }
  }

  /** The frame buffer of a 1024 by 768 screen at an aligned address becomes write-through; the legacy one at 640 KiB does not. */
  lemma {:induction false} FrameBufferLosesPat(map_: AddressSpace)
    ensures var r, g := Region(0xFD00_0000, 0x30_0000, Writecombine), RightsOf(map_, Writecombine);
            && !Preserved(r)
            && PatIndex(RightsAt(g, r, false, 0xFD00_0000)) == 5
            && PatIndex(RightsAt(g, r, true, 0xFD00_0000)) == 1
            && PatIndex(RightsAt(g, r, true, 0xFD20_0000)) == 5
    ensures Preserved(Region(0xA_0000, 0x2_0000, Writecombine))
  {
  }

  /**
   Two address spaces that translate alike, on processors with and without 1 GiB pages: after
   the boot loop, one built with huge pages and one without, every address leads to the same
   place, and the two translate alike exactly if no write-combining region has room for a block.
   */
  method HugeLikePlain(huge: AddressSpace, plain: AddressSpace, hhdm: nat, rs: seq<Region>) returns (ok: bool)
    requires huge != plain && huge.pm != plain.pm && huge.Valid() && plain.Valid() && hhdm % GIGA == 0
    requires huge.nx == plain.nx && huge.pge == plain.pge
    requires Ready(huge.Now(), hhdm, rs) && Ready(plain.Now(), hhdm, rs)
    requires forall x: nat :: x < SPACE ==> Where(huge.Now(), x) == Where(plain.Now(), x)
    modifies huge, plain, huge.pm, plain.pm
    ensures huge.Valid() && plain.Valid()
    ensures ok ==> forall x: nat :: x < SPACE ==> SamePlace(Where(huge.Now(), x), Where(plain.Now(), x))
    ensures ok ==>
              ((forall x: nat :: x < SPACE ==> Where(huge.Now(), x) == Where(plain.Now(), x))
               <==> forall i :: 0 <= i < |rs| ==> Preserved(rs[i]))
  {
    hide Translate, NoLarge, AllTables, Vacant, Ready, Where, Within, AddressSpace.Valid, Sound, DirectMap, SamePlace, Preserved;
    ghost var h, p := huge.Now(), plain.Now();
    ok := RemapAll(huge, hhdm, rs, true);
    if ok {
      ok := RemapAll(plain, hhdm, rs, false);
    }
    if ok {
      FitsOf(h, hhdm, rs);
      AgreeIff(huge, plain, h, huge.Now(), p, plain.Now(), hhdm, rs);
    }
  }

  ghost predicate SamePlace(h: Option<Hit>, k: Option<Hit>) {
    h == k || (h.Some? && k.Some? && h.value.pa == k.value.pa
               && h.value.rights.(pat := false) == k.value.rights.(pat := false))
  }

  lemma {:induction false} FitsOf(t: Tables, hhdm: nat, rs: seq<Region>)
    requires Sound(t) && Ready(t, hhdm, rs)
    ensures forall i :: 0 <= i < |rs| ==> Fits(rs[i], hhdm)
  {
  }

  lemma {:induction false} AgreeIff(huge: AddressSpace, plain: AddressSpace, h: Tables, h1: Tables, p: Tables, p1: Tables, hhdm: nat,
                                    rs: seq<Region>)
    requires Sound(h) && Sound(h1) && Sound(p) && Sound(p1) && huge.nx == plain.nx && huge.pge == plain.pge
    requires DirectMap(huge, h, h1, hhdm, rs, |rs|, true) && DirectMap(plain, p, p1, hhdm, rs, |rs|, false)
    requires forall x: nat :: x < SPACE ==> Where(h, x) == Where(p, x)
    requires forall i :: 0 <= i < |rs| ==> Fits(rs[i], hhdm)
    ensures forall x: nat :: x < SPACE ==> SamePlace(Where(h1, x), Where(p1, x))
    ensures (forall x: nat :: x < SPACE ==> Where(h1, x) == Where(p1, x)) <==> forall i :: 0 <= i < |rs| ==> Preserved(rs[i])
  {
    hide Where, IsClear, DirectMap, Preserved, SamePlace;
    forall x: nat | x < SPACE
      ensures SamePlace(Where(h1, x), Where(p1, x))
      ensures (forall i :: 0 <= i < |rs| ==> Preserved(rs[i])) ==> Where(h1, x) == Where(p1, x)
    {
      AgreeAt(huge, plain, h, h1, p, p1, hhdm, rs, x);
    }
    if i :| 0 <= i < |rs| && !Preserved(rs[i]) {
      var x := DifferAt(huge, plain, h, h1, p, p1, hhdm, rs, i);
    }
  }

  lemma {:induction false} AgreeAt(huge: AddressSpace, plain: AddressSpace, h: Tables, h1: Tables, p: Tables, p1: Tables, hhdm: nat,
                                   rs: seq<Region>, x: nat)
    requires Sound(h) && Sound(h1) && Sound(p) && Sound(p1) && huge.nx == plain.nx && huge.pge == plain.pge && x < SPACE
    requires DirectMap(huge, h, h1, hhdm, rs, |rs|, true) && DirectMap(plain, p, p1, hhdm, rs, |rs|, false)
    requires Where(h, x) == Where(p, x)
    ensures SamePlace(Where(h1, x), Where(p1, x))
    ensures (forall i :: 0 <= i < |rs| ==> Preserved(rs[i])) ==> Where(h1, x) == Where(p1, x)
  {
    hide Where, IsClear, Preserved, InBlock;
    if Within(rs, |rs|, hhdm, x) {
      var i :| 0 <= i < |rs| && InRegion(rs[i], hhdm, x);
      RegionAgrees(huge, rs[i]);
      assert Where(h1, x) == Some(Hit(x - hhdm, RightsAt(RightsOf(huge, rs[i].cache), rs[i], true, x - hhdm)));
      assert Where(p1, x) == Some(Hit(x - hhdm, RightsAt(RightsOf(plain, rs[i].cache), rs[i], false, x - hhdm)));
    }
  }

  /** An address at which a region that is not preserved differs. */
  lemma {:induction false} DifferAt(huge: AddressSpace, plain: AddressSpace, h: Tables, h1: Tables, p: Tables, p1: Tables, hhdm: nat,
                                    rs: seq<Region>, i: nat) returns (x: nat)
    requires Sound(h) && Sound(h1) && Sound(p) && Sound(p1) && huge.nx == plain.nx && huge.pge == plain.pge
    requires DirectMap(huge, h, h1, hhdm, rs, |rs|, true) && DirectMap(plain, p, p1, hhdm, rs, |rs|, false)
    requires i < |rs| && Fits(rs[i], hhdm) && !Preserved(rs[i])
    ensures x < SPACE && Where(h1, x) != Where(p1, x)
  {
    hide Where, IsClear, Preserved, InBlock, RightsAt;
    var r := rs[i];
    RegionAgrees(huge, r);
    var pa: nat :| r.base <= pa < r.base + r.length
                   && RightsAt(RightsOf(huge, r.cache), r, true, pa) != RightsAt(RightsOf(huge, r.cache), r, false, pa);
    x := hhdm + pa;
    assert InRegion(rs[i], hhdm, x) && x - hhdm == pa;
  }
}
