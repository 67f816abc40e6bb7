/** Physical pages: regions of page descriptors, the free list and its statistics. */
module Pm {
  import opened Sequences
  import opened Word64

  const PAGE_SIZE: nat := 4096
  const REGION_HEADER: nat := 32
  const PAGE_STRUCT: nat := 32

  datatype Usage = Free | Internal | Vm | Wired

  /** A region: where it begins, and how many pages it has. */
  datatype Region = Region(base: nat, pagecnt: nat)

  /** A page descriptor, by region and index. */
  datatype Page = Page(region: nat, index: nat)

  ghost predicate RegionsOk(regions: seq<Region>) {
    && (forall i :: 0 <= i < |regions| ==> regions[i].base % PAGE_SIZE == 0)
    && (forall i, j :: 0 <= i < j < |regions| ==> Disjoint(regions[i], regions[j]))
  }

  ghost predicate Disjoint(r: Region, s: Region) {
    r.base + r.pagecnt * PAGE_SIZE <= s.base || s.base + s.pagecnt * PAGE_SIZE <= r.base
  }

  predicate Within(r: Region, paddr: nat) {
    r.base <= paddr < r.base + r.pagecnt * PAGE_SIZE
  }

  /** Regions that are not empty are disjoint exactly if they share no address. */
  lemma {:induction false} DisjointIff(r: Region, s: Region)
    requires r.pagecnt > 0 && s.pagecnt > 0
    ensures Disjoint(r, s) <==> forall x: nat :: !(Within(r, x) && Within(s, x))
  {
    var x := Max(r.base, s.base);
    assert !Disjoint(r, s) ==> Within(r, x) && Within(s, x);
  }

  predicate IsPage(regions: seq<Region>, p: Page) {
    p.region < |regions| && p.index < regions[p.region].pagecnt
  }

  /** PG2P. */
  function Address(regions: seq<Region>, p: Page): nat
    requires IsPage(regions, p)
  {
    regions[p.region].base + p.index * PAGE_SIZE
  }

  /** `pm_lookup`: the page a physical address lies on, if it lies in a region. */
  method Lookup(regions: seq<Region>, paddr: nat) returns (p: Option<Page>)
    requires RegionsOk(regions)
    ensures p.None? <==> forall i :: 0 <= i < |regions| ==> !Within(regions[i], paddr)
    ensures p.Some? ==> IsPage(regions, p.value) && Address(regions, p.value) == paddr - paddr % PAGE_SIZE
  {
    var i := 0;
    while i < |regions|
      invariant i <= |regions| && forall j :: 0 <= j < i ==> !Within(regions[j], paddr)
    {
      if Within(regions[i], paddr) {
        return Some(Page(i, (paddr - regions[i].base) / PAGE_SIZE));
      }
      i := i + 1;
    }
    p := None;
  }

  /** Different pages have different addresses, and even different bytes. */
  lemma {:induction false} PagesApart(regions: seq<Region>, p: Page, q: Page)
    requires RegionsOk(regions) && IsPage(regions, p) && IsPage(regions, q)
    requires Address(regions, p) == Address(regions, q)
    ensures p == q
  {
    var r, s := regions[p.region], regions[q.region];
    assert Within(r, Address(regions, p)) && Within(s, Address(regions, q));
    assert p.region != q.region ==> Disjoint(r, s) || Disjoint(s, r);
  }

  /** `pm_lookup` inverts PG2P: any address on a page leads back to that page. */
  method LookupInverse(regions: seq<Region>, p: Page, offset: nat) returns (q: Option<Page>)
    requires RegionsOk(regions) && IsPage(regions, p) && offset < PAGE_SIZE
    ensures q == Some(p)
  {
    var paddr := Address(regions, p) + offset;
    q := Lookup(regions, paddr);
    assert Within(regions[p.region], paddr);
    PageOf(regions[p.region].base, p.index, offset);
    PagesApart(regions, q.value, p);
  }

  lemma {:induction false} PageOf(base: nat, i: nat, offset: nat)
    requires base % PAGE_SIZE == 0 && offset < PAGE_SIZE
    ensures var x := base + i * PAGE_SIZE + offset; x - x % PAGE_SIZE == base + i * PAGE_SIZE
  {
    MultipleMod(i, PAGE_SIZE);
    MultipleSum(base, i * PAGE_SIZE, PAGE_SIZE);
    MultipleSum(base + i * PAGE_SIZE, offset, PAGE_SIZE);
  }

  /** The frame numbers of the pages of a region from index `i` on. */
  function Frames(r: Region, i: nat): (s: seq<nat>)
    ensures |s| == if i < r.pagecnt then r.pagecnt - i else 0
    ensures forall k :: 0 <= k < |s| ==> s[k] == r.base / PAGE_SIZE + i + k
    decreases r.pagecnt - i
  {
    if i < r.pagecnt then [r.base / PAGE_SIZE + i] + Frames(r, i + 1) else []
  }

  /** The bytes a region of this length spends on its own descriptors. */
  function Overhead(length: nat): nat {
    (REGION_HEADER + PAGE_STRUCT * length / PAGE_SIZE + PAGE_SIZE - 1) / PAGE_SIZE * PAGE_SIZE
  }

  /** The reserved pages are whole, hold the header and one descriptor per page, and are no more than needed. */
  lemma {:induction false} OverheadHolds(length: nat)
    ensures var need := REGION_HEADER + PAGE_STRUCT * length / PAGE_SIZE;
            && Overhead(length) % PAGE_SIZE == 0 && need <= Overhead(length) < need + PAGE_SIZE
            && REGION_HEADER + PAGE_STRUCT * (length / PAGE_SIZE) <= Overhead(length)
  {
    var need := REGION_HEADER + PAGE_STRUCT * length / PAGE_SIZE;
    var k := (need + PAGE_SIZE - 1) / PAGE_SIZE;
    MultipleMod(k, PAGE_SIZE);
  }

  ghost predicate InRegion(r: Region, f: nat) {
    r.base / PAGE_SIZE <= f < r.base / PAGE_SIZE + r.pagecnt
  }

  ghost predicate Known(regions: seq<Region>, f: nat) {
    exists i :: 0 <= i < |regions| && InRegion(regions[i], f)
  }

  /** Free pages are those on the list, each once, and all pages are in regions. */
  ghost predicate PagesOk(regions: seq<Region>, free: seq<nat>, usage: map<nat, Usage>) {
    && RegionsOk(regions) && Distinct(free)
    && (forall f :: f in free ==> f in usage && usage[f] == Free)
    && (forall f :: f in usage && usage[f] == Free ==> f in free)
    && (forall f :: f in usage ==> Known(regions, f))
  }

  /** The descriptors of a region in which the first `n` pages are internal. */
  ghost predicate Described(u: map<nat, Usage>, usage: map<nat, Usage>, r: Region, n: nat) {
    && (forall f :: f in u <==> f in usage || InRegion(r, f))
    && (forall f :: f in u ==> u[f] == if InRegion(r, f) then (if f < r.base / PAGE_SIZE + n then Internal else Free) else usage[f])
  }

  class PhysicalMemory {
    var regions: seq<Region>
    var freelist: seq<nat>
    var usage: map<nat, Usage>
    var total: int
    var used: int

    ghost predicate Valid()
      reads this
    {
      PagesOk(regions, freelist, usage)
    }

    /** vmstat.total - vmstat.used is the number of free pages. */
    ghost predicate Accounted()
      reads this
    {
      Wrap(total - used) == |freelist|
    }

    constructor ()
      ensures Valid() && Accounted() && regions == [] && freelist == [] && usage == map[]
    {
      regions, freelist, usage, total, used := [], [], map[], 0, 0;
    }

    /** `pm_allocate`: the page at the front of the list; none if the list is empty. */
    method Allocate(use: Usage) returns (f: Option<nat>)
      requires Valid() && use != Free
      modifies this
      ensures Valid() && (old(Accounted()) ==> Accounted())
      ensures f.None? <==> old(freelist) == []
      ensures f.Some? ==> freelist == old(freelist)[1..] && f.value == old(freelist)[0]
                          && f.value !in freelist && usage == old(usage)[f.value := use]
                          && used == Wrap(old(used) + 1) && total == old(total)
      ensures f.None? ==> freelist == old(freelist) && usage == old(usage) && total == old(total) && used == old(used)
      ensures regions == old(regions)
    {
      hide Wrap, Distinct, RegionsOk;
      if freelist == [] {
        return None;
      }
      var page := freelist[0];
      HeadOff(freelist);
      usage := usage[page := use];
      AccountShift(total, used, 1, |freelist|);
      freelist := freelist[1..];
      used := Wrap(used + 1);
      f := Some(page);
    }

    /** `pm_free`: the page goes to the end of the list. */
    method Release(f: nat)
      requires Valid() && f in usage && usage[f] != Free
      modifies this
      ensures Valid() && (old(Accounted()) && |freelist| < TWO64 ==> Accounted())
      ensures freelist == old(freelist) + [f] && usage == old(usage)[f := Free] && regions == old(regions)
      ensures used == Wrap(old(used) - 1) && total == old(total)
    {
      hide Wrap, RegionsOk;
      assert f !in freelist;
      AccountShift(total, used, -1, |freelist|);
      usage := usage[f := Free];
      freelist := freelist + [f];
      used := Wrap(used - 1);
    }

    /**
     `pm_add_region`. Page descriptors take the first pages of the region. A region with fewer
     than two pages left over is not added; the subtraction that decides this wraps around.
     */
    method AddRegion(base: nat, length: nat)
      requires Valid() && base % PAGE_SIZE == 0 && length < TWO64
      requires forall i :: 0 <= i < |regions| ==> Disjoint(regions[i], Region(base, length / PAGE_SIZE))
      modifies this
      ensures Valid()
      ensures old(Accounted()) && old(|freelist|) + length < TWO64 ==> (Accounted() <==> length >= Overhead(length))
      ensures var r := Region(base, length / PAGE_SIZE);
              if Overhead(length) <= length < Overhead(length) + 2 * PAGE_SIZE then
                regions == old(regions) && freelist == old(freelist) && usage == old(usage) && total == old(total) && used == old(used)
              else
                && regions == old(regions) + [r] && freelist == old(freelist) + Frames(r, Overhead(length) / PAGE_SIZE)
                && Described(usage, old(usage), r, Overhead(length) / PAGE_SIZE)
                && total == Wrap(old(total) + r.pagecnt) && used == Wrap(old(used) + Overhead(length) / PAGE_SIZE)
    {
      hide Wrap, Overhead, Frames;
      var over := Overhead(length);
      OverheadPages(length);
      ghost var n0, t0, u0 := |freelist|, total, used;
      SmallLeft(length, over);
      if Wrap(length - over) < PAGE_SIZE * 2 {
        return;
      }
      var r := Region(base, length / PAGE_SIZE);
      var u := Describe(usage, r, over / PAGE_SIZE);
      var rest := Listed(r, over / PAGE_SIZE);
      AddedOk(regions, freelist, usage, u, r, over / PAGE_SIZE);
      regions := regions + [r];
      total := Wrap(total + r.pagecnt);
      usage := u;
      freelist := freelist + rest;
      used := Wrap(used + over / PAGE_SIZE);
      RegionCounts(t0, u0, n0, length);
    }

    /** All pages of a new region are marked free, then the first `n` internal. */
    static method Describe(usage: map<nat, Usage>, r: Region, n: nat) returns (u: map<nat, Usage>)
      ensures Described(u, usage, r, n)
    {
      var first := r.base / PAGE_SIZE;
      u := usage;
      var i := 0;
      while i < r.pagecnt
        invariant i <= r.pagecnt && forall f :: f in u <==> f in usage || first <= f < first + i
        invariant forall f :: f in u ==> u[f] == if first <= f < first + i then Free else usage[f]
      {
        u := u[first + i := Free];
        i := i + 1;
      }
      i := 0;
      while i < n
        invariant i <= n && Described(u, usage, r, i)
      {
        if i < r.pagecnt {
          u := u[first + i := Internal];
        }
        i := i + 1;
      }
    }

    /** The other pages go onto the list. */
    static method Listed(r: Region, n: nat) returns (rest: seq<nat>)
      ensures rest == Frames(r, n)
    {
      rest := [];
      var i := n;
      while i < r.pagecnt
        invariant n <= i && rest + Frames(r, i) == Frames(r, n)
      {
        assert Frames(r, i) == [r.base / PAGE_SIZE + i] + Frames(r, i + 1);
        assert rest + ([r.base / PAGE_SIZE + i] + Frames(r, i + 1)) == rest + [r.base / PAGE_SIZE + i] + Frames(r, i + 1);
        rest := rest + [r.base / PAGE_SIZE + i];
        i := i + 1;
      }
      assert Frames(r, i) == [] && rest + [] == rest;
    }
  }

  lemma {:induction false} AddedOk(regions: seq<Region>, free: seq<nat>, usage: map<nat, Usage>, u: map<nat, Usage>, r: Region, n: nat)
    requires PagesOk(regions, free, usage) && Described(u, usage, r, n)
    requires r.base % PAGE_SIZE == 0 && forall i :: 0 <= i < |regions| ==> Disjoint(regions[i], r)
    ensures PagesOk(regions + [r], free + Frames(r, n), u)
  {
    hide Distinct, Frames, InRegion;
    Outside(regions, usage.Keys, r);
    AddFrames(free, r, n);
    var all, list := regions + [r], free + Frames(r, n);
    assert RegionsOk(all);
    forall f | f in u ensures Known(all, f) {
      StillKnown(regions, r, f);
    }
    assert forall f :: f in list <==> f in free || f in Frames(r, n);
  }

  lemma {:induction false} StillKnown(regions: seq<Region>, r: Region, f: nat)
    requires Known(regions, f) || InRegion(r, f)
    ensures Known(regions + [r], f)
  {
    var all := regions + [r];
    if Known(regions, f) {
      var i :| 0 <= i < |regions| && InRegion(regions[i], f);
      assert all[i] == regions[i];
    } else {
      assert all[|regions|] == r;
    }
  }

  lemma {:induction false} AccountShift(total: int, used: int, d: int, n: nat)
    requires -1 <= d <= 1
    ensures Wrap(total - used) == n && 0 <= n - d < TWO64 ==> Wrap(total - Wrap(used + d)) == n - d
  {
  }

  lemma {:induction false} OverheadPages(length: nat)
    ensures Overhead(length) % PAGE_SIZE == 0 && Overhead(length) / PAGE_SIZE * PAGE_SIZE == Overhead(length)
    ensures length < Overhead(length) <==> length < PAGE_SIZE
    ensures length < PAGE_SIZE ==> Overhead(length) == PAGE_SIZE
    ensures Overhead(length) <= length + PAGE_SIZE
  {
  }

  lemma {:induction false} SmallLeft(length: nat, over: nat)
    requires length < TWO64 && over <= length + PAGE_SIZE
    ensures Wrap(length - over) < PAGE_SIZE * 2 <==> over <= length < over + 2 * PAGE_SIZE
  {
  }

  /** The totals after adding a region: right if and only if the descriptors fit. */
  lemma {:induction false} RegionCounts(total: int, used: int, n: nat, length: nat)
    ensures var pages, over := length / PAGE_SIZE, Overhead(length) / PAGE_SIZE;
            Wrap(total - used) == n && n + length < TWO64 ==>
              (Wrap(Wrap(total + pages) - Wrap(used + over)) == n + (if over < pages then pages - over else 0)
               <==> length >= Overhead(length))
  {
    hide Wrap, Overhead;
    var pages, over := length / PAGE_SIZE, Overhead(length) / PAGE_SIZE;
    OverheadPages(length);
    WrapDifference(total + pages, used + over);
    WrapShift(total - used, pages - over);
    assert total + pages - (used + over) == total - used + (pages - over);
    Backwards(n);
  }

  lemma {:induction false} WrapDifference(x: int, y: int)
    ensures Wrap(Wrap(x) - Wrap(y)) == Wrap(x - y)
  {
    WrapShift(x, 0 - Wrap(y));
    var q := y / TWO64;
    assert y == TWO64 * q + Wrap(y);
    var z := x - y;
    assert x - Wrap(y) == z + TWO64 * q;
    WrapMultiple(z, q);
  }

  lemma {:induction false} WrapMultiple(z: int, q: int)
    ensures Wrap(z + TWO64 * q) == Wrap(z)
  {
  }

  lemma {:induction false} Backwards(n: nat)
    ensures n < TWO64 ==> Wrap(n - 1) != n
  {
  }

  /** A new region brings frames that were not known before. */
  lemma {:induction false} Outside(regions: seq<Region>, known: set<nat>, r: Region)
    requires forall f :: f in known ==> Known(regions, f)
    requires RegionsOk(regions) && r.base % PAGE_SIZE == 0 && forall i :: 0 <= i < |regions| ==> Disjoint(regions[i], r)
    ensures forall f :: f in known ==> !InRegion(r, f)
  {
    forall f | f in known ensures !InRegion(r, f) {
      var i :| 0 <= i < |regions| && InRegion(regions[i], f);
      assert Disjoint(regions[i], r);
    }
  }

  lemma {:induction false} AddFrames(free: seq<nat>, r: Region, n: nat)
    requires Distinct(free) && forall f :: f in free ==> !InRegion(r, f)
    ensures Distinct(free + Frames(r, n))
    ensures forall f: nat :: f in Frames(r, n) <==> InRegion(r, f) && f >= r.base / PAGE_SIZE + n
  {
    var rest := Frames(r, n);
    forall i, j | 0 <= i < j < |free + rest| ensures (free + rest)[i] != (free + rest)[j] {
      if i < |free| <= j {
        assert free[i] in free;
        assert InRegion(r, rest[j - |free|]);
      }
    }
    forall f: nat | InRegion(r, f) && f >= r.base / PAGE_SIZE + n ensures f in rest {
      assert rest[f - (r.base / PAGE_SIZE + n)] == f;
    }
  }

  lemma {:induction false} FreeFront(regions: seq<Region>, free: seq<nat>, usage: map<nat, Usage>)
    requires PagesOk(regions, free, usage) && free != []
    ensures free[0] in usage && usage[free[0]] == Free
  {
  }

  lemma {:induction false} HeadOff(s: seq<nat>)
    requires Distinct(s) && s != []
    ensures Distinct(s[1..]) && forall a :: a in s[1..] <==> a in s && a != s[0]
  {
    assert s == [s[0]] + s[1..];
  }

  /** A region of half a page: its descriptors are counted, and it has no page to put them on. */
  method SmallRegionMiscounts() returns (pm: PhysicalMemory)
    ensures fresh(pm) && pm.Valid() && !pm.Accounted() && pm.freelist == [] && Wrap(pm.total - pm.used) == TWO64 - 1
  {
    pm := new PhysicalMemory();
    pm.AddRegion(0, 0x800);
    assert Overhead(0x800) == PAGE_SIZE;
    assert Frames(Region(0, 0), 1) == [];
  }
}
