/**
 Slab caches: runs of pages cut into chunks of one size. A slab of small chunks keeps its header
 in the last bytes of its page; a slab of larger chunks keeps a descriptor per chunk elsewhere.
 */
module Slab {
  import opened Sequences
  import opened Word64

  const PAGE: nat := 4096
  const HEADER: nat := 48
  const SMALL_MAX: nat := 256
  const KMEM_ALIGN: nat := 8
  const SECOND_ALIGN: nat := 16
  const MAX_PAGES: nat := 8

  // ---------------------------------------------------------------------------
  // Geometry

  datatype Geometry = Geometry(align: nat, chunk: nat, cap: nat, pages: nat)

  function AlignUp(x: nat, a: nat): nat
    requires a > 0
  {
    (x + a - 1) / a * a
  }

  lemma {:induction false} AlignUpLeast(x: nat, a: nat)
    requires a > 0
    ensures AlignUp(x, a) % a == 0 && x <= AlignUp(x, a) < x + a
  {
    var k, r := (x + a - 1) / a, (x + a - 1) % a;
    assert x + a - 1 == a * k + r;
    MultipleMod(k, a);
    assert k * a == a * k;
  }

  function EffectiveAlign(bufsize: nat, align: nat): (a: nat)
    requires align == 0 || IsPow2(align)
    ensures a > 0
  {
    if align == 0 then (if AlignUp(bufsize, KMEM_ALIGN) >= SECOND_ALIGN then SECOND_ALIGN else KMEM_ALIGN)
    else if align < KMEM_ALIGN then KMEM_ALIGN
    else align
  }

  /** Powers of two that divide one another: the larger is a multiple of the smaller. */
  lemma {:induction false} LargerPower(a: nat, b: nat)
    requires IsPow2(a) && IsPow2(b) && a <= b
    ensures b % a == 0
  {
    var m: nat :| m < 64 && a == Pow2(m);
    var n: nat :| n < 64 && b == Pow2(n);
    if n < m {
      Pow2Monotone(n + 1, m);
      assert false;
    }
    Pow2DividesPow2(m, n);
  }

  /** The alignment is the one asked for, raised to 8; without one it is 16 for everything above 8 bytes. */
  lemma {:induction false} AlignmentIs(bufsize: nat, align: nat)
    requires bufsize != 0 && (align == 0 || IsPow2(align))
    ensures var a := EffectiveAlign(bufsize, align);
            && a == (if align > 0 then Max(align, 8) else if bufsize > 8 then 16 else 8)
            && IsPow2(a) && a % 8 == 0 && (align > 0 ==> a % align == 0)
  {
    hide IsPow2;
    var a := EffectiveAlign(bufsize, align);
    AlignUpLeast(bufsize, KMEM_ALIGN);
    EightAndSixteen();
    LargerPower(8, a);
    if align > 0 {
      LargerPower(align, a);
    }
  }

  lemma {:induction false} EightAndSixteen()
    ensures IsPow2(8) && IsPow2(16)
  {
    assert Pow2(3) == 8 && Pow2(4) == 16;
  }

  /** What allocation and freeing rely on: the chunks fit their pages, and small ones leave room for the header. */
  ghost predicate Sound(g: Geometry) {
    && 0 < g.chunk && 0 < g.pages && g.cap * g.chunk <= g.pages * PAGE
    && (g.chunk <= SMALL_MAX ==> g.pages == 1 && g.cap * g.chunk <= PAGE - HEADER)
    && 0 < g.align && g.chunk % g.align == 0
  }

  /** How many chunks fit into so many pages. */
  function Fit(pages: nat, chunk: nat): nat
    requires chunk > 0
  {
    pages * PAGE / chunk
  }

  /** The sizes `kmem_cache_create` settles on; none if no slab of up to eight pages holds sixteen chunks. */
  method Plan(bufsize: nat, align: nat) returns (g: Option<Geometry>)
    requires bufsize != 0 && (align == 0 || IsPow2(align))
    ensures g.None? <==> bufsize > SMALL_MAX && AlignUp(bufsize, if align == 0 then 16 else Max(align, 8)) > 2048
    ensures g.Some? ==> Sound(g.value) && bufsize <= g.value.chunk < bufsize + g.value.align
    ensures g.Some? && align == 0 ==> g.value.align == if bufsize > 8 then 16 else 8
    ensures g.Some? && align > 0 ==> g.value.align == Max(align, 8)
    ensures g.Some? ==> IsPow2(g.value.align) && g.value.align % 8 == 0 && (align > 0 ==> g.value.align % align == 0)
    ensures g.Some? && bufsize > SMALL_MAX ==>
              && g.value.cap >= 16 && g.value.pages <= MAX_PAGES
              && forall p: nat :: 0 < p < g.value.pages ==> Fit(p, g.value.chunk) < 16
    ensures g.Some? && bufsize <= SMALL_MAX ==> g.value.pages == 1 && g.value.cap == (PAGE - HEADER) / g.value.chunk
  {
    hide AlignUp, EffectiveAlign, Fit, IsPow2;
    var a := EffectiveAlign(bufsize, align);
    AlignmentIs(bufsize, align);
    AlignUpLeast(bufsize, a);
    var chunk := AlignUp(bufsize, a);
    if bufsize <= SMALL_MAX {
      SmallFits(chunk);
      return Some(Geometry(a, chunk, (PAGE - HEADER) / chunk, 1));
    }
    var pages := 1;
    while pages < MAX_PAGES + 1
      invariant 1 <= pages <= MAX_PAGES + 1
      invariant forall p: nat :: 0 < p < pages ==> Fit(p, chunk) < 16
    {
      var cap := Fit(pages, chunk);
      if cap >= 16 {
        Sixteen(pages, chunk);
        return Some(Geometry(a, chunk, cap, pages));
      }
      pages := pages + 1;
    }
    assert Fit(8, chunk) < 16;
    TooLarge(chunk);
    g := None;
  }

  lemma {:induction false} SmallFits(chunk: nat)
    requires chunk > 0
    ensures (PAGE - HEADER) / chunk * chunk <= PAGE - HEADER
  {
    QuotientFits(PAGE - HEADER, chunk);
  }

  lemma {:induction false} QuotientFits(x: nat, c: nat)
    requires c > 0
    ensures x / c * c <= x
  {
    assert x == c * (x / c) + x % c;
  }

  lemma {:induction false} QuotientBelow(x: nat, c: nat, n: nat)
    requires c > 0
    ensures x / c < n <==> x < c * n
  {
    var q := x / c;
    assert x == c * q + x % c;
    assert c * n == c * q + c * (n - q);
    if q < n {
      MulAtLeast(c, n - q);
    } else if n < q {
      MulAtLeast(c, n - q);
    }
  }

  lemma {:induction false} Sixteen(pages: nat, chunk: nat)
    requires 0 < pages <= MAX_PAGES && chunk > 0 && Fit(pages, chunk) >= 16
    ensures chunk <= 2048 && Fit(pages, chunk) * chunk <= pages * PAGE
  {
    QuotientFits(pages * PAGE, chunk);
    QuotientBelow(pages * PAGE, chunk, 16);
  }

  lemma {:induction false} TooLarge(chunk: nat)
    requires chunk > 0 && Fit(8, chunk) < 16
    ensures chunk > 2048
  {
    QuotientBelow(8 * PAGE, chunk, 16);
  }

  // ---------------------------------------------------------------------------
  // Chunks

  ghost predicate IsChunk(g: Geometry, base: nat, a: nat)
    requires g.chunk > 0
  {
    base <= a && (a - base) % g.chunk == 0 && a + g.chunk <= base + g.cap * g.chunk
  }

  /** The first `n` chunks of a slab. */
  ghost function Chunks(base: nat, chunk: nat, n: nat): set<nat> {
    if n == 0 then {} else Chunks(base, chunk, n - 1) + {base + (n - 1) * chunk}
  }

  lemma {:induction false} ChunkMember(base: nat, chunk: nat, n: nat, a: nat)
    requires chunk > 0
    ensures a in Chunks(base, chunk, n) <==> base <= a && (a - base) % chunk == 0 && a + chunk <= base + n * chunk
  {
    if n > 0 {
      ChunkMember(base, chunk, n - 1, a);
      assert n * chunk == (n - 1) * chunk + chunk;
      var last := base + (n - 1) * chunk;
      if a == last {
        MultipleMod(n - 1, chunk);
        assert (n - 1) * chunk == chunk * (n - 1);
      } else if base <= a && (a - base) % chunk == 0 && a < last {
        MultipleMod(n - 1, chunk);
        assert (n - 1) * chunk == chunk * (n - 1);
        Gap(a - base, last - base, chunk);
      }
    }
  }

  lemma {:induction false} Gap(x: nat, y: nat, c: nat)
    requires c > 0 && x % c == 0 && y % c == 0 && x < y
    ensures x + c <= y
  {
    if y < x + c {
      ModUnique(x, y, c);
      assert false;
    }
  }

  lemma {:induction false} NextChunkNew(base: nat, chunk: nat, n: nat)
    requires chunk > 0
    ensures base + n * chunk !in Chunks(base, chunk, n)
  {
    hide Chunks;
    ChunkMember(base, chunk, n, base + n * chunk);
  }

  lemma {:induction false} ChunkCount(base: nat, chunk: nat, n: nat)
    requires chunk > 0
    ensures |Chunks(base, chunk, n)| == n
  {
    if n > 0 {
      ChunkCount(base, chunk, n - 1);
      var last := base + (n - 1) * chunk;
      NextChunkNew(base, chunk, n - 1);
      OneMore(Chunks(base, chunk, n - 1), last);
    }
  }

  lemma {:induction false} OneMore(s: set<nat>, x: nat)
    requires x !in s
    ensures |s + {x}| == |s| + 1
  {
  }

  /** Different chunks do not overlap. */
  lemma {:induction false} ChunksApart(g: Geometry, base: nat, a: nat, b: nat)
    requires g.chunk > 0 && IsChunk(g, base, a) && IsChunk(g, base, b) && a < b
    ensures a + g.chunk <= b
  {
    Gap(a - base, b - base, g.chunk);
  }

  /** A chunk of a page-aligned slab is aligned, as long as the page is. */
  lemma {:induction false} ChunkAligned(g: Geometry, base: nat, a: nat)
    requires Sound(g) && base % PAGE == 0 && PAGE % g.align == 0 && IsChunk(g, base, a)
    ensures a % g.align == 0
  {
    MultipleTransitive(base, PAGE, g.align);
    MultipleTransitive(a - base, g.chunk, g.align);
    MultipleSum(base, a - base, g.align);
  }

  /** Where `kmem_cache_free` looks for the header of the slab a small chunk lies in. */
  function HeaderOf(a: nat): int {
    AlignUp(a + 1, PAGE) - HEADER
  }

  lemma {:induction false} HeaderFound(g: Geometry, base: nat, a: nat)
    requires Sound(g) && g.chunk <= SMALL_MAX && base % PAGE == 0 && IsChunk(g, base, a)
    ensures HeaderOf(a) == base + PAGE - HEADER && a + g.chunk <= HeaderOf(a)
  {
    AlignUpLeast(a + 1, PAGE);
  }

  // ---------------------------------------------------------------------------
  // Free lists

  lemma {:induction false} DistinctCount(s: seq<nat>)
    requires Distinct(s)
    ensures |Elements(s)| == |s|
  {
    if s != [] {
      var t := s[1..];
      DistinctCount(t);
      assert s == [s[0]] + t;
      assert Elements(s) == Elements(t) + {s[0]};
      assert s[0] !in t;
    }
  }

  lemma {:induction false} ChunksAre(g: Geometry, base: nat)
    requires g.chunk > 0
    ensures forall a: nat :: a in Chunks(base, g.chunk, g.cap) <==> IsChunk(g, base, a)
  {
    hide Chunks;
    forall a: nat ensures a in Chunks(base, g.chunk, g.cap) <==> IsChunk(g, base, a) {
      ChunkMember(base, g.chunk, g.cap, a);
    }
  }

  /** A free list of all the chunks there are, or of fewer. */
  lemma {:induction false} FullFreelist(g: Geometry, base: nat, free: seq<nat>)
    requires g.chunk > 0 && Distinct(free) && |free| <= g.cap && forall a: nat :: a in free ==> IsChunk(g, base, a)
    ensures |free| == g.cap ==> forall a: nat :: IsChunk(g, base, a) ==> a in free
    ensures |free| < g.cap ==> exists a: nat :: IsChunk(g, base, a) && a !in free
  {
    hide IsChunk, Chunks, Distinct;
    var all, some := Chunks(base, g.chunk, g.cap), Elements(free);
    ChunkCount(base, g.chunk, g.cap);
    ChunksAre(g, base);
    DistinctCount(free);
    assert some <= all;
    if |free| == g.cap {
      if some < all {
        Proper(some, all);
        assert false;
      }
    } else {
      if all - some == {} {
        NothingMore(some, all);
        assert false;
      }
      var a :| a in all - some;
    }
  }

  lemma {:induction false} NothingMore(a: set<nat>, b: set<nat>)
    requires a <= b && b - a == {}
    ensures a == b
  {
    assert b == a + (b - a);
  }

  lemma {:induction false} Proper(a: set<nat>, b: set<nat>)
    requires a < b
    ensures |a| < |b|
  {
    assert |b - a| > 0;
    assert b == a + (b - a);
  }
}
