/** Where a request may be placed inside one free segment. */
module SegFit {
  import opened Word64

  /** What a caller of `vmem_xalloc` asks for. */
  datatype Request = Request(size: nat, align: nat, phase: nat, minaddr: nat, maxaddr: nat)

  /** A request the allocator can be asked: a power-of-two alignment, a phase below it, 64-bit bounds. */
  ghost predicate ValidRequest(q: Request) {
    q.size > 0 && IsPow2(q.align) && q.phase < q.align && q.minaddr < TWO64 && q.maxaddr < TWO64
  }

  /** VMEM_ALIGNUP on 64-bit words; clearing the low bits of a word is subtracting its remainder. */
  function AlignUpWord(x: nat, align: nat): nat
    requires align > 0
  {
    var y := Wrap(x + align - 1);
    y - y % align
  }

  /** The candidate address `seg_fit` computes from the first usable address. */
  function Candidate(base: nat, start: nat, q: Request): nat
    requires q.align > 0
  {
    var aligned := Wrap(AlignUpWord(Wrap(start - q.phase), q.align) + q.phase);
    if aligned < base then Wrap(aligned + q.align) else aligned
  }

  /** `seg_fit`: the address chosen in [base, base + size), or None for -VMEM_ERR_NO_MEM. */
  function Fit(base: nat, size: nat, q: Request): Option<nat>
    requires q.align > 0
  {
    var start := Max(base, q.minaddr);
    var end := Min(Wrap(base + size), q.maxaddr);
    if start > end then
      None
    else
      var addr := Candidate(base, start, q);
      if addr <= end && end - addr >= q.size then Some(addr) else None
  }

  /** The meaning of a request: `addr` is inside the segment, inside the bounds, and on phase. */
  predicate Admissible(base: nat, size: nat, q: Request, addr: nat) {
    && base <= addr && addr + q.size <= base + size
    && q.minaddr <= addr && addr + q.size <= q.maxaddr
    && q.align > 0 && addr % q.align == q.phase
  }

  /** `r` is the least admissible address of the segment, or None when there is none. */
  ghost predicate IsLeast(base: nat, size: nat, q: Request, r: Option<nat>) {
    match r
    case None => forall addr :: !Admissible(base, size, q, addr)
    case Some(a) => Admissible(base, size, q, a) && forall addr :: Admissible(base, size, q, addr) ==> a <= addr
  }

  /** Rounding `start - phase` up runs past 2^64. */
  predicate WrapsAtTop(base: nat, q: Request) {
    Max(base, q.minaddr) - q.phase + q.align > TWO64
  }

  /** The address tried after such a wrap: on phase, but below the first usable address. */
  function LowAddress(base: nat, q: Request): nat {
    if q.phase < base then q.phase + q.align else q.phase
  }

  /** Without a wrap the candidate is the least address from `start` that is on phase. */
  lemma {:induction false} CandidateIsLeast(base: nat, start: nat, q: Request)
    requires ValidRequest(q) && base <= start < TWO64
    requires start - q.phase + q.align <= TWO64
    ensures var c := Candidate(base, start, q);
            start <= c < start + q.align && c < TWO64 && c % q.align == q.phase
  {
    Pow2Divides(q.align);
    if start < q.phase {
      assert Wrap(start - q.phase) == TWO64 + start - q.phase;
      var y := start - q.phase + q.align - 1;
      assert Wrap(Wrap(start - q.phase) + q.align - 1) == y by {
        assert Wrap(start - q.phase) + q.align - 1 == TWO64 + y;
      }
      SmallMod(y, q.align);
      SmallMod(q.phase, q.align);
    } else {
      var y := start - q.phase + q.align - 1;
      var low := y - y % q.align;
      assert low % q.align == 0 by { FloorIsMultiple(y, q.align); }
      assert low + q.align <= TWO64 by { MultipleBelow(low, TWO64, q.align); }
      MultipleSum(low, q.phase, q.align);
      SmallMod(q.phase, q.align);
    }
  }

  lemma {:induction false} SmallMod(x: nat, a: nat)
    requires x < a
    ensures x % a == x
  {
    ModOffset(0, x, a);
  }

  lemma {:induction false} FloorIsMultiple(y: nat, a: nat)
    requires a > 0
    ensures (y - y % a) % a == 0 && y - y % a >= 0
  {
    assert y == a * (y / a) + y % a;
    ModOffset(y / a, 0, a);
  }

  lemma {:induction false} MultipleBelow(x: nat, y: nat, a: nat)
    requires a > 0 && x % a == 0 && y % a == 0 && x < y
    ensures x + a <= y
  {
    if y < x + a {
      ModUnique(x, y, a);
      assert false;
    }
  }

  /** The wrapped candidate is the low address. */
  lemma {:induction false} CandidateAfterWrap(base: nat, q: Request)
    requires ValidRequest(q) && base < TWO64 && WrapsAtTop(base, q)
    ensures Candidate(base, Max(base, q.minaddr), q) == LowAddress(base, q)
  {
    Pow2Divides(q.align);
    var start := Max(base, q.minaddr);
    var y := start - q.phase + q.align - 1;
    assert 0 <= start - q.phase < TWO64;
    assert TWO64 <= y < TWO64 + q.align;
    assert Wrap(y) == y - TWO64;
    SmallMod(y - TWO64, q.align);
    assert q.align + q.align <= TWO64 by { HalfOfWord(q.align); }
  }

  lemma {:induction false} HalfOfWord(a: nat)
    requires IsPow2(a)
    ensures a + a <= TWO64
  {
    var k: nat :| k < 64 && a == Pow2(k);
    Pow2Monotone(k, 63);
    Pow2Of64();
  }

  /** Nothing is admissible in a segment whose rounding wraps. */
  lemma {:induction false} NothingAfterWrap(base: nat, size: nat, q: Request, addr: nat)
    requires ValidRequest(q) && base + size <= TWO64 && WrapsAtTop(base, q)
    ensures !Admissible(base, size, q, addr)
  {
    hide IsPow2;
    if Admissible(base, size, q, addr) {
      Pow2Divides(q.align);
      LessPhase(addr, q.phase, q.align);
      MultipleBelow(addr - q.phase, TWO64, q.align);
      assert false;
    }
  }

  lemma {:induction false} LessPhase(addr: nat, phase: nat, align: nat)
    requires align > 0 && addr % align == phase
    ensures phase <= addr && (addr - phase) % align == 0
  {
    var m := addr / align;
    assert addr == align * m + phase;
    assert align * m >= 0;
    ModOffset(m, 0, align);
  }

  /** The first address from `start` on that is on phase. */
  function OnPhase(start: nat, q: Request): nat
    requires q.align > 0
  {
    start + (q.phase - start) % q.align
  }

  lemma {:induction false} OnPhaseIs(start: nat, q: Request, c: nat)
    requires q.align > 0 && start <= c < start + q.align && c % q.align == q.phase
    ensures OnPhase(start, q) == c
  {
    var m, n := c / q.align, (q.phase - start) / q.align;
    assert c == q.align * m + q.phase;
    assert q.phase - start == q.align * n + (q.phase - start) % q.align;
    assert q.align * (-m) == -(q.align * m);
    Scaled(q.align, n, -m, (q.phase - start) % q.align - (c - start));
  }

  /** The wrapped fallback is taken: an address below the segment is accepted. */
  predicate Leaves(base: nat, size: nat, q: Request) {
    && WrapsAtTop(base, q)
    && Max(base, q.minaddr) <= Min(Wrap(base + size), q.maxaddr)
    && LowAddress(base, q) + q.size <= Min(Wrap(base + size), q.maxaddr)
  }

  /** The segment ends at 2^64, which is 0 in a word, although an address would be admissible. */
  predicate Misses(base: nat, size: nat, q: Request)
    requires q.align > 0
  {
    base + size == TWO64 && !WrapsAtTop(base, q) && OnPhase(Max(base, q.minaddr), q) + q.size <= q.maxaddr
  }

  /** `seg_fit` answers with the least admissible address exactly when it neither leaves nor misses the segment. */
  lemma {:induction false} FitIsLeastIff(base: nat, size: nat, q: Request)
    requires ValidRequest(q) && base < TWO64 && size < TWO64 && base + size <= TWO64 && q.align > 0
    ensures IsLeast(base, size, q, Fit(base, size, q)) <==> !Leaves(base, size, q) && !Misses(base, size, q)
  {
    hide IsPow2, OnPhase;
    var start := Max(base, q.minaddr);
    if WrapsAtTop(base, q) {
      CandidateAfterWrap(base, q);
      forall addr: nat ensures !Admissible(base, size, q, addr) {
        NothingAfterWrap(base, size, q, addr);
      }
    } else {
      CandidateIsLeast(base, start, q);
      var c := Candidate(base, start, q);
      OnPhaseIs(start, q, c);
      forall addr: nat | Admissible(base, size, q, addr) ensures c <= addr {
        if addr < c { ModUnique(addr, c, q.align); }
      }
      assert base + size == TWO64 && c + q.size <= q.maxaddr ==> Admissible(base, size, q, c);
    }
  }

  /** A segment near the top of the address space for which `seg_fit` leaves the segment. */
  lemma {:induction false} FitCanLeaveTheSegment()
    ensures var q := Request(0x1000, 0x4000_0000_0000_0000, 0, 0, TWO64 - 1);
            && ValidRequest(q)
            && Fit(TWO64 - 0x4000, 0x2000, q) == Some(0x4000_0000_0000_0000)
            && !Admissible(TWO64 - 0x4000, 0x2000, q, 0x4000_0000_0000_0000)
  {
    var q := Request(0x1000, 0x4000_0000_0000_0000, 0, 0, TWO64 - 1);
    assert q.align == Pow2(62) by { Pow2Of64(); }
    CandidateAfterWrap(TWO64 - 0x4000, q);
  }

  /** A free segment at the very top of the address space that `seg_fit` refuses although it fits. */
  lemma {:induction false} FitCanMissTheSegment()
    ensures var q := Request(0x1000, 0x1000, 0, 0, TWO64 - 1);
            && ValidRequest(q)
            && Fit(TWO64 - 0x2000, 0x2000, q) == None
            && Admissible(TWO64 - 0x2000, 0x2000, q, TWO64 - 0x2000)
  {
    assert Pow2(8) == 256 by { Pow2Plus8(0); }
    assert Pow2(12) == 0x1000 by { assert Pow2(10) == 4 * Pow2(8); }
  }
}
