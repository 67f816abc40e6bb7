/**
 Four-level page tables as the processor reads them (section 4.5 of the Intel SDM, volume 3A),
 and the invariant that makes an update of one entry local.
 */
module Paging {
  import opened Word64

  const PAGE := 0x1000
  const MEGA2 := 0x20_0000
  const GIGA := 0x4000_0000
  const GIGA512 := 0x80_0000_0000
  const SPACE: nat := 0x1_0000_0000_0000

  /** A page-table entry. `large` is bit 7: the page-size bit above the last level, PAT in it. */
  datatype Entry = Entry(present: bool, write: bool, user: bool, pwt: bool, pcd: bool, large: bool,
                         global_: bool, noExecute: bool, address: nat)

  const EMPTY := Entry(false, false, false, false, false, false, false, false, 0)

  /** The entry as the processor stores it. The bits for accessed and dirty are left out. */
  function Word(e: Entry): nat {
    (if e.present then 0x1 else 0) + (if e.write then 0x2 else 0) + (if e.user then 0x4 else 0)
    + (if e.pwt then 0x8 else 0) + (if e.pcd then 0x10 else 0) + (if e.large then 0x80 else 0)
    + (if e.global_ then 0x100 else 0) + e.address + if e.noExecute then 0x8000_0000_0000_0000 else 0
  }

  /** How much one entry of a table of this level covers. */
  function Span(level: nat): (s: nat)
    ensures s > 0
  {
    if level == 0 then PAGE else if level == 1 then MEGA2 else if level == 2 then GIGA else GIGA512
  }

  /** INDEX(addr, level). */
  function Index(va: nat, level: nat): (i: nat)
    ensures i < 512
  {
    (va / Span(level)) % 512
  }

  /** What a mapping allows, and the three bits that select its memory type. */
  datatype Rights = Rights(write: bool, user: bool, global_: bool, noExecute: bool, pat: bool, pcd: bool, pwt: bool)

  /** The entry of the page attribute table that the three bits select. */
  function PatIndex(g: Rights): nat {
    (if g.pat then 4 else 0) + (if g.pcd then 2 else 0) + (if g.pwt then 1 else 0)
  }

  /** Where an address leads, and with what rights. */
  datatype Hit = Hit(pa: nat, rights: Rights)

  /** The rights of an entry that maps a page. Bit 7 is PAT in the last level only; above it PAT is bit 12, which is clear. */
  function LeafRights(e: Entry, level: nat): Rights {
    Rights(e.write, e.user, e.global_, e.noExecute, level == 0 && e.large, e.pcd, e.pwt)
  }

  /** What an entry on the way leaves of the rights below it. */
  function Through(e: Entry, h: Hit): Hit {
    Hit(h.pa, h.rights.(write := h.rights.write && e.write, user := h.rights.user && e.user,
                        noExecute := h.rights.noExecute || e.noExecute))
  }

  type Memory = map<nat, seq<Entry>>

  /** An entry that maps a page rather than pointing to a table. */
  predicate MapsPage(e: Entry, level: nat) {
    level == 0 || (e.large && level <= 2)
  }

  function FrameOf(address: nat): nat { address / PAGE }

  // ---------------------------------------------------------------------------
  // The invariant

  /** The addresses a table is responsible for. */
  datatype Range = Range(level: nat, base: nat)

  type Cover = map<nat, Range>

  ghost predicate InRange(va: nat, r: Range) {
    r.base <= va < r.base + 512 * Span(r.level)
  }

  ghost function SlotRange(r: Range, i: nat): Range
    requires r.level > 0
  {
    Range(r.level - 1, r.base + i * Span(r.level))
  }

  /** What an entry of a table responsible for `r` may hold. */
  ghost predicate EntryOk(e: Entry, r: Range, i: nat, cover: Cover) {
    && e.address % PAGE == 0
    && (e.present && MapsPage(e, r.level) ==> e.address % Span(r.level) == 0)
    && (e.present && !MapsPage(e, r.level) ==>
          && e.write && e.user && !e.noExecute
          && FrameOf(e.address) in cover && cover[FrameOf(e.address)] == SlotRange(r, i))
    && (r.level == 3 ==> !e.large)
  }

  ghost predicate TableOk(t: nat, mem: Memory, cover: Cover) {
    && t in cover && t in mem && |mem[t]| == 512
    && cover[t].level <= 3 && cover[t].base % (512 * Span(cover[t].level)) == 0
    && forall i :: 0 <= i < 512 ==> EntryOk(mem[t][i], cover[t], i, cover)
  }

  ghost predicate AllTables(mem: Memory, cover: Cover) {
    forall t :: t in cover ==> TableOk(t, mem, cover)
  }

  /** Every table has one place in the address space, and points to the tables of its own slots. */
  ghost predicate TablesOk(mem: Memory, root: nat, cover: Cover) {
    root in cover && cover[root] == Range(3, 0) && AllTables(mem, cover)
  }

  // ---------------------------------------------------------------------------
  // The processor's walk

  ghost function Walk(mem: Memory, cover: Cover, t: nat, va: nat): Option<Hit>
    requires t in cover && AllTables(mem, cover)
    decreases cover[t].level
  {
    assert TableOk(t, mem, cover);
    var l := cover[t].level;
    var e := mem[t][Index(va, l)];
    assert EntryOk(e, cover[t], Index(va, l), cover);
    if !e.present then None
    else if MapsPage(e, l) then Some(Hit(e.address + va % Span(l), LeafRights(e, l)))
    else
      match Walk(mem, cover, FrameOf(e.address), va)
      case None => None
      case Some(h) => Some(Through(e, h))
  }

  /** The translation of a 48-bit virtual address. */
  ghost function Translate(mem: Memory, root: nat, cover: Cover, va: nat): Option<Hit>
    requires TablesOk(mem, root, cover)
  {
    Walk(mem, cover, root, va)
  }

  /** No large page is met above `level` on the way to `va`. */
  ghost predicate NoLarge(mem: Memory, cover: Cover, t: nat, va: nat, level: nat)
    requires t in cover && AllTables(mem, cover)
    decreases cover[t].level
  {
    assert TableOk(t, mem, cover);
    var l := cover[t].level;
    var e := mem[t][Index(va, l)];
    assert EntryOk(e, cover[t], Index(va, l), cover);
    l <= level || !e.present || (!MapsPage(e, l) && NoLarge(mem, cover, FrameOf(e.address), va, level))
  }

  // ---------------------------------------------------------------------------
  // Indices and ranges

  /** A multiple of 512 * s, as a multiple of s. */
  lemma {:induction false} BaseOf(base: nat, s: nat) returns (q: nat)
    requires s > 0 && base % (512 * s) == 0
    ensures base == s * (512 * q)
  {
    q := base / (512 * s);
    assert base == (512 * s) * q;
    assert (512 * s) * q == s * (512 * q);
  }

  lemma {:induction false} SlotForward(va: nat, q: nat, s: nat, i: nat)
    requires s > 0 && i < 512 && s * (512 * q) + i * s <= va < s * (512 * q) + (i + 1) * s
    ensures (va / s) % 512 == i
  {
    var k := 512 * q + i;
    assert s * k == s * (512 * q) + i * s;
    assert s * k + s == s * (512 * q) + (i + 1) * s;
    DivUnique(va, s, k);
  }

  lemma {:induction false} SlotBackward(va: nat, q: nat, s: nat)
    requires s > 0 && s * (512 * q) <= va < s * (512 * q) + 512 * s
    ensures var i := (va / s) % 512; s * (512 * q) + i * s <= va < s * (512 * q) + (i + 1) * s
  {
    var d := va - s * (512 * q);
    var i := d / s;
    assert d == s * i + d % s;
    assert i < 512 by {
      if i >= 512 { MulAtLeast(s, i - 511); assert false; }
    }
    assert s * i == i * s && (i + 1) * s == s * i + s;
    SlotForward(va, q, s, i);
  }

  lemma {:induction false} SlotOf(va: nat, r: Range)
    requires r.base % (512 * Span(r.level)) == 0 && InRange(va, r)
    ensures var i := Index(va, r.level); r.base + i * Span(r.level) <= va < r.base + (i + 1) * Span(r.level)
  {
    var q := BaseOf(r.base, Span(r.level));
    SlotBackward(va, q, Span(r.level));
  }

  lemma {:induction false} SlotUnique(va: nat, r: Range, i: nat)
    requires r.base % (512 * Span(r.level)) == 0 && i < 512
    requires r.base + i * Span(r.level) <= va < r.base + (i + 1) * Span(r.level)
    ensures Index(va, r.level) == i && InRange(va, r)
  {
    var q := BaseOf(r.base, Span(r.level));
    SlotForward(va, q, Span(r.level), i);
    var s := Span(r.level);
    assert i * s >= 0 && (i + 1) * s <= 512 * s by { assert 512 * s - (i + 1) * s == (511 - i) * s; }
  }

  lemma {:induction false} SpanStep(level: nat)
    requires 0 < level <= 3
    ensures Span(level) == 512 * Span(level - 1)
  {
  }

  lemma {:induction false} SlotInside(va: nat, r: Range)
    requires 0 < r.level <= 3 && r.base % (512 * Span(r.level)) == 0 && InRange(va, r)
    ensures var s := SlotRange(r, Index(va, r.level)); InRange(va, s) && s.base % (512 * Span(s.level)) == 0
  {
    hide Span, Index;
    var i, s := Index(va, r.level), Span(r.level);
    SlotOf(va, r);
    SpanStep(r.level);
    MultipleMod(i, s);
    MultipleTransitive(r.base, 512 * s, s) by { MultipleMod(512, s); }
    MultipleSum(r.base, s * i, s);
  }

  // ---------------------------------------------------------------------------
  // Writing one entry

  ghost function Written(mem: Memory, t: nat, i: nat, e: Entry): Memory
    requires t in mem && i < |mem[t]|
  {
    mem[t := mem[t][i := e]]
  }

  /** `va` goes through slot `i` of table `t`. */
  ghost predicate InSlot(va: nat, r: Range, i: nat) {
    r.base + i * Span(r.level) <= va < r.base + (i + 1) * Span(r.level)
  }

  lemma {:induction false} WrittenOk(mem: Memory, cover: Cover, t: nat, i: nat, e: Entry)
    requires AllTables(mem, cover) && t in cover && i < 512 && t in mem && i < |mem[t]|
    requires EntryOk(e, cover[t], i, cover)
    ensures AllTables(Written(mem, t, i, e), cover)
  {
    var mem1 := Written(mem, t, i, e);
    forall u | u in cover ensures TableOk(u, mem1, cover) {
      assert TableOk(u, mem, cover);
    }
  }

  /** Addresses that do not go through the slot keep their translation. */
  lemma {:induction false} WrittenOutside(mem: Memory, cover: Cover, t: nat, i: nat, e: Entry, u: nat, va: nat, level: nat)
    requires AllTables(mem, cover) && t in cover && i < 512 && t in mem && i < |mem[t]|
    requires EntryOk(e, cover[t], i, cover) && AllTables(Written(mem, t, i, e), cover)
    requires u in cover && InRange(va, cover[u]) && !InSlot(va, cover[t], i)
    ensures Walk(Written(mem, t, i, e), cover, u, va) == Walk(mem, cover, u, va)
    ensures NoLarge(Written(mem, t, i, e), cover, u, va, level) == NoLarge(mem, cover, u, va, level)
    decreases cover[u].level
  {
    hide Span, Index, InSlot, InRange;
    var mem1 := Written(mem, t, i, e);
    assert TableOk(u, mem, cover) && TableOk(u, mem1, cover);
    var l := cover[u].level;
    var j := Index(va, l);
    assert InSlot(va, cover[u], j) by { InOwnSlot(va, cover[u]); }
    assert mem1[u][j] == mem[u][j];
    var d := mem[u][j];
    assert EntryOk(d, cover[u], j, cover);
    if d.present && !MapsPage(d, l) {
      SlotInside(va, cover[u]);
      WrittenOutside(mem, cover, t, i, e, FrameOf(d.address), va, level);
    }
  }

  lemma {:induction false} InOwnSlot(va: nat, r: Range)
    requires r.base % (512 * Span(r.level)) == 0 && InRange(va, r)
    ensures InSlot(va, r, Index(va, r.level))
  {
    SlotOf(va, r);
  }

  // ---------------------------------------------------------------------------
  // Which table an address reaches

  ghost predicate Reaches(mem: Memory, cover: Cover, u: nat, va: nat, t: nat)
    requires u in cover && AllTables(mem, cover)
    decreases cover[u].level
  {
    assert TableOk(u, mem, cover);
    var l := cover[u].level;
    var e := mem[u][Index(va, l)];
    assert EntryOk(e, cover[u], Index(va, l), cover);
    u == t || (e.present && !MapsPage(e, l) && Reaches(mem, cover, FrameOf(e.address), va, t))
  }

  /** A reached table is responsible for the address. */
  lemma {:induction false} ReachedRange(mem: Memory, cover: Cover, u: nat, va: nat, t: nat)
    requires AllTables(mem, cover) && u in cover && InRange(va, cover[u]) && Reaches(mem, cover, u, va, t)
    ensures t in cover && InRange(va, cover[t]) && cover[t].level <= cover[u].level
    ensures cover[u].base <= cover[t].base && cover[t].base + 512 * Span(cover[t].level) <= cover[u].base + 512 * Span(cover[u].level)
    decreases cover[u].level
  {
    hide Index, InSlot;
    if u != t {
      assert TableOk(u, mem, cover);
      var l := cover[u].level;
      var i := Index(va, l);
      var e := mem[u][i];
      assert EntryOk(e, cover[u], i, cover);
      SlotInside(va, cover[u]);
      ReachedRange(mem, cover, FrameOf(e.address), va, t);
      SpanStep(l);
      SlotWithin(cover[u].base, Span(l), i);
    }
  }

  lemma {:induction false} SlotWithin(base: nat, s: nat, i: nat)
    requires i < 512
    ensures base <= base + i * s && base + i * s + s <= base + 512 * s
  {
    assert 512 * s - (i * s + s) == (511 - i) * s;
    assert i * s >= 0 && (511 - i) * s >= 0;
  }

  /** All addresses a table is responsible for reach it, if one does. */
  lemma {:induction false} ReachTogether(mem: Memory, cover: Cover, u: nat, va: nat, t: nat, x: nat)
    requires AllTables(mem, cover) && u in cover && InRange(va, cover[u]) && Reaches(mem, cover, u, va, t)
    requires t in cover && InRange(x, cover[t])
    ensures InRange(x, cover[u]) && Reaches(mem, cover, u, x, t)
    decreases cover[u].level
  {
    hide Index, InSlot;
    ReachedRange(mem, cover, u, va, t);
    if u != t {
      assert TableOk(u, mem, cover);
      var l := cover[u].level;
      var i := Index(va, l);
      var e := mem[u][i];
      assert EntryOk(e, cover[u], i, cover);
      SlotInside(va, cover[u]);
      var f := FrameOf(e.address);
      ReachTogether(mem, cover, f, va, t, x);
      SpanStep(l);
      assert Index(x, l) == i by { SlotNext(x, cover[u], i); }
    }
  }

  lemma {:induction false} SlotNext(x: nat, r: Range, i: nat)
    requires 0 < r.level <= 3 && r.base % (512 * Span(r.level)) == 0 && i < 512 && InRange(x, SlotRange(r, i))
    ensures Index(x, r.level) == i
  {
    SpanStep(r.level);
    var s := Span(r.level);
    assert (i + 1) * s == i * s + s;
    SlotUnique(x, r, i);
  }

  /** The translation of an address is decided by any table it reaches. */
  lemma {:induction false} WalkFrom(mem: Memory, cover: Cover, u: nat, va: nat, t: nat, level: nat)
    requires AllTables(mem, cover) && u in cover && t in cover && Reaches(mem, cover, u, va, t)
    ensures Walk(mem, cover, u, va) == Walk(mem, cover, t, va)
    ensures NoLarge(mem, cover, t, va, level) ==> NoLarge(mem, cover, u, va, level)
    ensures level < cover[t].level ==> NoLarge(mem, cover, u, va, level) ==> NoLarge(mem, cover, t, va, level)
    decreases cover[u].level
  {
    hide Index, Span;
    if u != t {
      assert TableOk(u, mem, cover);
      var l := cover[u].level;
      var i := Index(va, l);
      var e := mem[u][i];
      assert EntryOk(e, cover[u], i, cover);
      WalkFrom(mem, cover, FrameOf(e.address), va, t, level);
    }
  }

  /** Writing an entry of `t` does not change which addresses reach `t`. */
  lemma {:induction false} WrittenReach(mem: Memory, cover: Cover, t: nat, i: nat, e: Entry, u: nat, va: nat)
    requires AllTables(mem, cover) && t in cover && i < 512 && t in mem && i < |mem[t]|
    requires AllTables(Written(mem, t, i, e), cover) && u in cover && Reaches(mem, cover, u, va, t)
    ensures Reaches(Written(mem, t, i, e), cover, u, va, t)
    decreases cover[u].level
  {
    hide Index, Span;
    if u != t {
      assert TableOk(u, mem, cover);
      var l := cover[u].level;
      var d := mem[u][Index(va, l)];
      assert EntryOk(d, cover[u], Index(va, l), cover);
      WrittenReach(mem, cover, t, i, e, FrameOf(d.address), va);
    }
  }

  /** Addresses that go through the written slot are translated by the new entry. */
  lemma {:induction false} WrittenInside(mem: Memory, cover: Cover, t: nat, i: nat, e: Entry, u: nat, va: nat, x: nat)
    requires AllTables(mem, cover) && t in cover && i < 512 && t in mem && i < |mem[t]|
    requires EntryOk(e, cover[t], i, cover) && AllTables(Written(mem, t, i, e), cover)
    requires u in cover && InRange(va, cover[u]) && Reaches(mem, cover, u, va, t)
    requires InSlot(x, cover[t], i) && (!e.present || MapsPage(e, cover[t].level))
    ensures Walk(Written(mem, t, i, e), cover, u, x)
            == if e.present then Some(Hit(e.address + x % Span(cover[t].level), LeafRights(e, cover[t].level))) else None
  {
    hide Index, Span;
    var mem1 := Written(mem, t, i, e);
    assert TableOk(t, mem, cover) && TableOk(t, mem1, cover);
    SlotUnique(x, cover[t], i);
    ReachTogether(mem, cover, u, va, t, x);
    WrittenReach(mem, cover, t, i, e, u, x);
    WalkFrom(mem1, cover, u, x, t, 0);
  }

  // ---------------------------------------------------------------------------
  // Adding a table

  /** The entry `pte_walk` writes for a new table. */
  function TableEntry(f: nat): Entry {
    Entry(true, true, true, false, false, false, false, false, f * PAGE)
  }

  /** Present, writable, for users: what lies below decides. */
  lemma {:induction false} TableBits(f: nat)
    ensures Word(TableEntry(f)) == f * PAGE + 0x7
  {
  }

  ghost function Extended(mem: Memory, t: nat, i: nat, f: nat): Memory
    requires t in mem && i < |mem[t]| && f != t
  {
    Written(mem[f := seq(512, _ => EMPTY)], t, i, TableEntry(f))
  }

  ghost predicate Extensible(mem: Memory, cover: Cover, t: nat, i: nat, f: nat) {
    && AllTables(mem, cover) && t in cover && 0 < cover[t].level && i < 512 && t in mem && i < |mem[t]|
    && !mem[t][i].present && f !in cover && f != t
  }

  ghost function ExtendedCover(cover: Cover, t: nat, i: nat, f: nat): Cover
    requires t in cover && cover[t].level > 0
  {
    cover[f := SlotRange(cover[t], i)]
  }

  lemma {:induction false} ExtendedOk(mem: Memory, cover: Cover, t: nat, i: nat, f: nat)
    requires Extensible(mem, cover, t, i, f)
    ensures AllTables(Extended(mem, t, i, f), ExtendedCover(cover, t, i, f))
  {
    var mem1, cover1 := Extended(mem, t, i, f), ExtendedCover(cover, t, i, f);
    assert TableOk(t, mem, cover);
    SlotAligned(cover[t], i);
    forall u | u in cover1 ensures TableOk(u, mem1, cover1) {
      if u == f {
        forall j | 0 <= j < 512 ensures EntryOk(mem1[f][j], cover1[f], j, cover1) {
          assert mem1[f][j] == EMPTY;
        }
      } else {
        assert TableOk(u, mem, cover);
        forall j | 0 <= j < 512 ensures EntryOk(mem1[u][j], cover1[u], j, cover1) {
          assert EntryOk(mem[u][j], cover[u], j, cover);
        }
      }
    }
  }

  lemma {:induction false} SlotAligned(r: Range, i: nat)
    requires 0 < r.level <= 3 && r.base % (512 * Span(r.level)) == 0
    ensures SlotRange(r, i).base % (512 * Span(r.level - 1)) == 0
  {
    var s := Span(r.level);
    SpanStep(r.level);
    MultipleMod(i, s);
    MultipleMod(512, s);
    MultipleTransitive(r.base, 512 * s, s);
    MultipleSum(r.base, s * i, s);
  }

  /** An empty table changes no translation. */
  lemma {:induction false} ExtendedWalk(mem: Memory, cover: Cover, t: nat, i: nat, f: nat, u: nat, va: nat, level: nat)
    requires Extensible(mem, cover, t, i, f) && u in cover
    requires AllTables(Extended(mem, t, i, f), ExtendedCover(cover, t, i, f))
    ensures Walk(Extended(mem, t, i, f), ExtendedCover(cover, t, i, f), u, va) == Walk(mem, cover, u, va)
    ensures NoLarge(Extended(mem, t, i, f), ExtendedCover(cover, t, i, f), u, va, level) == NoLarge(mem, cover, u, va, level)
    decreases cover[u].level
  {
    hide Index, Span;
    var mem1, cover1 := Extended(mem, t, i, f), ExtendedCover(cover, t, i, f);
    assert TableOk(u, mem, cover) && TableOk(u, mem1, cover1);
    var l := cover[u].level;
    var j := Index(va, l);
    var d := mem[u][j];
    assert EntryOk(d, cover[u], j, cover);
    if u == t && j == i {
      assert TableOk(f, mem1, cover1);
      assert mem1[f][Index(va, l - 1)] == EMPTY;
      FrameRound(f);
    } else {
      assert mem1[u][j] == d;
      if d.present && !MapsPage(d, l) {
        ExtendedWalk(mem, cover, t, i, f, FrameOf(d.address), va, level);
      }
    }
  }

  lemma {:induction false} FrameRound(f: nat)
    ensures FrameOf(f * PAGE) == f
  {
  }

  lemma {:induction false} ExtendedReach(mem: Memory, cover: Cover, t: nat, i: nat, f: nat, u: nat, va: nat)
    requires Extensible(mem, cover, t, i, f) && u in cover
    requires AllTables(Extended(mem, t, i, f), ExtendedCover(cover, t, i, f))
    requires Reaches(mem, cover, u, va, t) && i == Index(va, cover[t].level)
    ensures Reaches(Extended(mem, t, i, f), ExtendedCover(cover, t, i, f), u, va, f)
    decreases cover[u].level
  {
    hide Index, Span;
    var mem1, cover1 := Extended(mem, t, i, f), ExtendedCover(cover, t, i, f);
    assert TableOk(u, mem, cover) && TableOk(u, mem1, cover1);
    FrameRound(f);
    if u != t {
      var l := cover[u].level;
      var d := mem[u][Index(va, l)];
      assert EntryOk(d, cover[u], Index(va, l), cover);
      ExtendedReach(mem, cover, t, i, f, FrameOf(d.address), va);
    } else {
      assert mem1[t][i] == TableEntry(f);
    }
  }

  // ---------------------------------------------------------------------------
  // 64-bit addresses

  /** The bits above bit 47 take no part in a walk. */
  lemma {:induction false} HighBitsIgnored(mem: Memory, cover: Cover, t: nat, va: nat)
    requires AllTables(mem, cover) && t in cover
    ensures Walk(mem, cover, t, va) == Walk(mem, cover, t, va % SPACE)
    decreases cover[t].level
  {
    hide Index;
    assert TableOk(t, mem, cover);
    var l := cover[t].level;
    LowIndex(va, l);
    var e := mem[t][Index(va, l)];
    assert EntryOk(e, cover[t], Index(va, l), cover);
    if e.present && !MapsPage(e, l) {
      HighBitsIgnored(mem, cover, FrameOf(e.address), va);
    }
  }

  lemma {:induction false} LowIndex(va: nat, level: nat)
    requires level <= 3
    ensures Index(va, level) == Index(va % SPACE, level) && va % Span(level) == va % SPACE % Span(level)
  {
    if level == 0 {
      LowDigit(va, PAGE, 0x800_0000);
    } else if level == 1 {
      LowDigit(va, MEGA2, 0x40000);
    } else if level == 2 {
      LowDigit(va, GIGA, 0x200);
    } else {
      LowDigit(va, GIGA512, 1);
    }
  }

  lemma {:induction false} LowDigit(va: nat, s: nat, k: nat)
    requires s > 0 && k > 0 && SPACE == s * (512 * k)
    ensures (va / s) % 512 == (va % SPACE / s) % 512 && va % s == va % SPACE % s
  {
    var h, lo := va / SPACE, va % SPACE;
    var q := lo / s;
    assert va == SPACE * h + lo && lo == s * q + lo % s;
    assert SPACE * h == s * (512 * k * h);
    assert s * (512 * k * h) + s * q == s * (512 * k * h + q);
    DivUnique(va, s, 512 * k * h + q);
    assert va == s * (va / s) + va % s;
    assert 512 * k * h + q == 512 * (k * h) + q;
    DivUnique(512 * (k * h) + q, 512, k * h + q / 512);
    assert (512 * (k * h) + q) % 512 == q % 512;
  }
}
