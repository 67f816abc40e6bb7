/** `vm_port_map`, `vm_port_unmap` and `vm_port_translate_paddr` on an address space and the frames behind it. */
module PageMap {
  import opened Word64
  import opened Paging
  import Pm

  /** The slot a walk ends at, a missing table, or no frame left for a new one. */
  datatype WalkResult = Slot(table: nat, index: nat) | Missing | NoFrame

  datatype CacheMode = Uncached | Writeback | Writethrough | Writecombine

  /** The access flags of a mapping. */
  datatype Access = Access(read: bool, write: bool, execute: bool, user: bool, global_: bool)

  function AlignDown(x: nat, a: nat): nat
    requires a > 0
  {
    x - x % a
  }

  /** Frames are taken from the front of the free list, and become tables. */
  ghost predicate Took(free: seq<nat>, free1: seq<nat>, tables: set<nat>, tables1: set<nat>,
                       usage: map<nat, Pm.Usage>, usage1: map<nat, Pm.Usage>)
  {
    && |free1| <= |free| && free1 == free[|free| - |free1|..]
    && var taken := free[..|free| - |free1|];
       && (forall f :: f in tables1 <==> f in tables || f in taken)
       && usage1.Keys == usage.Keys
       && forall f :: f in usage ==> usage1[f] == if f in taken then Pm.Vm else usage[f]
  }

  lemma {:induction false} TookNone(free: seq<nat>, tables: set<nat>, usage: map<nat, Pm.Usage>)
    ensures Took(free, free, tables, tables, usage, usage)
  {
  }

  lemma {:induction false} TookOne(free: seq<nat>, free1: seq<nat>, tables: set<nat>, usage: map<nat, Pm.Usage>)
    requires free != [] && free1 == free[1..] && free[0] in usage
    ensures Took(free, free1, tables, tables + {free[0]}, usage, usage[free[0] := Pm.Vm])
  {
    assert free[..1] == [free[0]];
  }

  lemma {:induction false} TookMore(free: seq<nat>, free1: seq<nat>, free2: seq<nat>, tables: set<nat>, tables1: set<nat>,
                                    tables2: set<nat>, usage: map<nat, Pm.Usage>, usage1: map<nat, Pm.Usage>, usage2: map<nat, Pm.Usage>)
    requires Took(free, free1, tables, tables1, usage, usage1) && Took(free1, free2, tables1, tables2, usage1, usage2)
    ensures Took(free, free2, tables, tables2, usage, usage2)
  {
    var n, m := |free| - |free1|, |free1| - |free2|;
    assert free[..n + m] == free[..n] + free1[..m];
    assert forall f :: f in free[..n + m] <==> f in free[..n] || f in free1[..m];
  }

  /** Two sets of tables translate every address alike, and have the same large pages. */
  ghost predicate SameWalks(mem: Memory, cover: Cover, mem1: Memory, cover1: Cover, root: nat)
    requires TablesOk(mem, root, cover) && TablesOk(mem1, root, cover1)
  {
    && (forall x :: Translate(mem1, root, cover1, x) == Translate(mem, root, cover, x))
    && (forall x, lv :: NoLarge(mem1, cover1, root, x, lv) == NoLarge(mem, cover, root, x, lv))
  }

  class AddressSpace {
    const cr3: nat
    const gbpages: bool
    const nx: bool
    const pge: bool
    var mem: Memory
    const pm: Pm.PhysicalMemory
    ghost var cover: Cover

    /** The tables are sound, and their frames are in use as such. */
    ghost predicate Valid()
      reads this, pm
    {
      && TablesOk(mem, cr3, cover) && pm.Valid()
      && (forall f :: f in cover ==> f in pm.usage && pm.usage[f] == Pm.Vm)
    }

    /** What the processor makes of a 48-bit address. */
    ghost function Tr(va: nat): Option<Hit>
      requires Valid()
      reads this, pm
    {
      Translate(mem, cr3, cover, va)
    }

    ghost function Now(): Tables
      requires Valid()
      reads this, pm
      ensures Sound(Now())
    {
      Tables(mem, cover, cr3)
    }

    /** No large page lies above `level` on the way to `va`. */
    ghost predicate Clear(va: nat, level: nat)
      requires Valid()
      reads this, pm
    {
      NoLarge(mem, cover, cr3, va, level)
    }

    /** `vm_port_init_map`: a zeroed frame becomes the top-level table. */
    constructor (pm: Pm.PhysicalMemory, gbpages: bool, nx: bool, pge: bool)
      requires pm.Valid() && pm.freelist != []
      modifies pm
      ensures Valid() && this.pm == pm && this.gbpages == gbpages
      ensures Took(old(pm.freelist), pm.freelist, {}, cover.Keys, old(pm.usage), pm.usage)
      ensures forall va :: Tr(va) == None
      ensures forall va, level :: Clear(va, level)
    {
      var f := pm.Allocate(Pm.Vm);
      var frame := f.value;
      this.cr3, this.pm := frame, pm;
      this.gbpages, this.nx, this.pge := gbpages, nx, pge;
      mem := map[frame := seq(512, _ => EMPTY)];
      cover := map[frame := Range(3, 0)];
      new;
      FreshTable();
      TookOne(old(pm.freelist), pm.freelist, {}, old(pm.usage));
    }

    lemma {:induction false} FreshTable()
      requires mem == map[cr3 := seq(512, _ => EMPTY)] && cover == map[cr3 := Range(3, 0)]
      ensures TablesOk(mem, cr3, cover)
      ensures forall va :: Translate(mem, cr3, cover, va) == None
      ensures forall va, level :: NoLarge(mem, cover, cr3, va, level)
    {
      hide Index;
      forall i | 0 <= i < 512 ensures EntryOk(mem[cr3][i], cover[cr3], i, cover) {
        assert mem[cr3][i] == EMPTY;
      }
      assert TableOk(cr3, mem, cover);
      forall va ensures Translate(mem, cr3, cover, va) == None {
        assert mem[cr3][Index(va, 3)] == EMPTY;
      }
      forall va, level ensures NoLarge(mem, cover, cr3, va, level) {
        assert mem[cr3][Index(va, 3)] == EMPTY;
      }
    }

    // -------------------------------------------------------------------------
    // pte_walk

    /** One level of `pte_walk`: follow the entry, or create the table it lacks. */
    method Descend(t: nat, level: nat, va: nat, create: bool) returns (r: WalkResult)
      requires Valid() && t in cover && cover[t].level == level && 0 < level
      requires va < SPACE && Reaches(mem, cover, cr3, va, t)
      requires TableOk(t, mem, cover) && var e := mem[t][Index(va, level)]; e.present ==> !MapsPage(e, level)
      modifies this, pm
      ensures Valid() && SameWalks(old(mem), old(cover), mem, cover, cr3)
      ensures r.Slot? ==> r.table in cover && cover[r.table].level == level - 1 && Reaches(mem, cover, cr3, va, r.table)
      ensures r.Missing? ==> !create && forall x: nat :: OnPage(x, va, level) ==> Tr(x) == None
      ensures r.NoFrame? ==> create && pm.freelist == []
      ensures !create ==> mem == old(mem) && cover == old(cover) && unchanged(pm)
      ensures Took(old(pm.freelist), pm.freelist, old(cover.Keys), cover.Keys, old(pm.usage), pm.usage)
      ensures old(pm.Accounted()) ==> pm.Accounted()
    {
      hide Index, Span, Walk, NoLarge, Reaches, AllTables, OnPage, Took, Pm.PagesOk, SameWalks;
      SameAlready(mem, cover, cr3);
      TookNone(pm.freelist, cover.Keys, pm.usage);
      assert EntryOk(mem[t][Index(va, level)], cover[t], Index(va, level), cover);
      var i := Index(va, level);
      var e := mem[t][i];
      if e.present {
        ReachStep(mem, cover, cr3, va, t);
        r := Slot(FrameOf(e.address), 0);
      } else if !create {
        AbsentPage(mem, cover, cr3, va, t);
        r := Missing;
      } else {
        if pm.freelist != [] {
          Pm.FreeFront(pm.regions, pm.freelist, pm.usage);
        }
        var got := pm.Allocate(Pm.Vm);
        if got == None {
          return NoFrame;
        }
        var f := got.value;
        Grow(mem, cover, cr3, va, t, i, f);
        TookOne(old(pm.freelist), pm.freelist, cover.Keys, old(pm.usage));
        mem := mem[f := seq(512, _ => EMPTY)];
        mem := mem[t := mem[t][i := TableEntry(f)]];
        cover := ExtendedCover(cover, t, i, f);
        assert cover.Keys == old(cover.Keys) + {f};
        r := Slot(f, 0);
      }
    }

    /** `pte_walk`: the slot for `va` in the table of `level`, creating tables on the way if asked to. */
    method PteWalk(va: nat, create: bool, level: nat) returns (r: WalkResult)
      requires Valid() && va < SPACE && level <= 2 && Clear(va, level)
      modifies this, pm
      ensures Valid() && SameWalks(old(mem), old(cover), mem, cover, cr3)
      ensures r.Slot? ==> r.table in cover && cover[r.table].level == level && Reaches(mem, cover, cr3, va, r.table)
                          && r.index == Index(va, level)
      ensures r.Missing? ==> !create && forall x: nat :: OnPage(x, va, level) ==> Tr(x) == None
      ensures r.NoFrame? ==> pm.freelist == []
      ensures !create ==> mem == old(mem) && cover == old(cover) && unchanged(pm) && !r.NoFrame?
      ensures Took(old(pm.freelist), pm.freelist, old(cover.Keys), cover.Keys, old(pm.usage), pm.usage)
      ensures old(pm.Accounted()) ==> pm.Accounted()
    {
      hide Index, Span, Walk, NoLarge, Reaches, AllTables, TableOk, MapsPage, SameWalks, Took, OnPage, Pm.PagesOk;
      PagesNest(va, level);
      TopTable(mem, cover, cr3, va);
      ClearAt(mem, cover, cr3, va, cr3, level);
      r := Descend(cr3, 3, va, create);
      if !r.Slot? {
        return;
      }
      if level == 2 {
        return Slot(r.table, Index(va, 2));
      }
      ghost var mem1, cover1, free1, usage1 := mem, cover, pm.freelist, pm.usage;
      StillClear(old(mem), old(cover), mem, cover, cr3, va, r.table, level);
      r := Descend(r.table, 2, va, create);
      SameAgain(old(mem), old(cover), mem1, cover1, mem, cover, cr3);
      TookMore(old(pm.freelist), free1, pm.freelist, old(cover.Keys), cover1.Keys, cover.Keys, old(pm.usage), usage1, pm.usage);
      if !r.Slot? {
        return;
      }
      if level == 1 {
        return Slot(r.table, Index(va, 1));
      }
      mem1, cover1, free1, usage1 := mem, cover, pm.freelist, pm.usage;
      StillClear(old(mem), old(cover), mem, cover, cr3, va, r.table, level);
      r := Descend(r.table, 1, va, create);
      SameAgain(old(mem), old(cover), mem1, cover1, mem, cover, cr3);
      TookMore(old(pm.freelist), free1, pm.freelist, old(cover.Keys), cover1.Keys, cover.Keys, old(pm.usage), usage1, pm.usage);
      if !r.Slot? {
        return;
      }
      return Slot(r.table, Index(va, 0));
    }

    // -------------------------------------------------------------------------
    // vm_port_map

    /** The entry of a mapping. A cache mode that needs PAT sets the bit that means "large" above the last level. */
    function NewEntry(paddr: nat, level: nat, cache: CacheMode, a: Access): Entry {
      Entry(a.read, a.write, a.user,
            cache != Writeback,
            cache == Uncached,
            level > 0 || cache == Writecombine,
            pge && a.global_,
            nx && !a.execute,
            AlignDown(paddr, PAGE))
    }

    /**
     The rights a mapping is asked to have; none without read access. The PAT bit of the cache
     modes can only be expressed in the last level.
     */
    ghost function Grant(level: nat, cache: CacheMode, a: Access): Option<Rights> {
      if !a.read then None
      else Some(Rights(a.write, a.user, pge && a.global_, nx && !a.execute,
                       level == 0 && cache == Writecombine, cache == Uncached, cache != Writeback))
    }

    /** What such rights mean to the processor. */
    lemma {:induction false} GrantMeans(t: Tables, t1: Tables, start: nat, size: nat, pa: nat, level: nat, cache: CacheMode, a: Access)
      requires Sound(t) && Sound(t1) && Mapped(t, t1, start, size, pa, Grant(level, cache, a))
      ensures a.read ==>
                forall x: nat :: start <= x < start + size && x < SPACE ==>
                  Where(t1, x).Some?
                  && var g := Where(t1, x).value.rights;
                     && g.write == a.write && g.user == a.user
                     && g.noExecute == (nx && !a.execute) && g.global_ == (pge && a.global_)
                     && PatIndex(g) == match cache
                                       case Writeback => 0
                                       case Writethrough => 1
                                       case Uncached => 3
                                       case Writecombine => if level == 0 then 5 else 1
      ensures !a.read ==> forall x: nat :: start <= x < start + size && x < SPACE ==> Where(t1, x) == None
    {
      hide Where, Sound;
    }

    /** The entry for one page of the given level is found, or made, and written. */
    method WriteEntry(paddr: nat, va: nat, level: nat, cache: CacheMode, a: Access) returns (ok: bool)
      requires Valid() && va < SPACE && level <= 2 && Clear(va, level)
      requires level > 0 ==> paddr % Span(level) == 0
      modifies this, pm
      ensures Valid() && (!ok ==> pm.freelist == [])
      ensures ok ==> Mapped(old(Now()), Now(), AlignDown(va, Span(level)), Span(level), AlignDown(paddr, PAGE), Grant(level, cache, a))
      ensures LargeIn(old(Now()), Now(), AlignDown(va, Span(level)), Span(level), level)
      ensures Took(old(pm.freelist), pm.freelist, old(cover.Keys), cover.Keys, old(pm.usage), pm.usage)
      ensures old(pm.Accounted()) ==> pm.Accounted()
    {
      hide Index, Span, Walk, NoLarge, Reaches, AllTables, AlignDown, OnPage, Pm.PagesOk, Took;
      var r := PteWalk(va, true, level);
      if r.NoFrame? {
        SameLarge(old(Now()), Now(), va, level);
        return false;
      }
      var e := NewEntry(paddr, level, cache, a);
      EntryAligned(paddr, level);
      Install(mem, cover, cr3, va, r.table, level, e);
      InstalledAfter(old(Now()), Now(), Written(mem, r.table, r.index, e), va, level, e, Grant(level, cache, a));
      mem := mem[r.table := mem[r.table][r.index := e]];
      ok := true;
    }

    /** `vm_port_map` for one page of the given level. False stands for running out of frames. */
    method MapOne(paddr: nat, va: nat, level: nat, cache: CacheMode, a: Access) returns (ok: bool)
      requires Valid() && va < SPACE && level <= 2 && Clear(va, level)
      requires level > 0 ==> paddr % Span(level) == 0
      modifies this, pm
      ensures Valid() && (!ok ==> pm.freelist == [])
      ensures ok ==> Mapped(old(Now()), Now(), AlignDown(va, Span(level)), Span(level), AlignDown(paddr, PAGE), Grant(level, cache, a))
      ensures ok && a.read ==>
                forall x: nat :: AlignDown(va, Span(level)) <= x < AlignDown(va, Span(level)) + Span(level) && x < SPACE ==>
                  Where(Now(), x).Some?
                  && var g := Where(Now(), x).value.rights;
                     && g.write == a.write && g.user == a.user
                     && g.noExecute == (nx && !a.execute) && g.global_ == (pge && a.global_)
                     && PatIndex(g) == match cache
                                       case Writeback => 0
                                       case Writethrough => 1
                                       case Uncached => 3
                                       case Writecombine => if level == 0 then 5 else 1
      ensures ok && !a.read ==>
                forall x: nat :: AlignDown(va, Span(level)) <= x < AlignDown(va, Span(level)) + Span(level) && x < SPACE ==> Where(Now(), x) == None
      ensures LargeIn(old(Now()), Now(), AlignDown(va, Span(level)), Span(level), level)
      ensures Took(old(pm.freelist), pm.freelist, old(cover.Keys), cover.Keys, old(pm.usage), pm.usage)
      ensures old(pm.Accounted()) ==> pm.Accounted()
    {
      hide Index, Span, Walk, NoLarge, Reaches, AllTables, AlignDown, OnPage, Pm.PagesOk, Took, Mapped, Where, PatIndex, LargeIn, Sound;
      ok := WriteEntry(paddr, va, level, cache, a);
      if ok {
        GrantMeans(old(Now()), Now(), AlignDown(va, Span(level)), Span(level), AlignDown(paddr, PAGE), level, cache, a);
      }
    }

    /** The word that is written, bit by bit. */
    lemma {:induction false} EntryBits(paddr: nat, level: nat, cache: CacheMode, a: Access)
      ensures Word(NewEntry(paddr, level, cache, a))
              == AlignDown(paddr, PAGE)
                 + (if a.read then 0x1 else 0) + (if a.write then 0x2 else 0) + (if a.user then 0x4 else 0)
                 + (match cache
                    case Writeback => 0
                    case Writethrough => 0x8
                    case Uncached => 0x18
                    case Writecombine => if level == 0 then 0x88 else 0x8)
                 + (if level > 0 then 0x80 else 0) + (if pge && a.global_ then 0x100 else 0)
                 + (if nx && !a.execute then 0x8000_0000_0000_0000 else 0)
    {
    }

    /** The level of the pages `vm_port_map` really writes: without 1 GiB pages it falls back on 2 MiB ones. */
    function Native(level: nat): nat {
      if level == 2 && !gbpages then 1 else level
    }

    /** The 512 mappings of 2 MiB that stand in for one of 1 GiB. */
    method Emulate(paddr: nat, va: nat, cache: CacheMode, a: Access) returns (ok: bool)
      requires Valid() && paddr % GIGA == 0 && AlignDown(va, MEGA2) + GIGA <= SPACE
      requires forall x: nat :: AlignDown(va, MEGA2) <= x < AlignDown(va, MEGA2) + GIGA ==> IsClear(Now(), x, 1)
      modifies this, pm
      ensures Valid() && (!ok ==> pm.freelist == [])
      ensures ok ==> Mapped(old(Now()), Now(), AlignDown(va, MEGA2), GIGA, paddr, Grant(2, cache, a))
      ensures LargeIn(old(Now()), Now(), AlignDown(va, MEGA2), GIGA, 1)
      ensures Took(old(pm.freelist), pm.freelist, old(cover.Keys), cover.Keys, old(pm.usage), pm.usage)
      ensures old(pm.Accounted()) ==> pm.Accounted()
    {
      hide Translate, NoLarge, AllTables, Mapped, LargeIn, Valid, Sound, Took, Pm.PhysicalMemory.Accounted;
      ghost var start := AlignDown(va, MEGA2);
      NothingMapped(Now(), start, paddr, Grant(2, cache, a), 1);
      TookNone(pm.freelist, cover.Keys, pm.usage);
      var i := 0;
      while i < 512
        invariant 0 <= i <= 512 && Valid()
        invariant Mapped(old(Now()), Now(), start, MEGA2 * i, paddr, Grant(2, cache, a))
        invariant LargeIn(old(Now()), Now(), start, MEGA2 * i, 1)
        invariant Took(old(pm.freelist), pm.freelist, old(cover.Keys), cover.Keys, old(pm.usage), pm.usage)
        invariant old(pm.Accounted()) ==> pm.Accounted()
      {
        ghost var before, free1, usage1, tables1 := Now(), pm.freelist, pm.usage, cover.Keys;
        PieceOf(paddr, va, i);
        StillClearIn(old(Now()), before, start, MEGA2 * i, 1, va + MEGA2 * i);
        ok := MapOne(paddr + MEGA2 * i, va + MEGA2 * i, 1, cache, a);
        TookMore(old(pm.freelist), free1, pm.freelist, old(cover.Keys), tables1, cover.Keys, old(pm.usage), usage1, pm.usage);
        LargeInAgain(old(Now()), before, Now(), start, MEGA2 * i, MEGA2, 1);
        LargeInMore(old(Now()), Now(), start, MEGA2 * i + MEGA2, GIGA, 1);
        if !ok {
          return;
        }
        MappedAgain(old(Now()), before, Now(), start, MEGA2 * i, MEGA2, paddr, Grant(2, cache, a));
        i := i + 1;
      }
      ok := true;
    }

    /** `vm_port_map`. */
    method Map(paddr: nat, va: nat, level: nat, cache: CacheMode, a: Access) returns (ok: bool)
      requires Valid() && level <= 2 && (level > 0 ==> paddr % Span(level) == 0)
      requires AlignDown(va, Span(Native(level))) + Span(level) <= SPACE
      requires forall x: nat :: AlignDown(va, Span(Native(level))) <= x < AlignDown(va, Span(Native(level))) + Span(level) ==>
                 IsClear(Now(), x, Native(level))
      modifies this, pm
      ensures Valid() && (!ok ==> pm.freelist == [])
      ensures ok ==> Mapped(old(Now()), Now(), AlignDown(va, Span(Native(level))), Span(level), AlignDown(paddr, PAGE), Grant(level, cache, a))
      ensures ok && a.read ==>
                forall x: nat :: AlignDown(va, Span(Native(level))) <= x < AlignDown(va, Span(Native(level))) + Span(level) && x < SPACE ==>
                  Where(Now(), x).Some?
                  && var g := Where(Now(), x).value.rights;
                     && g.write == a.write && g.user == a.user
                     && g.noExecute == (nx && !a.execute) && g.global_ == (pge && a.global_)
                     && PatIndex(g) == match cache
                                       case Writeback => 0
                                       case Writethrough => 1
                                       case Uncached => 3
                                       case Writecombine => if level == 0 then 5 else 1
      ensures ok && !a.read ==>
                forall x: nat :: AlignDown(va, Span(Native(level))) <= x < AlignDown(va, Span(Native(level))) + Span(level) && x < SPACE ==> Where(Now(), x) == None
      ensures LargeIn(old(Now()), Now(), AlignDown(va, Span(Native(level))), Span(level), Native(level))
      ensures Took(old(pm.freelist), pm.freelist, old(cover.Keys), cover.Keys, old(pm.usage), pm.usage)
      ensures old(pm.Accounted()) ==> pm.Accounted()
    {
      hide Translate, NoLarge, AllTables, Mapped, LargeIn, SameWalks, Valid, Sound, Took, PatIndex;
      if level == 2 && !gbpages {
        MultipleTransitive(paddr, GIGA, PAGE);
        ok := Emulate(paddr, va, cache, a);
      } else {
        assert AlignDown(va, Span(level)) <= va < AlignDown(va, Span(level)) + Span(level);
        assert IsClear(Now(), va, level);
        ok := MapOne(paddr, va, level, cache, a);
      }
      if ok {
        GrantMeans(old(Now()), Now(), AlignDown(va, Span(Native(level))), Span(level), AlignDown(paddr, PAGE), level, cache, a);
      }
    }

    /** `vm_port_unmap`: the entry loses its present bit and its address. */
    method Unmap(va: nat, level: nat)
      requires Valid() && va < SPACE && level <= 2 && Clear(va, level) && (level == 2 ==> gbpages)
      modifies this, pm
      ensures Valid() && cover == old(cover) && unchanged(pm)
      ensures forall x: nat :: x < SPACE ==> Tr(x) == if OnPage(x, va, level) then None else old(Tr(x))
      ensures LargeIn(old(Now()), Now(), AlignDown(va, Span(level)), Span(level), level)
    {
      hide Index, Span, Walk, NoLarge, Reaches, AllTables, AlignDown, OnPage, Pm.PagesOk, Took;
      var r := PteWalk(va, false, level);
      if r.Missing? {
        SameLarge(old(Now()), Now(), va, level);
        return;
      }
      TableAt(mem, cover, r.table);
      var d := mem[r.table][r.index];
      var e := d.(present := false, address := 0);
      Install(mem, cover, cr3, va, r.table, level, e);
      InstalledAfter(old(Now()), Now(), Written(mem, r.table, r.index, e), va, level, e, None);
      mem := mem[r.table := mem[r.table][r.index := e]];
    }

    /**
     `vm_port_translate_paddr`. The present bit is not looked at: wherever the last table exists, the
     answer is the address its entry holds, mapped or not.
     */
    method TranslatePaddr(va: nat) returns (pa: Option<nat>)
      requires Valid() && va < SPACE && Clear(va, 0)
      modifies this, pm
      ensures Valid() && mem == old(mem) && cover == old(cover) && unchanged(pm)
      ensures Tr(va).Some? ==> pa == Some(AlignDown(Tr(va).value.pa, PAGE))
      ensures pa.None? ==> Tr(va).None?
      ensures pa.Some? ==> exists t :: t in cover && cover[t].level == 0 && Reaches(mem, cover, cr3, va, t)
                             && TableOk(t, mem, cover) && pa.value == mem[t][Index(va, 0)].address
    {
      hide Index, Span, Walk, NoLarge, Reaches, AllTables, AlignDown, OnPage, Pm.PagesOk, Took;
      var r := PteWalk(va, false, 0);
      OwnPage(va, 0);
      if r.Missing? {
        return None;
      }
      LeafOf(mem, cover, cr3, va, r.table);
      pa := Some(mem[r.table][r.index].address);
    }
  }

  // ---------------------------------------------------------------------------
  // What a mapping changes

  /** The tables of an address space at one moment. */
  datatype Tables = Tables(mem: Memory, cover: Cover, root: nat)

  ghost predicate Sound(t: Tables) {
    TablesOk(t.mem, t.root, t.cover)
  }

  ghost function Where(t: Tables, x: nat): Option<Hit>
    requires Sound(t)
  {
    Translate(t.mem, t.root, t.cover, x)
  }

  ghost predicate IsClear(t: Tables, x: nat, level: nat)
    requires Sound(t)
  {
    NoLarge(t.mem, t.cover, t.root, x, level)
  }

  /** `[start, start + size)` now leads to `pa` and upwards, and every other address where it led before. */
  ghost predicate Mapped(t: Tables, t1: Tables, start: nat, size: nat, pa: nat, g: Option<Rights>)
    requires Sound(t) && Sound(t1)
  {
    forall x: nat :: x < SPACE ==>
      Where(t1, x) == if start <= x < start + size then Target(g, pa + (x - start)) else Where(t, x)
  }

  /** Outside `[start, start + size)` the large pages are what they were. */
  ghost predicate LargeWithin(t: Tables, t1: Tables, start: nat, size: nat)
    requires Sound(t) && Sound(t1)
  {
    forall x: nat, lv :: x < SPACE && !(start <= x < start + size) ==> IsClear(t1, x, lv) == IsClear(t, x, lv)
  }

  /** And nowhere did one appear or go above `level`. */
  ghost predicate LargeIn(t: Tables, t1: Tables, start: nat, size: nat, level: nat)
    requires Sound(t) && Sound(t1)
  {
    && LargeWithin(t, t1, start, size)
    && (forall x: nat :: x < SPACE ==> IsClear(t1, x, level) == IsClear(t, x, level))
  }

  lemma {:induction false} NothingMapped(t: Tables, start: nat, pa: nat, g: Option<Rights>, level: nat)
    requires Sound(t)
    ensures Mapped(t, t, start, 0, pa, g) && LargeIn(t, t, start, 0, level)
  {
    hide Where, IsClear;
  }

  lemma {:induction false} MappedAgain(t: Tables, t1: Tables, t2: Tables, start: nat, size: nat, more: nat, pa: nat, g: Option<Rights>)
    requires Sound(t) && Sound(t1) && Sound(t2)
    requires Mapped(t, t1, start, size, pa, g) && Mapped(t1, t2, start + size, more, pa + size, g)
    ensures Mapped(t, t2, start, size + more, pa, g)
  {
    hide Where, IsClear;
  }

  lemma {:induction false} LargeInAgain(t: Tables, t1: Tables, t2: Tables, start: nat, size: nat, more: nat, level: nat)
    requires Sound(t) && Sound(t1) && Sound(t2)
    requires LargeIn(t, t1, start, size, level) && LargeIn(t1, t2, start + size, more, level)
    ensures LargeIn(t, t2, start, size + more, level)
  {
    hide Where, IsClear;
  }

  lemma {:induction false} LargeInMore(t: Tables, t1: Tables, start: nat, size: nat, size1: nat, level: nat)
    requires Sound(t) && Sound(t1) && LargeIn(t, t1, start, size, level) && size <= size1
    ensures LargeIn(t, t1, start, size1, level)
  {
    hide Where, IsClear;
  }

  lemma {:induction false} StillClearIn(t: Tables, t1: Tables, start: nat, size: nat, level: nat, x: nat)
    requires Sound(t) && Sound(t1) && LargeIn(t, t1, start, size, level) && x < SPACE
    ensures IsClear(t1, x, level) == IsClear(t, x, level)
  {
    hide Where, IsClear;
  }

  lemma {:induction false} PieceOf(paddr: nat, va: nat, i: nat)
    requires paddr % GIGA == 0 && i < 512
    ensures (paddr + MEGA2 * i) % MEGA2 == 0 && AlignDown(paddr + MEGA2 * i, PAGE) == paddr + MEGA2 * i
    ensures AlignDown(va + MEGA2 * i, MEGA2) == AlignDown(va, MEGA2) + MEGA2 * i
  {
    MultipleTransitive(paddr, GIGA, MEGA2);
    MultipleMod(i, MEGA2);
    MultipleSum(paddr, MEGA2 * i, MEGA2);
    MultipleTransitive(paddr + MEGA2 * i, MEGA2, PAGE);
    ShiftMod(va, i, MEGA2);
  }

  lemma {:induction false} ShiftMod(x: nat, i: nat, s: nat)
    requires s > 0
    ensures (x + s * i) % s == x % s
  {
    var k := x / s;
    assert x == s * k + x % s;
    assert s * (k + i) == s * k + s * i;
    DivUnique(x + s * i, s, k + i);
    assert x + s * i == s * (k + i) + (x + s * i) % s;
  }

  /** Writing the entry after a walk that changed nothing else. */
  lemma {:induction false} InstalledAfter(t: Tables, u: Tables, mem1: Memory, va: nat, level: nat, e: Entry, g: Option<Rights>)
    requires Sound(t) && Sound(u) && t.root == u.root && SameWalks(t.mem, t.cover, u.mem, u.cover, u.root)
    requires TablesOk(mem1, u.root, u.cover) && Installed(u.mem, mem1, u.cover, u.root, va, level, e)
    requires g == if e.present then Some(LeafRights(e, level)) else None
    ensures Mapped(t, Tables(mem1, u.cover, u.root), AlignDown(va, Span(level)), Span(level), e.address, g)
    ensures LargeIn(t, Tables(mem1, u.cover, u.root), AlignDown(va, Span(level)), Span(level), level)
  {
    hide Translate, NoLarge, Span, AlignDown, LeafRights;
    forall x: nat | x < SPACE
      ensures Translate(mem1, u.root, u.cover, x)
              == if AlignDown(va, Span(level)) <= x < AlignDown(va, Span(level)) + Span(level)
                 then Target(g, e.address + (x - AlignDown(va, Span(level)))) else Where(t, x)
    {
      if OnPage(x, va, level) {
        PageOffset(x, va, level);
      }
    }
  }

  lemma {:induction false} SameLarge(t: Tables, u: Tables, va: nat, level: nat)
    requires Sound(t) && Sound(u) && t.root == u.root && SameWalks(t.mem, t.cover, u.mem, u.cover, u.root)
    ensures LargeIn(t, u, AlignDown(va, Span(level)), Span(level), level)
    ensures forall x :: Where(u, x) == Where(t, x)
  {
    hide Translate, NoLarge, Span, AlignDown;
  }

  lemma {:induction false} TableAt(mem: Memory, cover: Cover, t: nat)
    requires AllTables(mem, cover) && t in cover
    ensures TableOk(t, mem, cover)
  {
  }

  lemma {:induction false} OwnPage(va: nat, level: nat)
    ensures OnPage(va, va, level)
  {
  }

  /** A last-level entry decides the translation of its page. */
  lemma {:induction false} LeafOf(mem: Memory, cover: Cover, root: nat, va: nat, t: nat)
    requires TablesOk(mem, root, cover) && t in cover && cover[t].level == 0 && Reaches(mem, cover, root, va, t)
    ensures TableOk(t, mem, cover)
    ensures Translate(mem, root, cover, va).Some? ==>
              mem[t][Index(va, 0)].address == AlignDown(Translate(mem, root, cover, va).value.pa, PAGE)
  {
    hide Index, Reaches;
    assert TableOk(t, mem, cover);
    WalkFrom(mem, cover, root, va, t, 0);
    assert EntryOk(mem[t][Index(va, 0)], cover[t], Index(va, 0), cover);
  }

  /** `x` lies on the page of this level that `va` lies on. */
  ghost predicate OnPage(x: nat, va: nat, level: nat) {
    AlignDown(va, Span(level)) <= x < AlignDown(va, Span(level)) + Span(level)
  }

  /** A page at `pa` with these rights; none if there are none. */
  ghost function Target(g: Option<Rights>, pa: nat): Option<Hit> {
    if g.Some? then Some(Hit(pa, g.value)) else None
  }

  lemma {:induction false} EntryAligned(paddr: nat, level: nat)
    requires level <= 2 && (level > 0 ==> paddr % Span(level) == 0)
    ensures AlignDown(paddr, PAGE) % PAGE == 0 && AlignDown(paddr, PAGE) % Span(level) == 0
  {
    if level == 1 {
      MultipleTransitive(paddr, MEGA2, PAGE);
    } else if level == 2 {
      MultipleTransitive(paddr, GIGA, PAGE);
    }
  }

  /** Following a table pointer. */
  lemma {:induction false} ReachStep(mem: Memory, cover: Cover, u: nat, va: nat, t: nat)
    requires AllTables(mem, cover) && u in cover && t in cover && Reaches(mem, cover, u, va, t)
    requires TableOk(t, mem, cover)
    requires var e := mem[t][Index(va, cover[t].level)]; e.present && !MapsPage(e, cover[t].level) && FrameOf(e.address) in cover
    ensures Reaches(mem, cover, u, va, FrameOf(mem[t][Index(va, cover[t].level)].address))
    decreases cover[u].level
  {
    hide Index, Span;
    assert TableOk(u, mem, cover);
    var l := cover[u].level;
    var d := mem[u][Index(va, l)];
    assert EntryOk(d, cover[u], Index(va, l), cover);
    if u != t {
      ReachStep(mem, cover, FrameOf(d.address), va, t);
    }
  }

  /** A new empty table for a slot that had none. */
  lemma {:induction false} Grow(mem: Memory, cover: Cover, root: nat, va: nat, t: nat, i: nat, f: nat)
    requires TablesOk(mem, root, cover) && t in cover && 0 < cover[t].level && Reaches(mem, cover, root, va, t)
    requires TableOk(t, mem, cover) && i == Index(va, cover[t].level) && !mem[t][i].present && f !in cover
    ensures Extensible(mem, cover, t, i, f)
    ensures var mem1, cover1 := Extended(mem, t, i, f), ExtendedCover(cover, t, i, f);
            && TablesOk(mem1, root, cover1)
            && SameWalks(mem, cover, mem1, cover1, root)
            && Reaches(mem1, cover1, root, va, f)
  {
    hide Index, Span, Walk, NoLarge, Reaches;
    var mem1, cover1 := Extended(mem, t, i, f), ExtendedCover(cover, t, i, f);
    ExtendedOk(mem, cover, t, i, f);
    forall x ensures Translate(mem1, root, cover1, x) == Translate(mem, root, cover, x) {
      ExtendedWalk(mem, cover, t, i, f, root, x, 0);
    }
    forall x, lv ensures NoLarge(mem1, cover1, root, x, lv) == NoLarge(mem, cover, root, x, lv) {
      ExtendedWalk(mem, cover, t, i, f, root, x, lv);
    }
    ExtendedReach(mem, cover, t, i, f, root, va);
  }

  lemma {:induction false} TopTable(mem: Memory, cover: Cover, root: nat, va: nat)
    requires TablesOk(mem, root, cover) && va < SPACE
    ensures InRange(va, Range(3, 0)) && Reaches(mem, cover, root, va, root)
  {
  }

  /** On a clear way, the entry met in a table above `level` is not a large page. */
  lemma {:induction false} ClearAt(mem: Memory, cover: Cover, u: nat, va: nat, t: nat, level: nat)
    requires AllTables(mem, cover) && u in cover && t in cover && Reaches(mem, cover, u, va, t)
    requires NoLarge(mem, cover, u, va, level) && level < cover[t].level
    ensures TableOk(t, mem, cover)
    ensures var e := mem[t][Index(va, cover[t].level)];
            && (e.present ==> !MapsPage(e, cover[t].level))
            && (!e.present ==> Walk(mem, cover, u, va) == None)
  {
    WalkFrom(mem, cover, u, va, t, level);
    assert TableOk(t, mem, cover);
  }

  lemma {:induction false} PagesNest(va: nat, level: nat)
    requires level <= 2
    ensures forall x: nat, l :: OnPage(x, va, level) && level < l <= 3 ==> OnPage(x, va, l)
  {
    hide Span, OnPage;
    forall x: nat, l | OnPage(x, va, level) && level < l <= 3 ensures OnPage(x, va, l) {
      NextPage(x, va, level);
      if level + 1 < l {
        NextPage(x, va, level + 1);
      }
      if level + 2 < l {
        NextPage(x, va, level + 2);
      }
    }
  }

  lemma {:induction false} NextPage(x: nat, va: nat, level: nat)
    requires level <= 2 && OnPage(x, va, level)
    ensures OnPage(x, va, level + 1)
  {
    hide Span, AlignDown;
    SpanStep(level + 1);
    var s, big := Span(level), Span(level + 1);
    MultipleMod(512, s);
    AlignedBelow(va, s);
    AlignedBelow(va, big);
    var a, b := AlignDown(va, s), AlignDown(va, big);
    MultipleTransitive(b, big, s);
    MultipleSum(b, big, s);
    MultipleGap(a, b, s);
    MultipleGap(a, b + big, s);
  }

  lemma {:induction false} AlignedBelow(x: nat, a: nat)
    requires a > 0
    ensures AlignDown(x, a) % a == 0 && AlignDown(x, a) <= x < AlignDown(x, a) + a
  {
    var k := x / a;
    assert x == a * k + x % a;
    MultipleMod(k, a);
  }

  lemma {:induction false} MultipleGap(x: nat, y: nat, a: nat)
    requires a > 0 && x % a == 0 && y % a == 0
    ensures x < y ==> x + a <= y
  {
    if x < y < x + a {
      ModUnique(x, y, a);
      assert false;
    }
  }

  /** A missing entry leaves its whole page untranslated. */
  lemma {:induction false} AbsentPage(mem: Memory, cover: Cover, root: nat, va: nat, t: nat)
    requires TablesOk(mem, root, cover) && va < SPACE && t in cover && Reaches(mem, cover, root, va, t)
    requires TableOk(t, mem, cover) && !mem[t][Index(va, cover[t].level)].present
    ensures forall x: nat :: OnPage(x, va, cover[t].level) ==> Translate(mem, root, cover, x) == None
  {
    hide Span, Index, OnPage, Reaches;
    var l := cover[t].level;
    TopTable(mem, cover, root, va);
    ReachedRange(mem, cover, root, va, t);
    forall x: nat | OnPage(x, va, l) ensures Translate(mem, root, cover, x) == None {
      SlotIsPage(cover[t], va, x);
      SlotUnique(x, cover[t], Index(va, l));
      ReachTogether(mem, cover, root, va, t, x);
      WalkFrom(mem, cover, root, x, t, 0);
    }
  }

  lemma {:induction false} StillClear(mem0: Memory, cover0: Cover, mem: Memory, cover: Cover, root: nat, va: nat, t: nat, level: nat)
    requires TablesOk(mem0, root, cover0) && TablesOk(mem, root, cover) && SameWalks(mem0, cover0, mem, cover, root)
    requires NoLarge(mem0, cover0, root, va, level) && t in cover && Reaches(mem, cover, root, va, t) && level < cover[t].level
    ensures TableOk(t, mem, cover)
    ensures var e := mem[t][Index(va, cover[t].level)];
            && (e.present ==> !MapsPage(e, cover[t].level))
            && (!e.present ==> Translate(mem, root, cover, va) == None)
  {
    hide Walk, NoLarge, Reaches, Index;
    ClearAt(mem, cover, root, va, t, level);
  }

  lemma {:induction false} SameAlready(mem: Memory, cover: Cover, root: nat)
    requires TablesOk(mem, root, cover)
    ensures SameWalks(mem, cover, mem, cover, root)
  {
  }

  lemma {:induction false} SameAgain(mem0: Memory, cover0: Cover, mem1: Memory, cover1: Cover, mem2: Memory, cover2: Cover, root: nat)
    requires TablesOk(mem0, root, cover0) && TablesOk(mem1, root, cover1) && TablesOk(mem2, root, cover2)
    requires SameWalks(mem0, cover0, mem1, cover1, root) && SameWalks(mem1, cover1, mem2, cover2, root)
    ensures SameWalks(mem0, cover0, mem2, cover2, root)
  {
    hide Walk, NoLarge;
  }

  /** Going through the same slot is lying on the same page. */
  lemma {:induction false} SlotIsPage(r: Range, va: nat, x: nat)
    requires r.level <= 3 && r.base % (512 * Span(r.level)) == 0 && InRange(va, r)
    ensures InSlot(x, r, Index(va, r.level)) <==> OnPage(x, va, r.level)
  {
    hide Span, Index;
    var s, i := Span(r.level), Index(va, r.level);
    SlotOf(va, r);
    var q := BaseOf(r.base, s);
    var k := 512 * q + i;
    assert s * k == r.base + i * s by { assert s * (512 * q + i) == s * (512 * q) + s * i; }
    assert (i + 1) * s == i * s + s;
    DivUnique(va, s, k);
    assert va == s * k + va % s;
  }

  lemma {:induction false} PageOffset(x: nat, va: nat, level: nat)
    requires OnPage(x, va, level)
    ensures x % Span(level) == x - AlignDown(va, Span(level))
  {
    hide Span;
    var s := Span(level);
    var k := va / s;
    assert AlignDown(va, s) == s * k;
    DivUnique(x, s, k);
    assert x == s * k + x % s;
  }

  /** Where an entry leads an address. */
  ghost function EntryHit(e: Entry, level: nat, x: nat): Option<Hit> {
    if e.present then Some(Hit(e.address + x % Span(level), LeafRights(e, level))) else None
  }

  /** What writing `e` into the entry for the page of `va` does to translation and to large pages. */
  ghost predicate Installed(mem: Memory, mem1: Memory, cover: Cover, root: nat, va: nat, level: nat, e: Entry)
    requires TablesOk(mem, root, cover) && TablesOk(mem1, root, cover)
  {
    && (forall x: nat :: x < SPACE ==>
          Translate(mem1, root, cover, x)
          == if OnPage(x, va, level) then
               EntryHit(e, level, x)
             else Translate(mem, root, cover, x))
    && (forall x: nat, lv :: x < SPACE && !OnPage(x, va, level) ==>
          NoLarge(mem1, cover, root, x, lv) == NoLarge(mem, cover, root, x, lv))
    && (forall x: nat :: x < SPACE ==>
          NoLarge(mem1, cover, root, x, level) == NoLarge(mem, cover, root, x, level))
  }

  /** An entry that maps a page, written into the table the way to `va` leads to. */
  lemma {:induction false} Install(mem: Memory, cover: Cover, root: nat, va: nat, t: nat, level: nat, e: Entry)
    requires TablesOk(mem, root, cover) && va < SPACE && level <= 2
    requires t in cover && cover[t].level == level && Reaches(mem, cover, root, va, t)
    requires e.address % PAGE == 0 && (e.present ==> MapsPage(e, level) && e.address % Span(level) == 0)
    ensures t in mem && Index(va, level) < |mem[t]| && TablesOk(Written(mem, t, Index(va, level), e), root, cover)
    ensures Installed(mem, Written(mem, t, Index(va, level), e), cover, root, va, level, e)
  {
    hide Span, Index, Walk, NoLarge, Reaches, InSlot, OnPage, AlignDown;
    var i := Index(va, level);
    assert TableOk(t, mem, cover);
    var mem1 := Written(mem, t, i, e);
    TopTable(mem, cover, root, va);
    WrittenOk(mem, cover, t, i, e);
    ReachedRange(mem, cover, root, va, t);
    forall x: nat | x < SPACE
      ensures Translate(mem1, root, cover, x)
              == if OnPage(x, va, level) then
                   EntryHit(e, level, x)
                 else Translate(mem, root, cover, x)
      ensures NoLarge(mem1, cover, root, x, level) == NoLarge(mem, cover, root, x, level)
    {
      TopTable(mem, cover, root, x);
      SlotIsPage(cover[t], va, x);
      if OnPage(x, va, level) {
        WrittenInside(mem, cover, t, i, e, root, va, x);
        InstallClear(mem, cover, root, va, t, i, e, x);
      } else {
        WrittenOutside(mem, cover, t, i, e, root, x, level);
      }
    }
    forall x: nat, lv | x < SPACE && !OnPage(x, va, level)
      ensures NoLarge(mem1, cover, root, x, lv) == NoLarge(mem, cover, root, x, lv)
    {
      TopTable(mem, cover, root, x);
      SlotIsPage(cover[t], va, x);
      WrittenOutside(mem, cover, t, i, e, root, x, lv);
    }
  }

  /** The way to the written table was clear before and is clear after. */
  lemma {:induction false} InstallClear(mem: Memory, cover: Cover, root: nat, va: nat, t: nat, i: nat, e: Entry, x: nat)
    requires AllTables(mem, cover) && t in cover && i < 512 && t in mem && i < |mem[t]|
    requires EntryOk(e, cover[t], i, cover) && AllTables(Written(mem, t, i, e), cover)
    requires root in cover && InRange(va, cover[root]) && Reaches(mem, cover, root, va, t) && InSlot(x, cover[t], i)
    ensures NoLarge(Written(mem, t, i, e), cover, root, x, cover[t].level)
    ensures NoLarge(mem, cover, root, x, cover[t].level)
  {
    hide Span, Index;
    var mem1 := Written(mem, t, i, e);
    assert TableOk(t, mem, cover);
    SlotUnique(x, cover[t], i);
    ReachTogether(mem, cover, root, va, t, x);
    WrittenReach(mem, cover, t, i, e, root, x);
    WalkFrom(mem, cover, root, x, t, cover[t].level);
    WalkFrom(mem1, cover, root, x, t, cover[t].level);
  }
}
