/** Properties of whole runs of an arena: what freeing undoes, and what every order of frees agrees on. */
module VmemRuns {
  import opened Word64
  import opened SegFit
  import opened Sequences
  import opened SegmentQueue
  import opened SegmentPool
  import opened Vmem

  // ---------------------------------------------------------------------------
  // Sequences of frees

  /** Freeing the blocks of `blocks` in this order from `gs` ends in `hs`. */
  ghost predicate FreesTo(gs: seq<Group>, blocks: seq<Tag>, canReturn: bool, hs: seq<Group>)
    decreases |blocks|
  {
    if blocks == [] then
      hs == gs
    else
      exists ms :: FreeStep(gs, blocks[0], canReturn, ms) && FreesTo(ms, blocks[1..], canReturn, hs)
  }

  /** The span is handed back once all of `blocks` are freed: it is imported, and all it has are some of these. */
  ghost predicate GoesBack(g: Group, blocks: set<Tag>, canReturn: bool) {
    canReturn && g.span.imported && Live(g.body) != {} && Live(g.body) <= blocks
  }

  /** The spans that are left after freeing `blocks`, in order. */
  ghost function Remaining(gs: seq<Group>, blocks: set<Tag>, canReturn: bool): seq<Tag> {
    if gs == [] then
      []
    else
      (if GoesBack(gs[0], blocks, canReturn) then [] else [gs[0].span]) + Remaining(gs[1..], blocks, canReturn)
  }

  lemma {:induction false} RemainingAppend(as_: seq<Group>, bs: seq<Group>, blocks: set<Tag>, canReturn: bool)
    ensures Remaining(as_ + bs, blocks, canReturn) == Remaining(as_, blocks, canReturn) + Remaining(bs, blocks, canReturn)
  {
    if as_ == [] {
      assert as_ + bs == bs;
    } else {
      assert (as_ + bs)[0] == as_[0] && (as_ + bs)[1..] == as_[1..] + bs;
      RemainingAppend(as_[1..], bs, blocks, canReturn);
    }
  }

  /** Groups that agree on what goes back leave the same spans. */
  lemma {:induction false} RemainingSame(gs: seq<Group>, b: set<Tag>, c: set<Tag>, canReturn: bool)
    requires forall k :: 0 <= k < |gs| ==> (GoesBack(gs[k], b, canReturn) <==> GoesBack(gs[k], c, canReturn))
    ensures Remaining(gs, b, canReturn) == Remaining(gs, c, canReturn)
  {
    hide GoesBack;
    if gs != [] {
      assert forall k :: 0 <= k < |gs[1..]| ==> gs[1..][k] == gs[k + 1];
      RemainingSame(gs[1..], b, c, canReturn);
    }
  }

  lemma {:induction false} RemainingNone(gs: seq<Group>, canReturn: bool)
    ensures Remaining(gs, {}, canReturn) == Spans(gs)
  {
    if gs != [] {
      RemainingNone(gs[1..], canReturn);
      assert Spans(gs) == [gs[0].span] + Spans(gs[1..]);
    }
  }

  /** `gs` around its element `k`. */
  lemma {:induction false} RemainingSplit(gs: seq<Group>, k: nat, mid: seq<Group>, blocks: set<Tag>, canReturn: bool)
    requires k < |gs|
    ensures Remaining(Splice(gs, k, 1, mid), blocks, canReturn)
            == Remaining(gs[..k], blocks, canReturn) + Remaining(mid, blocks, canReturn) + Remaining(gs[k + 1..], blocks, canReturn)
  {
    hide GoesBack, Remaining;
    RemainingAppend(gs[..k] + mid, gs[k + 1..], blocks, canReturn);
    RemainingAppend(gs[..k], mid, blocks, canReturn);
  }

  /** One block's step and the blocks still to come: the same spans remain. */
  lemma {:induction false} StepRemaining(gs: seq<Group>, quantum: nat, t: Tag, rest: set<Tag>, canReturn: bool, hs: seq<Group>)
    requires QueueOk(gs, quantum) && FreeStep(gs, t, canReturn, hs)
    ensures Remaining(hs, rest, canReturn) == Remaining(gs, rest + {t}, canReturn)
    ensures QueueOk(hs, quantum) && AllLive(hs) == AllLive(gs) - {t}
  {
    hide Remaining, QueueOk, Live, AllLive, Splice, Spans, Release;
    var k: nat, j: nat :|
      && k < |gs| && j < |gs[k].body| && gs[k].body[j] == t && t.kind == Allocated
      && hs == if canReturn && LastBlockOf(gs, k, t) then Splice(gs, k, 1, []) else Freed(gs, k, j);
    var g := gs[k];
    FreedOk(gs, quantum, k, j);
    FreedGroup(gs, quantum, k, j);
    var h := Freed(gs, k, j)[k];
    OthersUntouched(gs, quantum, k, t, rest, canReturn);
    RemainingSame(gs[..k], rest, rest + {t}, canReturn);
    RemainingSame(gs[k + 1..], rest, rest + {t}, canReturn);
    RemainingSplit(gs, k, [g], rest + {t}, canReturn);
    RemainingSplit(gs, k, [h], rest, canReturn);
    RemainingSplit(gs, k, [], rest, canReturn);
    OneRemaining(g, rest + {t}, canReturn);
    OneRemaining(h, rest, canReturn);
    SpliceBack(gs, k);
    if canReturn && LastBlockOf(gs, k, t) {
      DroppedSpan(gs, quantum, k, j);
    }
  }

  lemma {:induction false} OneRemaining(g: Group, blocks: set<Tag>, canReturn: bool)
    ensures Remaining([], blocks, canReturn) == []
    ensures Remaining([g], blocks, canReturn) == if GoesBack(g, blocks, canReturn) then [] else [g.span]
  {
    assert [g][1..] == [];
  }

  lemma {:induction false} SpliceBack(gs: seq<Group>, k: nat)
    requires k < |gs|
    ensures Splice(gs, k, 1, [gs[k]]) == gs
  {
  }

  /** The group of the freed block, with one live block less. */
  lemma {:induction false} FreedGroup(gs: seq<Group>, quantum: nat, k: nat, j: nat)
    requires QueueOk(gs, quantum) && k < |gs| && j < |gs[k].body| && gs[k].body[j].kind == Allocated
    ensures Freed(gs, k, j) == Splice(gs, k, 1, [Freed(gs, k, j)[k]])
    ensures Freed(gs, k, j)[k].span == gs[k].span
    ensures gs[k].body[j] in Live(gs[k].body) && Live(Freed(gs, k, j)[k].body) == Live(gs[k].body) - {gs[k].body[j]}
  {
    hide Live, QueueOk;
    GroupOf(gs, quantum, k);
    GroupTiles(gs[k], quantum);
    ReleaseLive(gs[k].body, gs[k].span.base, gs[k].span.End(), j);
    InLive(gs[k].body, j);
  }

  /** For the other groups the block makes no difference. */
  lemma {:induction false} OthersUntouched(gs: seq<Group>, quantum: nat, k: nat, t: Tag, rest: set<Tag>, canReturn: bool)
    requires QueueOk(gs, quantum) && k < |gs| && t in Live(gs[k].body)
    ensures forall m :: 0 <= m < |gs| && m != k ==> (GoesBack(gs[m], rest, canReturn) <==> GoesBack(gs[m], rest + {t}, canReturn))
  {
    hide Live, QueueOk;
    forall m | 0 <= m < |gs| && m != k ensures GoesBack(gs[m], rest, canReturn) <==> GoesBack(gs[m], rest + {t}, canReturn) {
      LiveElsewhere(gs, quantum, k, m, t);
    }
  }

  lemma {:induction false} DroppedSpan(gs: seq<Group>, quantum: nat, k: nat, j: nat)
    requires QueueOk(gs, quantum) && k < |gs| && j < |gs[k].body| && gs[k].body[j].kind == Allocated
    requires LastBlockOf(gs, k, gs[k].body[j])
    ensures QueueOk(Splice(gs, k, 1, []), quantum) && AllLive(Splice(gs, k, 1, [])) == AllLive(gs) - {gs[k].body[j]}
  {
    hide Live, QueueOk, AllLive, TotalLive;
    DroppedOk(gs, quantum, k);
  }

  /** What a sequence of frees leaves: the other blocks live, and exactly the spans that did not go back. */
  lemma {:induction false} FreesToOk(gs: seq<Group>, quantum: nat, blocks: seq<Tag>, canReturn: bool, hs: seq<Group>)
    requires QueueOk(gs, quantum) && FreesTo(gs, blocks, canReturn, hs)
    ensures QueueOk(hs, quantum) && Spans(hs) == Remaining(gs, Elements(blocks), canReturn)
    ensures AllLive(hs) == AllLive(gs) - Elements(blocks)
    decreases |blocks|
  {
    hide QueueOk, Spans, AllLive, Remaining, FreeStep;
    if blocks == [] {
      assert Elements(blocks) == {};
      RemainingNone(gs, canReturn);
    } else {
      var ms :| FreeStep(gs, blocks[0], canReturn, ms) && FreesTo(ms, blocks[1..], canReturn, hs);
      StepRemaining(gs, quantum, blocks[0], Elements(blocks[1..]), canReturn, ms);
      FreesToOk(ms, quantum, blocks[1..], canReturn, hs);
      assert blocks == [blocks[0]] + blocks[1..];
      assert Elements(blocks) == Elements(blocks[1..]) + {blocks[0]};
    }
  }

  /** Freeing the same blocks in any order leaves the same queue, segment by segment, and hands the same spans back. */
  lemma {:induction false} FreeOrderIrrelevant(gs: seq<Group>, quantum: nat, a: seq<Tag>, b: seq<Tag>, canReturn: bool,
                                               ga: seq<Group>, gb: seq<Group>)
    requires QueueOk(gs, quantum) && FreesTo(gs, a, canReturn, ga) && FreesTo(gs, b, canReturn, gb)
    requires Elements(a) == Elements(b)
    ensures ga == gb
  {
    hide QueueOk, Spans, AllLive, FreesTo, Remaining;
    FreesToOk(gs, quantum, a, canReturn, ga);
    FreesToOk(gs, quantum, b, canReturn, gb);
    QueueCanonical(ga, gb, quantum);
  }

  // ---------------------------------------------------------------------------
  // Allocation undone

  /** A constrained allocation followed by its free restores the queue and the statistics when nothing was imported. */
  method AllocThenFree(arena: Arena, size: nat, align: nat, phase: nat, minaddr: nat, maxaddr: nat, bootstrap: bool)
    requires arena.Valid() && arena.OnGrid(Request(size, if align == 0 then arena.quantum else align, phase, minaddr, maxaddr))
    requires Fair(arena.groups, Request(size, if align == 0 then arena.quantum else align, phase, minaddr, maxaddr))
    requires arena.canReturn ==> Busy(arena.groups)
    modifies arena, arena.pool, arena.freelist, arena.hashtable, arena.segqueue, arena.pool.free
    ensures arena.Valid() && arena.groups == old(arena.groups)
    ensures arena.statInUse == old(arena.statInUse) && arena.statFree == old(arena.statFree)
  {
    hide QueueOk, Spans, AllLive, Flatten, Shows, Placeable, Chosen, Placed, Imported, TotalLive, Fair, Busy, Wrap, ValidRequest;
    ghost var gs := arena.groups;
    NoImports(gs, size);
    var r, used := arena.XAlloc(size, align, phase, minaddr, maxaddr, bootstrap, []);
    if r.Block? {
      ghost var hs := arena.groups;
      Known(arena);
      var returned := arena.XFree(r.addr, size);
      if arena.canReturn {
        StillBusy(gs, arena.quantum, hs, LiveTag(r.addr, size));
      }
      assert returned.None?;
      QueueCanonical(arena.groups, gs, arena.quantum);
      Restored(old(arena.statFree), size);
    }
  }

  lemma {:induction false} Restored(n: nat, size: nat)
    requires n < TWO64
    ensures Wrap(Wrap(n - size) + size) == n
  {
    WrapShift(n - size, size);
  }

  /** After an allocation the queue holds only descriptors from the queue or the pool of before, or new ones. */
  twostate lemma Known(arena: Arena)
    requires arena.GrownBy(old(Elements(arena.segqueue) + Elements(arena.pool.free)), Elements(arena.segqueue) + Elements(arena.pool.free))
    ensures forall n :: 0 <= n < |arena.segqueue| ==>
              arena.segqueue[n] in old(arena.segqueue) || arena.segqueue[n] in old(arena.pool.free) || fresh(arena.segqueue[n])
  {
    forall n | 0 <= n < |arena.segqueue|
      ensures arena.segqueue[n] in old(arena.segqueue) || arena.segqueue[n] in old(arena.pool.free) || fresh(arena.segqueue[n])
    {
      assert arena.segqueue[n] in Elements(arena.segqueue) + Elements(arena.pool.free);
    }
  }

  /** A block that was not live before is not the last block of a span that was busy before. */
  lemma {:induction false} StillBusy(gs: seq<Group>, quantum: nat, hs: seq<Group>, t: Tag)
    requires Busy(gs) && Spans(gs) == Spans(hs) && AllLive(hs) == AllLive(gs) + {t} && t !in AllLive(gs)
    requires QueueOk(gs, quantum) && QueueOk(hs, quantum)
    ensures forall k :: !LastBlockOf(hs, k, t)
  {
    forall k ensures !LastBlockOf(hs, k, t) {
      if LastBlockOf(hs, k, t) {
        assert |Spans(gs)| == |gs| && |Spans(hs)| == |hs|;
        assert gs[k].span == Spans(gs)[k] == Spans(hs)[k] == hs[k].span;
        var u :| u in Live(gs[k].body);
        assert u in AllLive(gs);
        OtherSpan(gs, hs, quantum, k, u);
        assert false;
      }
    }
  }

  /** A block stays in its span. */
  lemma {:induction false} OtherSpan(gs: seq<Group>, hs: seq<Group>, quantum: nat, k: nat, u: Tag)
    requires QueueOk(gs, quantum) && QueueOk(hs, quantum) && Spans(gs) == Spans(hs)
    requires k < |gs| && k < |hs| && u in Live(gs[k].body) && u in AllLive(hs)
    ensures u in Live(hs[k].body)
  {
    var m: nat :| m < |hs| && u in Live(hs[m].body);
    var i: nat :| i < |gs[k].body| && gs[k].body[i] == u;
    var j: nat :| j < |hs[m].body| && hs[m].body[j] == u;
    assert gs[k].span == Spans(gs)[k] == Spans(hs)[k] == hs[k].span;
    TilesInside(gs[k].body, gs[k].span.base, gs[k].span.End(), i);
    TilesInside(hs[m].body, hs[m].span.base, hs[m].span.End(), j);
    assert m == k;
  }

  lemma {:induction false} OneBlock(t: Tag)
    ensures t.kind == Allocated ==> Live([t]) == {t}
  {
  }

  lemma {:induction false} LastBlockUnique(gs: seq<Group>, quantum: nat, k: nat, m: nat, t: Tag)
    requires QueueOk(gs, quantum) && LastBlockOf(gs, k, t) && LastBlockOf(gs, m, t)
    ensures k == m
  {
    assert t in Live(gs[k].body) && t in Live(gs[m].body);
    if k != m {
      LiveElsewhere(gs, quantum, k, m, t);
      assert false;
    }
  }

  lemma {:induction false} DropLast(gs: seq<Group>, g: Group)
    ensures Splice(gs + [g], |gs|, 1, []) == gs
  {
  }

  /** Alloc, with an import or without, then free: the span goes back and the arena is as before. */
  method ImportThenFree(arena: Arena, size: nat, bootstrap: bool, replies: seq<nat>)
    requires arena.Valid() && IsPow2(arena.quantum) && 0 < size < TWO64 && size % arena.quantum == 0
    requires arena.Importable(arena.groups, replies, size) && BelowTop(arena.groups + Imported(replies, size))
    requires arena.canReturn && Busy(arena.groups)
    modifies arena, arena.pool, arena.freelist, arena.hashtable, arena.segqueue, arena.pool.free
    ensures arena.Valid() && arena.groups == old(arena.groups)
  {
    hide QueueOk, AllLive, Flatten, Shows, Placeable, Imported, TotalLive, Live, Splice, BelowTop, Busy;
    ghost var gs := arena.groups;
    var r, used := arena.Alloc(size, bootstrap, replies);
    if !r.Block? {
      return;
    }
    ghost var hs := arena.groups;
    NoImports(gs, size);
    ghost var t := LiveTag(r.addr, size);
    if used == 1 {
      OneBlock(t);
      assert hs[|gs|].body == [t];
      assert LastBlockOf(hs, |gs|, t);
    } else {
      StillBusy(gs, arena.quantum, hs, t);
    }
    Known(arena);
    var returned := arena.XFree(r.addr, size);
    if used == 1 {
      ghost var k :| LastBlockOf(hs, k, t) && arena.groups == Splice(hs, k, 1, []);
      LastBlockUnique(hs, arena.quantum, k, |gs|, t);
      DropLast(gs, hs[|gs|]);
    } else {
      QueueCanonical(arena.groups, gs, arena.quantum);
    }
  }

  // ---------------------------------------------------------------------------
  // Running out of descriptors

  /** The first `n` pages with odd numbers. */
  function OddPages(n: nat): seq<nat> {
    seq(n, i requires 0 <= i < n => 0x1000 + 0x2000 * i)
  }

  /**
   A source that answers with odd pages to a request for an even one: an arena without spans and
   an empty pool, refilled once, makes 31 imports in vain and has no descriptors for the next.
   */
  lemma {:induction false} DescriptorsCanRunOut()
    ensures var q, replies := Request(0x1000, 0x2000, 0, 0, TWO64 - 1), OddPages(32);
            && ValidRequest(q)
            && QueueOk([] + Imported(replies, q.size), 0x1000) && Fair([] + Imported(replies, q.size), q)
            && RunsDry([], q, replies, true, Refilled(0, false))
  {
    hide QueueOk, Placeable, Fair;
    var q := Request(0x1000, 0x2000, 0, 0, TWO64 - 1);
    assert Pow2(8) == 256 by { Pow2Plus8(0); }
    assert Pow2(13) == 0x2000 by { assert Pow2(10) == 4 * Pow2(8); assert Pow2(12) == 4 * Pow2(10); }
    assert OddPages(32)[..31] == OddPages(31);
    OddPagesOk(32, q);
    OddPagesVain(31, q);
    assert (Refilled(0, false) - 2) / 2 == 31;
  }

  lemma {:induction false} OddPagesOk(n: nat, q: Request)
    requires n <= 32 && q == Request(0x1000, 0x2000, 0, 0, TWO64 - 1)
    ensures QueueOk([] + Imported(OddPages(n), 0x1000), 0x1000) && Fair([] + Imported(OddPages(n), 0x1000), q)
  {
    var gs := [] + Imported(OddPages(n), 0x1000);
    forall k | 0 <= k < |gs| ensures GroupOk(gs[k], 0x1000) && gs[k].span.base == 0x1000 + 0x2000 * k {
      assert gs[k].span.base == 0x1000 * (1 + 2 * k);
    }
  }

  lemma {:induction false} OddPagesVain(n: nat, q: Request)
    requires q == Request(0x1000, 0x2000, 0, 0, TWO64 - 1)
    ensures !Placeable([] + Imported(OddPages(n), 0x1000), q)
  {
    var gs := [] + Imported(OddPages(n), 0x1000);
    forall k, j, addr: nat ensures !PlaceableAt(gs, q, k, j, addr) {
      if PlaceableAt(gs, q, k, j, addr) {
        assert false;
      }
    }
  }
}
