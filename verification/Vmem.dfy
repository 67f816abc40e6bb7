/**
 The arena: one address-ordered queue of boundary tags with two indexes over it,
 power-of-two freelists for the free segments and a hash table for the live ones.
 */
module Vmem {
  import opened Word64
  import opened SegFit
  import opened Sequences
  import opened SegmentQueue
  import opened SegmentPool

  const FREELISTS := 64
  const BUCKETS := 16

  type Bucket = b: nat | b < BUCKETS witness 0

  /** The freelist of a size, GET_LIST(size) - 1: sizes from one power of two up to the next share a list. */
  function ListOf(size: nat): (i: nat)
    requires 2 <= size < TWO64
    ensures i < FREELISTS - 1 && Pow2(i + 1) <= size < Pow2(i + 2)
  {
    Log2Monotone(2, size);
    Log2Below64(size);
    Log2Bounds(size);
    Log2(size) - 1
  }

  class Arena {
    const quantum: nat
    const pool: Pool
    const hash: nat -> Bucket
    const canImport: bool
    const canReturn: bool
    const freelist: array<seq<Segment>>
    const hashtable: array<seq<Segment>>
    var segqueue: seq<Segment>
    ghost var groups: seq<Group>
    var statFree: nat
    var statInUse: nat
    var statTotal: nat

    /** The arena before its first span. */
    constructor (quantum: nat, pool: Pool, hash: nat -> Bucket, canImport: bool, canReturn: bool, size: nat, total: nat)
      requires quantum >= 2 && pool.Valid() && size < TWO64
      ensures Valid() && groups == [] && segqueue == [] && fresh(freelist) && fresh(hashtable)
      ensures this.quantum == quantum && this.pool == pool && this.hash == hash
      ensures this.canImport == canImport && this.canReturn == canReturn
      ensures statFree == size && statTotal == Wrap(total + size) && statInUse == 0
    {
      this.quantum, this.pool, this.hash := quantum, pool, hash;
      this.canImport, this.canReturn := canImport, canReturn;
      freelist := new seq<Segment>[FREELISTS](_ => []);
      hashtable := new seq<Segment>[BUCKETS](_ => []);
      segqueue, groups := [], [];
      statFree, statTotal, statInUse := size, Wrap(total + size), 0;
    }

    /**
     `vmem_init`. The initial span is queued only without a source; its size is then counted twice
     in the statistics, once here and once by `vmem_add`. The total is added to what the structure
     held before, `total`.
     */
    static method Init(quantum: nat, pool: Pool, hash: nat -> Bucket, canImport: bool, canReturn: bool,
                       hasSource: bool, base: nat, size: nat, total: nat) returns (a: Arena)
      requires quantum >= 2 && pool.Valid() && size < TWO64 && base + size <= TWO64
      requires !hasSource && size > 0 ==> |pool.free| >= 2 && Quantized(Tag(Span, false, base, size), quantum)
      modifies pool, pool.free
      ensures a.Valid() && fresh(a) && fresh(a.freelist) && fresh(a.hashtable)
      ensures a.quantum == quantum && a.pool == pool && a.hash == hash
      ensures a.canImport == canImport && a.canReturn == canReturn
      ensures a.groups == if !hasSource && size > 0 then [Group(Tag(Span, false, base, size), [FreeTag(base, size)])]
                          else []
      ensures a.statInUse == 0
      ensures a.statFree == if hasSource then size else Wrap(2 * size)
      ensures a.statTotal == Wrap(total + if hasSource then size else 2 * size)
    {
      hide QueueOk, Flatten, Shows, Arena.Indexed, Arena.Shape, TotalLive, Wrap, Covered, Quantized;
      a := new Arena(quantum, pool, hash, canImport, canReturn, size, total);
      WrapShift(total + size, size);
      NothingQueued(base, size);
      if !hasSource && size > 0 {
        var added := a.Add(base, size);
      }
    }

    ghost predicate Shape()
      reads this`segqueue, pool
    {
      && freelist.Length == FREELISTS && hashtable.Length == BUCKETS && freelist != hashtable
      && pool.Valid()
      && Distinct(segqueue)
      && (forall s :: s in segqueue ==> s !in pool.free)
    }

    /** A queued free segment of a size the freelists can hold. */
    ghost predicate FreeSized(s: Segment)
      reads s
    {
      s.kind == Free && 2 <= s.size < TWO64
    }

    /** Both indexes agree with the queue, except for the segments of `out`, which are in neither. */
    ghost predicate Indexed(out: set<Segment>)
      requires freelist.Length == FREELISTS && hashtable.Length == BUCKETS
      reads this`segqueue, freelist, hashtable, segqueue
    {
      && (forall i :: 0 <= i < FREELISTS ==> Distinct(freelist[i]))
      && (forall i :: 0 <= i < BUCKETS ==> Distinct(hashtable[i]))
      && (forall i, s :: 0 <= i < FREELISTS && s in freelist[i] ==>
            s in segqueue && s !in out && FreeSized(s) && ListOf(s.size) == i)
      && (forall s :: s in segqueue && s !in out && s.kind == Free ==>
            FreeSized(s) && s in freelist[ListOf(s.size)])
      && (forall i, s :: 0 <= i < BUCKETS && s in hashtable[i] ==>
            s in segqueue && s !in out && s.kind == Allocated && hash(s.base) == i)
      && (forall s :: s in segqueue && s !in out && s.kind == Allocated ==> s in hashtable[hash(s.base)])
    }

    ghost predicate Valid()
      reads this, pool, freelist, hashtable, segqueue
    {
      && Shape() && Indexed({})
      && quantum >= 2
      && QueueOk(groups, quantum) && statInUse == Wrap(TotalLive(groups)) && statFree < TWO64
      && Shows(segqueue, Flatten(groups))
    }

    /** Every queued segment is in exactly the list its kind, size and address call for. */
    lemma {:induction false} IndexesExact(s: Segment)
      requires Valid() && s in segqueue
      ensures s.kind == Free ==> FreeSized(s) && forall i :: 0 <= i < FREELISTS ==> (s in freelist[i] <==> i == ListOf(s.size))
      ensures s.kind == Allocated ==> forall i :: 0 <= i < BUCKETS ==> (s in hashtable[i] <==> i == hash(s.base))
      ensures s.kind != Free ==> forall i :: 0 <= i < FREELISTS ==> s !in freelist[i]
      ensures s.kind != Allocated ==> forall i :: 0 <= i < BUCKETS ==> s !in hashtable[i]
    {
      hide QueueOk, Flatten, Shows, TotalLive;
    }

    // -------------------------------------------------------------------------
    // Index maintenance

    /** LIST_REMOVE from a freelist. */
    method Unlist(seg: Segment, ghost out: set<Segment>)
      requires Shape() && Indexed(out) && seg in segqueue && seg !in out && seg.kind == Free
      modifies freelist
      ensures Indexed(out + {seg})
    {
      var i := ListOf(seg.size);
      freelist[i] := Without(freelist[i], seg);
    }

    /** `vmem_add_to_freelist`. */
    method AddToFreelist(seg: Segment, ghost out: set<Segment>)
      requires Shape() && Indexed(out + {seg}) && seg in segqueue && FreeSized(seg) && seg !in out
      modifies freelist
      ensures Indexed(out) && freelist[ListOf(seg.size)] == [seg] + old(freelist[ListOf(seg.size)])
      ensures forall k :: 0 <= k < FREELISTS && k != ListOf(seg.size) ==> freelist[k] == old(freelist[k])
    {
      var i := ListOf(seg.size);
      freelist[i] := [seg] + freelist[i];
    }

    /** `hashtab_insert`. */
    method HashInsert(seg: Segment, ghost out: set<Segment>)
      requires Shape() && Indexed(out + {seg}) && seg in segqueue && seg.kind == Allocated && seg !in out
      modifies hashtable
      ensures Indexed(out) && hashtable[hash(seg.base)] == [seg] + old(hashtable[hash(seg.base)])
      ensures forall k :: 0 <= k < BUCKETS && k != hash(seg.base) ==> hashtable[k] == old(hashtable[k])
    {
      var i := hash(seg.base);
      hashtable[i] := [seg] + hashtable[i];
    }

    /** LIST_REMOVE from a hash bucket. */
    method Unhash(seg: Segment)
      requires Shape() && Indexed({}) && seg in segqueue && seg.kind == Allocated
      modifies hashtable
      ensures Indexed({seg})
    {
      var i := hash(seg.base);
      hashtable[i] := Without(hashtable[i], seg);
    }

    /** Insert `seg` in the queue in front of the segment at `i`. */
    method InsertAt(i: nat, seg: Segment, ghost out: set<Segment>)
      requires Shape() && Indexed(out) && i <= |segqueue| && seg !in segqueue && seg !in pool.free
      modifies this`segqueue
      ensures Shape() && Indexed(out + {seg})
      ensures segqueue == Splice(old(segqueue), i, 0, [seg])
    {
      InsertMembers(segqueue, i, seg);
      segqueue := Splice(segqueue, i, 0, [seg]);
    }

    /** Take the segment at `i`, which is in neither index, out of the queue. */
    method RemoveAt(i: nat, ghost out: set<Segment>)
      requires Shape() && i < |segqueue| && segqueue[i] !in out && Indexed(out + {segqueue[i]})
      modifies this`segqueue
      ensures Shape() && Indexed(out)
      ensures segqueue == Splice(old(segqueue), i, 1, []) && old(segqueue)[i] !in segqueue
      ensures forall s :: s in old(segqueue) <==> s in segqueue || s == old(segqueue)[i]
    {
      RemoveMembers(segqueue, i);
      segqueue := Splice(segqueue, i, 1, []);
    }

    /** Overwrite the tag of a segment that is in neither index. */
    method Retag(seg: Segment, kind: Kind, base: nat, size: nat, ghost out: set<Segment>)
      requires Shape() && Indexed(out) && (seg in out || seg !in segqueue) && kind != Span
      modifies seg
      ensures Indexed(out) && seg.Val() == Tag(kind, false, base, size)
    {
      seg.kind, seg.base, seg.size := kind, base, size;
    }

    // -------------------------------------------------------------------------
    // Searching

    /** What a search promises about the segment it picked, or about finding none. */
    ghost predicate Picked(q: Request, seg: Segment?, addr: nat)
      requires q.align > 0
      reads this, segqueue, seg
    {
      if seg == null then
        forall s :: s in segqueue && s.kind == Free && s.size >= q.size ==> Fit(s.base, s.size, q) == None
      else
        && seg in segqueue && FreeSized(seg) && seg.size >= q.size
        && Fit(seg.base, seg.size, q) == Some(addr)
        && (forall s :: s in segqueue && FreeSized(s) && s.size >= q.size && Fit(s.base, s.size, q).Some? ==>
              ListOf(seg.size) <= ListOf(s.size))
    }

    /** The best-fit search: every list from the request's own upwards, every segment of each list. */
    method FindFit(q: Request) returns (seg: Segment?, addr: nat)
      requires Shape() && Indexed({}) && 2 <= q.size < TWO64 && q.align > 0
      ensures Picked(q, seg, addr)
    {
      var first := ListOf(q.size);
      var i := first;
      while i < FREELISTS
        invariant first <= i <= FREELISTS
        invariant forall k, s :: first <= k < i && s in freelist[k] && s.size >= q.size ==>
                    Fit(s.base, s.size, q) == None
      {
        seg, addr := FindInList(q, i);
        if seg != null {
          forall s | s in segqueue && FreeSized(s) && s.size >= q.size && Fit(s.base, s.size, q).Some?
            ensures ListOf(seg.size) <= ListOf(s.size)
          {
            Log2Monotone(q.size, s.size);
            assert s in freelist[ListOf(s.size)];
          }
          return;
        }
        i := i + 1;
      }
      seg, addr := null, 0;
      forall s | s in segqueue && s.kind == Free && s.size >= q.size
        ensures Fit(s.base, s.size, q) == None
      {
        Log2Monotone(q.size, s.size);
        assert s in freelist[ListOf(s.size)];
      }
    }

    method FindInList(q: Request, i: nat) returns (seg: Segment?, addr: nat)
      requires Shape() && Indexed({}) && i < FREELISTS && q.align > 0
      ensures seg != null ==>
                exists n :: 0 <= n < |freelist[i]| && seg == freelist[i][n] && seg.size >= q.size && Fit(seg.base, seg.size, q) == Some(addr)
                  && forall k :: 0 <= k < n && freelist[i][k].size >= q.size ==> Fit(freelist[i][k].base, freelist[i][k].size, q) == None
      ensures seg == null ==>
                forall s :: s in freelist[i] && s.size >= q.size ==> Fit(s.base, s.size, q) == None
    {
      var n := 0;
      while n < |freelist[i]|
        invariant n <= |freelist[i]|
        invariant forall k :: 0 <= k < n && freelist[i][k].size >= q.size ==>
                    Fit(freelist[i][k].base, freelist[i][k].size, q) == None
      {
        seg := freelist[i][n];
        if seg.size >= q.size {
          var fit := Fit(seg.base, seg.size, q);
          if fit.Some? {
            return seg, fit.value;
          }
        }
        n := n + 1;
      }
      seg, addr := null, 0;
    }

    // -------------------------------------------------------------------------
    // Carving a block out of a free segment

    /** The part of the segment at `i` below `addr` becomes a free segment of its own. */
    method CutFront(i: nat, addr: nat, newSeg2: Segment)
      requires Shape() && i < |segqueue| && FreeSized(segqueue[i]) && Indexed({segqueue[i]})
      requires segqueue[i].base + 2 <= addr && addr + 2 <= segqueue[i].base + segqueue[i].size
      requires newSeg2 !in segqueue && newSeg2 !in pool.free
      modifies this`segqueue, freelist, segqueue[i], newSeg2
      ensures Shape() && Indexed({old(segqueue)[i]})
      ensures segqueue == Splice(old(segqueue), i, 0, [newSeg2])
      ensures |segqueue| == old(|segqueue|) + 1 && segqueue[i + 1] == old(segqueue)[i]
      ensures forall s :: s in segqueue ==> s in old(segqueue) || s == newSeg2
      ensures newSeg2.Val() == FreeTag(old(segqueue[i].base), addr - old(segqueue[i].base))
      ensures old(segqueue)[i].Val() == FreeTag(addr, old(segqueue[i].base + segqueue[i].size) - addr)
    {
      var seg := segqueue[i];
      Retag(newSeg2, Free, seg.base, addr - seg.base, {seg});
      Retag(seg, Free, addr, seg.size - newSeg2.size, {seg});
      InsertAt(i, newSeg2, {seg});
      AddToFreelist(newSeg2, {seg});
    }

    /** The segment at `i` becomes the block as it is. */
    method TakeWhole(i: nat, newSeg: Segment)
      requires Shape() && i < |segqueue| && FreeSized(segqueue[i]) && Indexed({segqueue[i]})
      requires newSeg !in segqueue && newSeg !in pool.free
      modifies pool, hashtable, segqueue[i]
      ensures Shape() && Indexed({})
      ensures pool.free == [newSeg] + old(pool.free)
      ensures segqueue[i].Val() == LiveTag(old(segqueue[i].base), old(segqueue[i].size))
    {
      var seg := segqueue[i];
      Retag(seg, Allocated, seg.base, seg.size, {seg});
      assert {} + {seg} == {seg};
      HashInsert(seg, {});
      pool.Give(newSeg);
    }

    /** The first `size` addresses of the segment at `i` become a block of their own. */
    method TakeFront(i: nat, size: nat, newSeg: Segment)
      requires Shape() && i < |segqueue| && FreeSized(segqueue[i]) && Indexed({segqueue[i]})
      requires size + 2 <= segqueue[i].size
      requires newSeg !in segqueue && newSeg !in pool.free
      modifies this`segqueue, freelist, hashtable, segqueue[i], newSeg
      ensures Shape() && Indexed({})
      ensures segqueue == Splice(old(segqueue), i, 0, [newSeg])
      ensures newSeg.Val() == LiveTag(old(segqueue[i].base), size)
      ensures old(segqueue)[i].Val() == FreeTag(old(segqueue[i].base) + size, old(segqueue[i].size) - size)
    {
      hide Indexed, ListOf;
      var seg := segqueue[i];
      Retag(newSeg, Allocated, seg.base, size, {seg});
      Retag(seg, Free, seg.base + size, seg.size - size, {seg});
      InsertAt(i, newSeg, {seg});
      assert {seg} + {newSeg} == {newSeg} + {seg};
      AddToFreelist(seg, {newSeg});
      assert {} + {newSeg} == {newSeg};
      HashInsert(newSeg, {});
    }

    /** The first `size` addresses of the segment at `i` become the allocated block. */
    method CutBack(i: nat, size: nat, newSeg: Segment) returns (ghost mid: seq<Segment>, ghost spare: seq<Segment>)
      requires Shape() && i < |segqueue| && FreeSized(segqueue[i]) && Indexed({segqueue[i]})
      requires quantum >= 2 && 0 < size <= segqueue[i].size
      requires size == segqueue[i].size || size + quantum <= segqueue[i].size
      requires newSeg !in segqueue && newSeg !in pool.free
      modifies this`segqueue, pool, freelist, hashtable, segqueue[i], newSeg
      ensures Shape() && Indexed({})
      ensures segqueue == Splice(old(segqueue), i, 1, mid) && pool.free == spare + old(pool.free)
      ensures Shows(mid, Pieces(old(segqueue[i].Val()), old(segqueue[i].base), size))
      ensures forall s :: s in segqueue ==> s in old(segqueue) || s == newSeg
      ensures || (spare == [] && mid == [newSeg, old(segqueue)[i]])
              || (spare == [newSeg] && mid == [old(segqueue)[i]])
    {
      var seg := segqueue[i];
      SpliceSelf(segqueue, i, newSeg);
      if seg.size != size && seg.size - size > quantum - 1 {
        mid, spare := [newSeg, seg], [];
        TakeFront(i, size, newSeg);
      } else {
        mid, spare := [seg], [newSeg];
        TakeWhole(i, newSeg);
      }
    }

    /**
     Cut [addr, addr + size) out of the free segment at queue position `i`, which becomes `mid`;
     the descriptors not needed for that go back to the pool.
     */
    method Carve(i: nat, addr: nat, size: nat, newSeg: Segment, newSeg2: Segment)
      returns (ghost mid: seq<Segment>, ghost spare: seq<Segment>)
      requires Shape() && Indexed({}) && quantum >= 2
      requires i < |segqueue| && FreeSized(segqueue[i]) && size >= 2
      requires addr == segqueue[i].base || segqueue[i].base + 2 <= addr
      requires var end := segqueue[i].base + segqueue[i].size;
               addr + size == end || addr + size + quantum <= end
      requires newSeg != newSeg2
      requires newSeg !in segqueue && newSeg !in pool.free
      requires newSeg2 !in segqueue && newSeg2 !in pool.free
      modifies this`segqueue, pool, freelist, hashtable, segqueue[i], newSeg, newSeg2
      ensures Shape() && Indexed({})
      ensures segqueue == Splice(old(segqueue), i, 1, mid) && pool.free == spare + old(pool.free)
      ensures Shows(mid, Pieces(old(segqueue[i].Val()), addr, size))
      ensures multiset(mid) + multiset(spare) == multiset{old(segqueue)[i], newSeg, newSeg2}
    {
      hide Indexed, Splice, Pieces, Shows;
      assert {} + {segqueue[i]} == {segqueue[i]};
      Unlist(segqueue[i], {});
      if segqueue[i].base != addr {
        mid, spare := CarveAbove(i, addr, size, newSeg, newSeg2);
      } else {
        mid, spare := CutBack(i, size, newSeg);
        pool.Give(newSeg2);
        spare := [newSeg2] + spare;
      }
    }

    method CarveAbove(i: nat, addr: nat, size: nat, newSeg: Segment, newSeg2: Segment)
      returns (ghost mid: seq<Segment>, ghost spare: seq<Segment>)
      requires Shape() && i < |segqueue| && Indexed({segqueue[i]}) && quantum >= 2
      requires FreeSized(segqueue[i]) && size >= 2
      requires segqueue[i].base + 2 <= addr
      requires var end := segqueue[i].base + segqueue[i].size;
               addr + size == end || addr + size + quantum <= end
      requires newSeg != newSeg2
      requires newSeg !in segqueue && newSeg !in pool.free
      requires newSeg2 !in segqueue && newSeg2 !in pool.free
      modifies this`segqueue, pool, freelist, hashtable, segqueue[i], newSeg, newSeg2
      ensures Shape() && Indexed({})
      ensures segqueue == Splice(old(segqueue), i, 1, mid) && pool.free == spare + old(pool.free)
      ensures Shows(mid, Pieces(old(segqueue[i].Val()), addr, size))
      ensures multiset(mid) + multiset(spare) == multiset{old(segqueue)[i], newSeg, newSeg2}
    {
      hide Indexed, Pieces, Splice, Shows;
      ghost var t, q0 := segqueue[i].Val(), segqueue;
      CutFront(i, addr, newSeg2);
      mid, spare := CutBack(i + 1, size, newSeg);
      PiecesAbove(t, addr, size);
      SpliceFront(q0, i, newSeg2, mid);
      ShowsCons(newSeg2, mid, Pieces(FreeTag(addr, t.End() - addr), addr, size));
      mid := [newSeg2] + mid;
    }

    // -------------------------------------------------------------------------
    // Coalescing

    /** The queued segment at `i`, out of both indexes, absorbs a free right neighbour. */
    method MergeRight(i: nat)
      requires Shape() && i < |segqueue| && segqueue[i].kind == Allocated && Indexed({segqueue[i]})
      modifies this`segqueue, pool, freelist, segqueue[i]
      ensures Shape() && i < |segqueue| && segqueue[i] == old(segqueue)[i] && Indexed({segqueue[i]})
      ensures segqueue[i].kind == Allocated && segqueue[i].base == old(segqueue[i].base)
      ensures if i + 1 < old(|segqueue|) && old(segqueue[i + 1].kind) == Free then
                && segqueue == Splice(old(segqueue), i + 1, 1, [])
                && segqueue[i].size == old(segqueue[i].size) + old(segqueue[i + 1].size)
                && pool.free == [old(segqueue)[i + 1]] + old(pool.free)
              else
                && segqueue == old(segqueue) && segqueue[i].size == old(segqueue[i].size)
                && pool.free == old(pool.free)
    {
      var seg := segqueue[i];
      if i + 1 < |segqueue| && segqueue[i + 1].kind == Free {
        var neighbour := segqueue[i + 1];
        Unlist(neighbour, {seg});
        RemoveAt(i + 1, {seg});
        Retag(seg, Allocated, seg.base, seg.size + neighbour.size, {seg});
        pool.Give(neighbour);
      }
    }

    /** The same to the left; the segment then starts where its neighbour did. */
    method MergeLeft(i: nat) returns (f: nat)
      requires Shape() && 0 < i < |segqueue| && segqueue[i].kind == Allocated && Indexed({segqueue[i]})
      modifies this`segqueue, pool, freelist, segqueue[i]
      ensures Shape() && f < |segqueue| && segqueue[f] == old(segqueue)[i] && Indexed({segqueue[f]})
      ensures segqueue[f].kind == Allocated
      ensures if old(segqueue[i - 1].kind) == Free then
                && f == i - 1
                && segqueue == Splice(old(segqueue), i - 1, 1, [])
                && segqueue[f].base == old(segqueue[i - 1].base)
                && segqueue[f].size == old(segqueue[i].size) + old(segqueue[i - 1].size)
                && pool.free == [old(segqueue)[i - 1]] + old(pool.free)
              else
                && f == i && segqueue == old(segqueue) && pool.free == old(pool.free)
                && segqueue[f].base == old(segqueue[i].base) && segqueue[f].size == old(segqueue[i].size)
    {
      var seg := segqueue[i];
      f := i;
      if segqueue[i - 1].kind == Free {
        var neighbour := segqueue[i - 1];
        Unlist(neighbour, {seg});
        RemoveAt(i - 1, {seg});
        Retag(seg, Allocated, neighbour.base, seg.size + neighbour.size, {seg});
        pool.Give(neighbour);
        f := i - 1;
      }
    }

    /** Both merges: the segment at `i` now stands for the `n` segments from `f` on. */
    method Coalesce(i: nat) returns (f: nat, ghost n: nat, ghost given: seq<Segment>)
      requires Shape() && 0 < i < |segqueue| && segqueue[i].kind == Allocated && Indexed({segqueue[i]})
      modifies this`segqueue, pool, freelist, segqueue[i]
      ensures Shape() && f < |segqueue| && segqueue[f] == old(segqueue)[i] && Indexed({segqueue[f]})
      ensures f == if old(segqueue[i - 1].kind) == Free then i - 1 else i
      ensures f + n == if i + 1 < old(|segqueue|) && old(segqueue[i + 1].kind) == Free then i + 2 else i + 1
      ensures f + n <= old(|segqueue|)
      ensures segqueue == Splice(old(segqueue), f, n, [old(segqueue)[i]])
      ensures segqueue[f].kind == Allocated && segqueue[f].base == old(segqueue[f].base)
      ensures segqueue[f].size == old(segqueue[i].size)
                                  + (if f < i then old(segqueue[i - 1].size) else 0)
                                  + (if i + 1 < f + n then old(segqueue[i + 1].size) else 0)
      ensures pool.free == given + old(pool.free)
      ensures given == Neighbouring(old(segqueue), i, f, n)
    {
      hide Indexed, Splice, Neighbouring;
      ghost var q := segqueue;
      n := if i + 1 < |q| && q[i + 1].kind == Free then 2 else 1;
      MergeRightSplice(q, i, n);
      MergeRight(i);
      f := MergeLeft(i);
      MergeLeftSplice(q, i, n);
      n := n + i - f;
      given := Neighbouring(q, i, f, n);
    }

    // -------------------------------------------------------------------------
    // vmem_xfree

    /** The bucket scan of `vmem_xfree`: the only queued block that starts at `addr`. */
    method FindBlock(addr: nat, ghost size: nat) returns (seg: Segment)
      requires Valid() && LiveTag(addr, size) in AllLive(groups)
      ensures seg in segqueue && seg.Val() == LiveTag(addr, size)
    {
      hide QueueOk, Flatten, AllLive, ListOf, Shows;
      ghost var live := BlockAt(addr, size);
      var bucket := hashtable[hash(addr)];
      var n := 0;
      while bucket[n].base != addr
        invariant n < |bucket| && (forall m :: 0 <= m < n ==> bucket[m] != live) && live in bucket
        decreases |bucket| - n
      {
        n := n + 1;
      }
      seg := bucket[n];
      SameBase(seg, live);
    }

    /** The descriptor of a live block. */
    ghost method BlockAt(addr: nat, size: nat) returns (seg: Segment)
      requires Valid() && LiveTag(addr, size) in AllLive(groups)
      ensures seg in segqueue && seg.Val() == LiveTag(addr, size)
    {
      var k: nat :| k < |groups| && LiveTag(addr, size) in Live(groups[k].body);
      FlattenMember(groups, k, LiveTag(addr, size));
      var i :| 0 <= i < |segqueue| && Flatten(groups)[i] == LiveTag(addr, size);
      seg := segqueue[i];
    }

    /** Two live descriptors with one base are the same. */
    lemma {:induction false} SameBase(a: Segment, b: Segment)
      requires Valid() && a in segqueue && b in segqueue
      requires a.kind == Allocated && b.kind == Allocated && a.base == b.base
      ensures a == b
    {
      var i: nat :| i < |segqueue| && segqueue[i] == a;
      var j: nat :| j < |segqueue| && segqueue[j] == b;
      var k, x := Locate(groups, i);
      var m, y := Locate(groups, j);
      if i != j {
        SegmentsDisjoint(groups, quantum, k, x, m, y);
      }
    }

    /** The block at queue position `i` becomes free and absorbs its free neighbours. */
    method FreeBlock(i: nat) returns (f: nat, ghost n: nat)
      requires Shape() && 0 < i < |segqueue| && segqueue[i].kind == Allocated && Indexed({})
      modifies this`segqueue, pool, freelist, hashtable, segqueue[i]
      ensures Shape() && f < |segqueue| && Indexed({segqueue[f]})
      ensures f == if old(segqueue[i - 1].kind) == Free then i - 1 else i
      ensures f + n == if i + 1 < old(|segqueue|) && old(segqueue[i + 1].kind) == Free then i + 2 else i + 1
      ensures f + n <= old(|segqueue|)
      ensures segqueue == Splice(old(segqueue), f, n, [old(segqueue)[i]]) && segqueue[f] == old(segqueue)[i]
      ensures segqueue[f].Val() == FreeTag(old(segqueue[f].base),
                                           old(segqueue[i].size)
                                           + (if f < i then old(segqueue[i - 1].size) else 0)
                                           + (if i + 1 < f + n then old(segqueue[i + 1].size) else 0))
      ensures Elements(segqueue) + Elements(pool.free) == old(Elements(segqueue) + Elements(pool.free))
    {
      hide Indexed, Splice, Neighbouring;
      ghost var given;
      Unhash(segqueue[i]);
      f, n, given := Coalesce(i);
      Retag(segqueue[f], Free, segqueue[f].base, segqueue[f].size, {segqueue[f]});
      ReplaceElements(old(segqueue), old(pool.free), i, f, n);
    }

    /** The same on the ghost spans: block `j` of span `k` is freed. */
    method ReleaseAt(i: nat, ghost k: nat, ghost j: nat) returns (f: nat)
      requires Valid() && k < |groups| && j < |groups[k].body| && groups[k].body[j].kind == Allocated
      requires i == Offset(groups, k) + 1 + j && i < |segqueue|
      modifies this`segqueue, this`groups, pool, freelist, hashtable, segqueue[i]
      ensures Shape() && Shows(segqueue, Flatten(groups)) && groups == Freed(old(groups), k, j)
      ensures f == Offset(old(groups), k) + 1 + MergeFirst(old(groups)[k].body, j)
      ensures f < |segqueue| && Indexed({segqueue[f]})
      ensures segqueue[f].Val() == Merged(old(groups)[k].body, j)
      ensures Elements(segqueue) + Elements(pool.free) == old(Elements(segqueue) + Elements(pool.free))
    {
      hide Indexed, Splice, QueueOk, Flatten, Offset, Release, MergeFirst, MergeLast, Merged, Elements;
      ghost var q, tags, body := segqueue, Flatten(groups), groups[k].body;
      ghost var n;
      Around(q, groups, quantum, k, j);
      f, n := FreeBlock(i);
      FreedFlatten(groups, k, j, n);
      groups := Freed(groups, k, j);
      ShowsReplace(q, tags, f, n, q[i], Merged(body, j));
    }

    /** A span marker is in neither index. */
    lemma {:induction false} MarkerUnindexed(s: Segment)
      requires Shape() && Indexed({}) && s.kind == Span
      ensures Indexed({s})
    {
    }

    /** The wholly free span whose free segment is at `f` leaves the queue. */
    method RemoveSpan(f: nat)
      requires Shape() && 0 < f < |segqueue| && segqueue[f - 1].kind == Span && Indexed({segqueue[f]})
      modifies this`segqueue, pool
      ensures Shape() && Indexed({}) && segqueue == Splice(old(segqueue), f - 1, 2, [])
      ensures Elements(segqueue) + Elements(pool.free) == old(Elements(segqueue) + Elements(pool.free))
    {
      hide Indexed, Splice;
      var seg, span := segqueue[f], segqueue[f - 1];
      assert {} + {seg} == {seg} && {} + {span} == {span};
      RemovePair(segqueue, f);
      RemoveAt(f, {});
      pool.Give(seg);
      MarkerUnindexed(span);
      RemoveAt(f - 1, {});
      pool.Give(span);
    }

    /**
     `vmem_xfree`. The caller names a live block by base and size; `returned` is the imported span
     handed back to the source, if any.
     */
    method XFree(addr: nat, size: nat) returns (returned: Option<Tag>)
      requires Valid() && LiveTag(addr, size) in AllLive(groups)
      modifies this, pool, freelist, hashtable, segqueue
      ensures Valid()
      ensures statFree == Wrap(old(statFree) + size) && statInUse == Wrap(old(statInUse) - size)
      ensures statTotal == old(statTotal)
      ensures Elements(segqueue) + Elements(pool.free) == old(Elements(segqueue) + Elements(pool.free))
      ensures FreeStep(old(groups), LiveTag(addr, size), canReturn, groups)
      ensures returned.None? ==>
                && Spans(groups) == Spans(old(groups))
                && AllLive(groups) == AllLive(old(groups)) - {LiveTag(addr, size)}
      ensures returned.Some? ==>
                exists k :: LastBlockOf(old(groups), k, LiveTag(addr, size))
                  && returned.value == old(groups)[k].span && groups == Splice(old(groups), k, 1, [])
      ensures returned.Some? <==> canReturn && exists k :: LastBlockOf(old(groups), k, LiveTag(addr, size))
      ensures Busy(old(groups)) ==> (Busy(groups) <==> canReturn || forall k :: !LastBlockOf(old(groups), k, LiveTag(addr, size)))
    {
      hide Indexed, QueueOk, Shows, Flatten, AllLive, Live, Spans, Splice, LastBlockOf, Elements, TotalLive, Wrap, Busy, FreeStep;
      var seg := FindBlock(addr, size);
      var i: nat :| i < |segqueue| && segqueue[i] == seg;
      returned := FreeAtIndex(i, size);
      statInUse := Wrap(statInUse - size);
      statFree := Wrap(statFree + size);
    }

    method FreeAtIndex(i: nat, ghost size: nat) returns (returned: Option<Tag>)
      requires Valid() && i < |segqueue| && segqueue[i].kind == Allocated && segqueue[i].size == size
      modifies this`segqueue, this`groups, pool, freelist, hashtable, segqueue[i]
      ensures Shape() && Indexed({}) && QueueOk(groups, quantum) && Shows(segqueue, Flatten(groups))
      ensures Wrap(TotalLive(groups)) == Wrap(statInUse - size)
      ensures Elements(segqueue) + Elements(pool.free) == old(Elements(segqueue) + Elements(pool.free))
      ensures FreeStep(old(groups), old(segqueue[i].Val()), canReturn, groups)
      ensures returned.None? ==>
                && Spans(groups) == Spans(old(groups))
                && AllLive(groups) == AllLive(old(groups)) - {old(segqueue[i].Val())}
      ensures returned.Some? ==>
                exists k :: LastBlockOf(old(groups), k, old(segqueue[i].Val()))
                  && returned.value == old(groups)[k].span && groups == Splice(old(groups), k, 1, [])
      ensures returned.Some? <==> canReturn && exists k :: LastBlockOf(old(groups), k, old(segqueue[i].Val()))
      ensures Busy(old(groups)) ==>
                (Busy(groups) <==> canReturn || forall k :: !LastBlockOf(old(groups), k, old(segqueue[i].Val())))
    {
      hide Indexed, Splice, Flatten, Offset, Live, AllLive, TotalLive, Spans, Freed, MergeFirst, Merged, GroupOk, Elements, Wrap,
           Busy;
      SpanKinds(groups, quantum);
      ghost var k, j := Locate(groups, i);
      ghost var gs, t := groups, segqueue[i].Val();
      FreedOk(gs, quantum, k, j);
      WrapShift(TotalLive(gs), 0 - size);
      OnlySpan(gs, quantum, k, j);
      FreeKeepsBusy(gs, quantum, k, j);
      var f := ReleaseAt(i, k, j);
      AfterFree(segqueue, gs, quantum, k, j);
      var seg, neighbour := segqueue[f], segqueue[f - 1];
      assert neighbour.kind == Span || neighbour.kind == Allocated;
      if canReturn && neighbour.kind == Span && neighbour.imported && neighbour.size == seg.size {
        returned := Some(neighbour.Val());
        ghost var q := segqueue;
        RemoveSpan(f);
        DropFreed(q, gs, quantum, k, j);
        groups := Splice(gs, k, 1, []);
      } else {
        returned := None;
        assert {} + {seg} == {seg};
        AddToFreelist(seg, {});
      }
    }

    // -------------------------------------------------------------------------
    // Adding spans

    /**
     `vmem_add_internal`: a span marker and one free segment behind the last span. The queue stays
     well-formed exactly if the span is clear of the others.
     */
    method AddInternal(base: nat, size: nat, imported: bool)
      requires Valid() && |pool.free| >= 2 && 0 < size < TWO64 && base + size <= TWO64
      requires Quantized(Tag(Span, imported, base, size), quantum)
      modifies this`segqueue, this`groups, pool, freelist, pool.free[0], pool.free[1]
      ensures Shape() && Indexed({}) && Shows(segqueue, Flatten(groups)) && pool.free == old(pool.free)[2..]
      ensures groups == old(groups) + [Group(Tag(Span, imported, base, size), [FreeTag(base, size)])]
      ensures segqueue == old(segqueue) + old(pool.free)[..2]
      ensures Valid() <==> Clear(old(groups), Tag(Span, imported, base, size))
    {
      hide Indexed, QueueOk, Flatten, TotalLive, Splice, Clear, Wrap;
      ghost var q, tags, free := segqueue, Flatten(groups), pool.free;
      ghost var span := Tag(Span, imported, base, size);
      var newspan := pool.Take();
      var newfree := pool.Take();
      QueuePair(newspan, newfree, base, size, imported);
      AddedIff(groups, quantum, span);
      ShowsPair(q, tags, newspan, newfree);
      groups := groups + [Group(span, [FreeTag(base, size)])];
      assert free[..2] == [newspan, newfree];
    }

    /** Both descriptors at the end of the queue, the second in its freelist. */
    method QueuePair(newspan: Segment, newfree: Segment, base: nat, size: nat, imported: bool)
      requires Shape() && Indexed({}) && newspan != newfree && 2 <= size < TWO64
      requires newspan !in segqueue && newspan !in pool.free && newfree !in segqueue && newfree !in pool.free
      modifies this`segqueue, freelist, newspan, newfree
      ensures Shape() && Indexed({}) && segqueue == old(segqueue) + [newspan, newfree]
      ensures newspan.Val() == Tag(Span, imported, base, size) && newfree.Val() == FreeTag(base, size)
    {
      hide Indexed;
      QueueMarker(newspan, base, size, imported);
      QueueFree(newfree, base, size);
    }

    /** TAILQ_INSERT_TAIL of a new span marker. */
    method QueueMarker(seg: Segment, base: nat, size: nat, imported: bool)
      requires Shape() && Indexed({}) && seg !in segqueue && seg !in pool.free
      modifies this`segqueue, seg
      ensures Shape() && Indexed({}) && segqueue == old(segqueue) + [seg]
      ensures seg.Val() == Tag(Span, imported, base, size)
    {
      hide Indexed;
      ghost var q := segqueue;
      WriteMarker(seg, base, size, imported);
      InsertAt(|segqueue|, seg, {});
      assert Splice(q, |q|, 0, [seg]) == q + [seg];
      assert {} + {seg} == {seg};
      MarkerNeedsNoIndex(seg);
    }

    method WriteMarker(seg: Segment, base: nat, size: nat, imported: bool)
      requires Shape() && Indexed({}) && seg !in segqueue
      modifies seg
      ensures Indexed({}) && seg.Val() == Tag(Span, imported, base, size)
    {
      seg.base, seg.size, seg.kind, seg.imported := base, size, Span, imported;
    }

    lemma {:induction false} MarkerNeedsNoIndex(s: Segment)
      requires Shape() && Indexed({s}) && s.kind == Span
      ensures Indexed({})
    {
    }

    method QueueFree(seg: Segment, base: nat, size: nat)
      requires Shape() && Indexed({}) && seg !in segqueue && seg !in pool.free && 2 <= size < TWO64
      modifies this`segqueue, seg, freelist
      ensures Shape() && Indexed({}) && segqueue == old(segqueue) + [seg]
      ensures seg.Val() == FreeTag(base, size)
    {
      hide Indexed;
      ghost var q := segqueue;
      Retag(seg, Free, base, size, {});
      InsertAt(|segqueue|, seg, {});
      AddToFreelist(seg, {});
      assert Splice(q, |q|, 0, [seg]) == q + [seg];
    }

    /** `vmem_contains`: one queued segment holds all of the range, as 64-bit words compare. */
    method Contains(base: nat, size: nat) returns (r: bool)
      requires Shape() && Shows(segqueue, Flatten(groups))
      ensures r <==> Covered(Flatten(groups), base, size)
    {
      hide Flatten;
      var i := 0;
      while i < |segqueue|
        invariant 0 <= i <= |segqueue| && !Covered(Flatten(groups)[..i], base, size)
      {
        assert segqueue[i].Val() == Flatten(groups)[i];
        if base >= segqueue[i].base && Wrap(base + size) <= Wrap(segqueue[i].base + segqueue[i].size) {
          return true;
        }
        i := i + 1;
      }
      assert Flatten(groups)[..i] == Flatten(groups);
      r := false;
    }

    /** `vmem_add`. False stands for the failed assertion. */
    method Add(base: nat, size: nat) returns (ok: bool)
      requires Valid() && |pool.free| >= 2 && 0 < size < TWO64 && base + size <= TWO64
      requires Quantized(Tag(Span, false, base, size), quantum)
      modifies this, pool, freelist, pool.free[0], pool.free[1]
      ensures ok <==> !Covered(Flatten(old(groups)), base, size)
      ensures !ok ==> Valid() && groups == old(groups) && pool.free == old(pool.free) && statFree == old(statFree)
      ensures ok ==> pool.free == old(pool.free)[2..]
      ensures ok ==> groups == old(groups) + [Group(Tag(Span, false, base, size), [FreeTag(base, size)])]
      ensures ok ==> statFree == Wrap(old(statFree) + size) && statTotal == Wrap(old(statTotal) + size)
      ensures ok ==> (Valid() <==> Clear(old(groups), Tag(Span, false, base, size)))
      ensures statInUse == old(statInUse)
    {
      hide Indexed, QueueOk, Flatten, TotalLive, Shows, Quantized, Wrap;
      var contained := Contains(base, size);
      ok := !contained;
      if ok {
        statFree := Wrap(statFree + size);
        statTotal := Wrap(statTotal + size);
        AddInternal(base, size, false);
      }
    }

    // -------------------------------------------------------------------------
    // vmem_xalloc

    /** The best-fit search told in spans: which free segment is taken, or why none is. */
    method Search(q: Request) returns (found: bool, i: nat, addr: nat, ghost k: nat, ghost j: nat)
      requires Valid() && ValidRequest(q) && 2 <= q.size < TWO64 && Fair(groups, q)
      ensures !found ==> !Placeable(groups, q)
      ensures found ==>
                && Chosen(groups, q, k, j, addr)
                && i == Offset(groups, k) + 1 + j && i < |segqueue| && segqueue[i].Val() == groups[k].body[j]
    {
      hide Indexed, Fit, IsPow2, Offset;
      Pow2Divides(q.align);
      SpanKinds(groups, quantum);
      i, addr, k, j := 0, 0, 0, 0;
      var seg, a := FindFit(q);
      found := seg != null;
      if found {
        addr := a;
        i :| i < |segqueue| && segqueue[i] == seg;
        k, j := Locate(groups, i);
        PickedIsChosen(q, seg, addr, k, j);
      } else {
        NothingPicked(q);
      }
    }

    lemma {:induction false} NothingPicked(q: Request)
      requires Valid() && ValidRequest(q) && q.align > 0 && Fair(groups, q) && Picked(q, null, 0)
      ensures !Placeable(groups, q)
    {
      hide Indexed, Fit, QueueOk, Flatten, IsPow2;
      forall k, j, a ensures !PlaceableAt(groups, q, k, j, a) {
        if PlaceableAt(groups, q, k, j, a) {
          var s := SegmentAt(k, j);
          FitInGroup(groups, quantum, q, k, j);
          assert false;
        }
      }
    }

    lemma {:induction false} PickedIsChosen(q: Request, seg: Segment, addr: nat, k: nat, j: nat)
      requires Valid() && ValidRequest(q) && q.align > 0 && Fair(groups, q) && Picked(q, seg, addr)
      requires k < |groups| && j < |groups[k].body| && seg.Val() == groups[k].body[j]
      ensures Chosen(groups, q, k, j, addr)
    {
      hide Indexed, Fit, QueueOk, Flatten, IsPow2;
      FitInGroup(groups, quantum, q, k, j);
      SizedIn(groups, quantum, k, j);
      forall m, n, a | PlaceableAt(groups, q, m, n, a)
        ensures 2 <= groups[m].body[n].size < TWO64 && ListOf(groups[k].body[j].size) <= ListOf(groups[m].body[n].size)
      {
        var s := SegmentAt(m, n);
        FitInGroup(groups, quantum, q, m, n);
        SizedIn(groups, quantum, m, n);
      }
    }

    /** The descriptor of a body element. */
    lemma {:induction false} SegmentAt(k: nat, j: nat) returns (s: Segment)
      requires Valid() && k < |groups| && j < |groups[k].body|
      ensures s in segqueue && s.Val() == groups[k].body[j]
    {
      hide Indexed, QueueOk, Flatten;
      FlattenMember(groups, k, groups[k].body[j]);
      var i :| 0 <= i < |segqueue| && Flatten(groups)[i] == groups[k].body[j];
      s := segqueue[i];
    }

    /** [addr, addr + size) is taken out of the free segment `j` of span `k`, at queue position `i`. */
    method PlaceAt(i: nat, addr: nat, size: nat, newSeg: Segment, newSeg2: Segment, ghost k: nat, ghost j: nat)
      requires Valid() && k < |groups| && FreeAt(groups[k].body, j) && i == Offset(groups, k) + 1 + j
      requires i < |segqueue| && segqueue[i].Val() == groups[k].body[j]
      requires groups[k].body[j].base <= addr && addr + size <= groups[k].body[j].End()
      requires size > 0 && addr % quantum == 0 && size % quantum == 0
      requires newSeg != newSeg2
      requires newSeg !in segqueue && newSeg !in pool.free
      requires newSeg2 !in segqueue && newSeg2 !in pool.free
      modifies this`segqueue, this`groups, pool, freelist, hashtable, segqueue[i], newSeg, newSeg2
      ensures Shape() && Indexed({}) && Shows(segqueue, Flatten(groups))
      ensures groups == Placed(old(groups), k, j, addr, size)
      ensures Elements(segqueue) + Elements(pool.free)
              == old(Elements(segqueue) + Elements(pool.free)) + {newSeg, newSeg2}
    {
      hide Indexed, QueueOk, Flatten, Offset, Pieces, Splice, TotalLive, Place, Elements;
      ghost var q, tags, free, t := segqueue, Flatten(groups), pool.free, groups[k].body[j];
      CarveRoom(groups, quantum, k, j, addr, size);
      assert FreeSized(segqueue[i]);
      ghost var mid, spare := Carve(i, addr, size, newSeg, newSeg2);
      PlacedFlatten(groups, k, j, addr, size);
      groups := Placed(groups, k, j, addr, size);
      ShowsSplice(q, tags, i, mid, Pieces(t, addr, size));
      CarveElements(q, free, i, mid, spare, newSeg, newSeg2);
    }

    /** A request on the arena's grid. */
    ghost predicate OnGrid(q: Request) {
      && ValidRequest(q) && q.size < TWO64 && quantum >= 2
      && q.align % quantum == 0 && q.size % quantum == 0 && q.phase % quantum == 0
    }

    /**
     The spans the source would hand out on successive imports of `size`: on the grid, and clear of
     every span already queued and of one another.
     */
    ghost predicate Importable(gs: seq<Group>, replies: seq<nat>, size: nat) {
      QueueOk(gs + Imported(replies, size), quantum)
    }

    /**
     The search loop: import a span of the requested size until the request fits. `dry` stands for
     the failed assertion of `seg_alloc`: fewer than two descriptors are left for the next import.
     */
    method FindOrImport(q: Request, replies: seq<nat>)
      returns (found: bool, dry: bool, i: nat, addr: nat, used: nat, ghost k: nat, ghost j: nat)
      requires Valid() && OnGrid(q) && Importable(groups, replies, q.size) && Fair(groups + Imported(replies, q.size), q)
      modifies this`segqueue, this`groups, pool, freelist, pool.free
      ensures Valid() && used <= |replies| && (!canImport ==> used == 0) && 2 * used <= old(|pool.free|)
      ensures groups == old(groups) + Imported(replies[..used], q.size)
      ensures pool.free == old(pool.free)[2 * used..] && segqueue == old(segqueue) + old(pool.free)[..2 * used]
      ensures used > 0 ==> !Placeable(old(groups) + Imported(replies[..used - 1], q.size), q)
      ensures !found ==> !Placeable(groups, q) && (canImport && !dry ==> used == |replies|)
      ensures dry <==> Dry(old(groups), q, replies, canImport, old(|pool.free|))
      ensures found ==>
                && !dry && Chosen(groups, q, k, j, addr)
                && i == Offset(groups, k) + 1 + j && i < |segqueue| && segqueue[i].Val() == groups[k].body[j]
    {
      hide Shape, Indexed, QueueOk, Shows, Flatten, TotalLive, Offset, Placeable, Chosen, ValidRequest, Imported, Fair, Dry;
      GridSize(q);
      ghost var gs, free, queue := groups, pool.free, segqueue;
      NoImports(gs, q.size);
      used := 0;
      while true
        invariant Valid() && used <= |replies| && (!canImport ==> used == 0) && 2 * used <= |free|
        invariant groups == gs + Imported(replies[..used], q.size)
        invariant pool.free == free[2 * used..] && segqueue == queue + free[..2 * used]
        invariant used > 0 ==> !Placeable(gs + Imported(replies[..used - 1], q.size), q)
        decreases |replies| - used
      {
        NextImport(gs, quantum, replies, used, q);
        found, i, addr, k, j := Search(q);
        PoolCount();
        if found {
          ChosenPlaceable(groups, q, k, j, addr);
        }
        dry := !found && canImport && used < |replies| && pool.nfree < 2;
        if found || dry || !canImport || used == |replies| {
          break;
        }
        AddInternal(replies[used], q.size, true);
        used := used + 1;
      }
      DryIff(gs, q, replies, canImport, |free|, used, found);
    }

    lemma {:induction false} PoolCount()
      requires Valid()
      ensures pool.nfree == |pool.free|
    {
    }

    lemma {:induction false} GridSize(q: Request)
      requires OnGrid(q)
      ensures 2 <= q.size && q.align > 0
    {
      Pow2Divides(q.align);
      ModOffset(0, 0, quantum);
      MultipleBelow(0, q.size, quantum);
    }

    /**
     `vmem_xalloc`. `replies` are the answers of the source, in the order it would give them; when
     they run out it answers NULL. `used` counts the imports made.
     */
    method XAlloc(size: nat, align: nat, phase: nat, minaddr: nat, maxaddr: nat, bootstrap: bool, replies: seq<nat>)
      returns (r: Answer, used: nat)
      requires Valid() && OnGrid(Request(size, if align == 0 then quantum else align, phase, minaddr, maxaddr)) && Importable(groups, replies, size)
      requires Fair(groups + Imported(replies, size), Request(size, if align == 0 then quantum else align, phase, minaddr, maxaddr))
      modifies this, pool, freelist, hashtable, segqueue, pool.free
      ensures r.Block? ==> GrownBy(old(Elements(segqueue) + Elements(pool.free)), Elements(segqueue) + Elements(pool.free))
      ensures Valid() && used <= |replies| && (!canImport ==> used == 0)
      ensures used > 0 ==> 2 * used + 2 <= Refilled(old(|pool.free|), bootstrap)
      ensures var q := Request(size, if align == 0 then quantum else align, phase, minaddr, maxaddr);
              used > 0 ==> !Placeable(old(groups) + Imported(replies[..used - 1], size), q)
      ensures var q := Request(size, if align == 0 then quantum else align, phase, minaddr, maxaddr);
              r.NoDescriptors? <==> RunsDry(old(groups), q, replies, canImport, Refilled(old(|pool.free|), bootstrap))
      ensures var q := Request(size, if align == 0 then quantum else align, phase, minaddr, maxaddr);
              var gs := old(groups) + Imported(replies[..used], size);
              match r
              case NoSpace => groups == gs && !Placeable(gs, q) && (canImport ==> used == |replies|)
              case NoDescriptors => groups == gs
              case Block(addr) => exists k, j :: Chosen(gs, q, k, j, addr) && groups == Placed(gs, k, j, addr, size)
      ensures r.Block? ==>
                && AllLive(groups) == AllLive(old(groups)) + {LiveTag(r.addr, size)}
                && LiveTag(r.addr, size) !in AllLive(old(groups))
                && Spans(groups) == Spans(old(groups) + Imported(replies[..used], size))
                && statFree == Wrap(old(statFree) - size) && statInUse == Wrap(old(statInUse) + size)
      ensures r.Block? ==> minaddr <= r.addr && r.addr + size <= maxaddr
      ensures r.Block? && align == 0 ==> r.addr % quantum == phase
      ensures r.Block? && align > 0 ==> r.addr % align == phase
      ensures r.Block? ==> BestFit(old(groups) + Imported(replies[..used], size),
                                   Request(size, if align == 0 then quantum else align, phase, minaddr, maxaddr), r.addr)
      ensures !r.Block? ==> statFree == old(statFree) && statInUse == old(statInUse)
      ensures statTotal == old(statTotal)
      ensures Busy(old(groups)) ==> (Busy(groups) <==> used <= if r.Block? then 1 else 0)
    {
      hide Shape, Indexed, QueueOk, Shows, Flatten, TotalLive, Offset, Placeable, Chosen, ValidRequest, Imported,
           Placed, AllLive, Spans, Wrap, Fair, Dry, Busy, Elements, BestFit;
      var q := Request(size, if align == 0 then quantum else align, phase, minaddr, maxaddr);
      NoImports(groups, size);
      PoolCount();
      if bootstrap && pool.nfree < 2 {
        return NoDescriptors, 0;
      }
      ghost var gs := groups;
      var newSeg, newSeg2 := Prepare(bootstrap);
      ghost var queue, free := segqueue, pool.free;
      var found, dry, i, addr;
      ghost var k, j;
      assert forall n :: 0 <= n < |pool.free| ==> pool.free[n] in old(pool.free) || fresh(pool.free[n]);
      found, dry, i, addr, used, k, j := FindOrImport(q, replies);
      if !found {
        IdleImports(gs, replies, used, size);
        r := if dry then NoDescriptors else NoSpace;
        return;
      }
      MovedElements(queue, free, 2 * used);
      ImportsAreIdle(gs, quantum, replies, used, size);
      BusyAfter(gs, replies, used, q, k, j, addr);
      ChosenMeans(groups, q, k, j, addr);
      Commit(q, i, addr, newSeg, newSeg2, k, j);
      r := Block(addr);
    }

    /** Refill the pool, unless told not to, and take the two descriptors an allocation may need. */
    method Prepare(bootstrap: bool) returns (newSeg: Segment, newSeg2: Segment)
      requires Valid() && 2 <= Refilled(|pool.free|, bootstrap)
      modifies pool
      ensures Valid() && newSeg != newSeg2
      ensures newSeg !in segqueue && newSeg !in pool.free && newSeg2 !in segqueue && newSeg2 !in pool.free
      ensures |pool.free| + 2 == Refilled(old(|pool.free|), bootstrap)
      ensures GrownBy(old(Elements(segqueue) + Elements(pool.free)), Elements(segqueue) + Elements(pool.free) + {newSeg, newSeg2})
      ensures forall s :: s in pool.free ==> s in old(pool.free) || fresh(s)
      ensures (newSeg in old(pool.free) || fresh(newSeg)) && (newSeg2 in old(pool.free) || fresh(newSeg2))
    {
      hide Indexed, QueueOk, Shows, Flatten, TotalLive;
      if !bootstrap {
        pool.Repopulate();
      }
      ghost var free := pool.free;
      newSeg := pool.Take();
      newSeg2 := pool.Take();
      assert free == [newSeg, newSeg2] + pool.free;
    }

    /** Carve the chosen block and account for it. */
    method Commit(q: Request, i: nat, addr: nat, newSeg: Segment, newSeg2: Segment, ghost k: nat, ghost j: nat)
      requires Valid() && OnGrid(q) && Chosen(groups, q, k, j, addr)
      requires i == Offset(groups, k) + 1 + j && i < |segqueue| && segqueue[i].Val() == groups[k].body[j]
      requires newSeg != newSeg2
      requires newSeg !in segqueue && newSeg !in pool.free
      requires newSeg2 !in segqueue && newSeg2 !in pool.free
      modifies this, pool, freelist, hashtable, segqueue[i], newSeg, newSeg2
      ensures Valid() && groups == Placed(old(groups), k, j, addr, q.size)
      ensures AllLive(groups) == AllLive(old(groups)) + {LiveTag(addr, q.size)}
      ensures LiveTag(addr, q.size) !in AllLive(old(groups))
      ensures Spans(groups) == Spans(old(groups))
      ensures statFree == Wrap(old(statFree) - q.size) && statInUse == Wrap(old(statInUse) + q.size)
      ensures statTotal == old(statTotal)
      ensures Elements(segqueue) + Elements(pool.free)
              == old(Elements(segqueue) + Elements(pool.free)) + {newSeg, newSeg2}
    {
      hide Shape, Indexed, QueueOk, Shows, Flatten, TotalLive, Offset, Placed, AllLive, Spans, Wrap, Elements;
      ghost var gs := groups;
      OnGridAddress(q, groups[k].body[j], addr);
      PlacedOk(gs, quantum, k, j, addr, q.size);
      WrapShift(TotalLive(gs), q.size);
      PlaceAt(i, addr, q.size, newSeg, newSeg2, k, j);
      statFree := Wrap(statFree - q.size);
      statInUse := Wrap(statInUse + q.size);
    }

    lemma {:induction false} OnGridAddress(q: Request, t: Tag, addr: nat)
      requires OnGrid(q) && Admissible(t.base, t.size, q, addr)
      ensures addr % quantum == 0 && q.size > 0
    {
      var m := addr / q.align;
      assert addr == q.align * m + q.phase;
      MultipleMod(m, q.align);
      MultipleTransitive(q.align * m, q.align, quantum);
      MultipleSum(q.align * m, q.phase, quantum);
    }

    /** Only descriptors allocated meanwhile were added. */
    twostate predicate GrownBy(before: set<Segment>, new after: set<Segment>) {
      before <= after && forall s :: s in after && s !in before ==> fresh(s)
    }

    // -------------------------------------------------------------------------
    // vmem_alloc, and allocation undone by freeing

    /**
     `vmem_alloc`: no constraint but the quantum. One import is enough, so that with the refill the
     descriptors never run out, whatever the source answers.
     */
    method Alloc(size: nat, bootstrap: bool, replies: seq<nat>) returns (r: Answer, used: nat)
      requires Valid() && IsPow2(quantum) && 0 < size < TWO64 && size % quantum == 0
      requires Importable(groups, replies, size) && BelowTop(groups + Imported(replies, size))
      modifies this, pool, freelist, hashtable, segqueue, pool.free
      ensures Valid() && used <= 1 && used <= |replies| && (!canImport ==> used == 0)
      ensures var have, fits := Refilled(old(|pool.free|), bootstrap), HasRoom(old(groups), size);
              && (used == 1 <==> have >= 4 && canImport && replies != [] && !fits)
              && (r.Block? <==> have >= 2 && (used == 1 || fits))
              && (r.NoDescriptors? <==> have < 2 || (have < 4 && canImport && replies != [] && !fits))
      ensures !bootstrap ==> !r.NoDescriptors?
      ensures !r.Block? ==> groups == old(groups)
      ensures r.Block? ==>
                && AllLive(groups) == AllLive(old(groups)) + {LiveTag(r.addr, size)}
                && LiveTag(r.addr, size) !in AllLive(old(groups))
                && Spans(groups) == Spans(old(groups) + Imported(replies[..used], size))
      ensures r.Block? && used == 0 ==> BestRoom(old(groups), size, r.addr)
      ensures r.Block? && used == 1 ==>
                && r.addr == replies[0]
                && groups == old(groups) + [Group(Tag(Span, true, replies[0], size), [LiveTag(replies[0], size)])]
      ensures Busy(old(groups)) ==> Busy(groups)
      ensures r.Block? ==> GrownBy(old(Elements(segqueue) + Elements(pool.free)), Elements(segqueue) + Elements(pool.free))
    {
      hide Shape, Indexed, QueueOk, Shows, Flatten, TotalLive, Placeable, Chosen, Imported, Placed, AllLive, Spans, Wrap,
           Busy, IsPow2, ValidRequest, Fair, BelowTop, HasRoom, BestRoom, PlaceableAt;
      ghost var gs, have := groups, Refilled(|pool.free|, bootstrap);
      AnywhereOnGrid(size);
      AnywhereFair(groups + Imported(replies, size), quantum, size);
      r, used := XAlloc(size, 0, 0, 0, TWO64 - 1, bootstrap, replies);
      ghost var q := Anywhere(size, quantum);
      NoImports(gs, size);
      if used >= 2 {
        ImportFits(gs, quantum, replies, used - 1, size);
        assert false;
      }
      if used == 1 {
        ImportFits(gs, quantum, replies, 1, size);
      }
      if 4 <= have && (have - 2) / 2 <= |replies| {
        ImportFits(gs, quantum, replies, (have - 2) / 2, size);
      }
      BelowTopPart(gs, replies, size);
      RoomyIff(gs, quantum, size);
      if r.Block? {
        Outcome(gs, replies, used, q, groups, r.addr);
        if used == 0 {
          Unimported(gs, replies, size, q, r.addr);
          RoomyBest(gs, quantum, size, r.addr);
        }
      }
    }

    lemma {:induction false} AnywhereOnGrid(size: nat)
      requires quantum >= 2 && IsPow2(quantum) && 0 < size < TWO64 && size % quantum == 0
      ensures OnGrid(Anywhere(size, quantum))
    {
      ModOffset(1, 0, quantum);
      ModOffset(0, 0, quantum);
    }
  }

  /** A block; no address for the request; or the failed assertion of `seg_alloc`, with an empty pool. */
  datatype Answer = Block(addr: nat) | NoSpace | NoDescriptors

  /** The number of descriptors after `repopulate_segments`, which bootstrap callers skip. */
  function Refilled(free: nat, bootstrap: bool): nat {
    if !bootstrap && free < LOW_WATER then free + BLOCK else free
  }

  /** With `free` descriptors at hand, the imports they allow are made in vain and another one is offered. */
  ghost predicate Dry(gs: seq<Group>, q: Request, replies: seq<nat>, canImport: bool, free: nat) {
    canImport && free / 2 < |replies| && !Placeable(gs + Imported(replies[..free / 2], q.size), q)
  }

  /** The same with the two descriptors of the block itself: `have` is the pool after the refill. */
  ghost predicate RunsDry(gs: seq<Group>, q: Request, replies: seq<nat>, canImport: bool, have: nat) {
    have < 2 || Dry(gs, q, replies, canImport, have - 2)
  }

  /** More spans serve no fewer requests. */
  lemma {:induction false} PlaceableMore(gs: seq<Group>, q: Request, replies: seq<nat>, m: nat, n: nat)
    requires m <= n <= |replies| && Placeable(gs + Imported(replies[..m], q.size), q)
    ensures Placeable(gs + Imported(replies[..n], q.size), q)
  {
    var ms, ns := gs + Imported(replies[..m], q.size), gs + Imported(replies[..n], q.size);
    var k, j, addr :| PlaceableAt(ms, q, k, j, addr);
    assert ns[k] == ms[k];
    assert PlaceableAt(ns, q, k, j, addr);
  }

  /** The loop's way out decides whether the descriptors ran out. */
  lemma {:induction false} DryIff(gs: seq<Group>, q: Request, replies: seq<nat>, canImport: bool, free: nat, used: nat, found: bool)
    requires used <= |replies| && 2 * used <= free
    requires found <==> Placeable(gs + Imported(replies[..used], q.size), q)
    requires found || !canImport || used == |replies| || free - 2 * used < 2
    ensures Dry(gs, q, replies, canImport, free) <==> !found && canImport && used < |replies| && free - 2 * used < 2
  {
    hide Placeable, Imported;
    if found && free / 2 < |replies| {
      PlaceableMore(gs, q, replies, used, free / 2);
    }
  }

  /** The range lies in one queued segment, as the 64-bit comparison sees it. */
  ghost predicate Covered(tags: seq<Tag>, base: nat, size: nat) {
    exists i :: 0 <= i < |tags| && base >= tags[i].base && Wrap(base + size) <= Wrap(tags[i].End())
  }

  /** Away from the top, a range is covered exactly if it lies in one span. */
  lemma {:induction false} CoveredIff(gs: seq<Group>, quantum: nat, base: nat, size: nat)
    requires QueueOk(gs, quantum) && BelowTop(gs) && base + size < TWO64
    ensures Covered(Flatten(gs), base, size) <==> exists k :: 0 <= k < |gs| && gs[k].span.base <= base && base + size <= gs[k].span.End()
  {
    hide GroupOk, Flatten;
    var tags := Flatten(gs);
    if i :| 0 <= i < |tags| && base >= tags[i].base && Wrap(base + size) <= Wrap(tags[i].End()) {
      InSpan(gs, quantum, i);
    }
    if k :| 0 <= k < |gs| && gs[k].span.base <= base && base + size <= gs[k].span.End() {
      SpanMember(gs, k);
      var i :| 0 <= i < |tags| && tags[i] == gs[k].span;
    }
  }

  /** Every tag of the queue lies in a span. */
  lemma {:induction false} InSpan(gs: seq<Group>, quantum: nat, i: nat)
    requires QueueOk(gs, quantum) && i < |Flatten(gs)|
    ensures exists k :: 0 <= k < |gs| && gs[k].span.base <= Flatten(gs)[i].base && Flatten(gs)[i].End() <= gs[k].span.End()
  {
    hide GroupOk;
    var n := 1 + |gs[0].body|;
    if i == 0 {
      assert Flatten(gs)[0] == gs[0].span;
    } else if i < n {
      assert Flatten(gs)[i] == gs[0].body[i - 1];
      GroupOf(gs, quantum, 0);
      GroupTiles(gs[0], quantum);
      TilesInside(gs[0].body, gs[0].span.base, gs[0].span.End(), i - 1);
    } else {
      var rest := gs[1..];
      assert forall k :: 0 <= k < |rest| ==> rest[k] == gs[k + 1];
      InSpan(rest, quantum, i - n);
      assert Flatten(gs)[i] == Flatten(rest)[i - n];
      var k :| 0 <= k < |rest| && rest[k].span.base <= Flatten(rest)[i - n].base && Flatten(rest)[i - n].End() <= rest[k].span.End();
      assert gs[k + 1] == rest[k];
    }
  }

  lemma {:induction false} SpanMember(gs: seq<Group>, k: nat)
    requires k < |gs|
    ensures gs[k].span in Flatten(gs)
  {
    if k == 0 {
      assert Flatten(gs)[0] == gs[0].span;
    } else {
      SpanMember(gs[1..], k - 1);
      assert gs[1..][k - 1] == gs[k];
    }
  }

  lemma {:induction false} NothingQueued(base: nat, size: nat)
    ensures !Covered(Flatten([]), base, size)
  {
  }

  /** The span overlaps none of the queued ones. */
  ghost predicate Clear(gs: seq<Group>, span: Tag) {
    forall k :: 0 <= k < |gs| ==> Disjoint(gs[k].span, span)
  }

  /** A new span keeps the queue well-formed exactly if it is clear of the others. */
  lemma {:induction false} AddedIff(gs: seq<Group>, quantum: nat, span: Tag)
    requires QueueOk(gs, quantum) && span.kind == Span && 0 < span.size < TWO64 && span.End() <= TWO64 && Quantized(span, quantum)
    ensures var hs := gs + [Group(span, [FreeTag(span.base, span.size)])];
            && (QueueOk(hs, quantum) <==> Clear(gs, span))
            && (Clear(gs, span) ==> TotalLive(hs) == TotalLive(gs))
            && Flatten(hs) == Flatten(gs) + [span, FreeTag(span.base, span.size)]
  {
    hide GroupOk, TotalLive, Flatten, Quantized;
    var t := FreeTag(span.base, span.size);
    var g := Group(span, [t]);
    var hs := gs + [g];
    if Clear(gs, span) {
      AddedOk(gs, quantum, span);
    } else {
      var k :| 0 <= k < |gs| && !Disjoint(gs[k].span, span);
      assert hs[k] == gs[k] && hs[|gs|] == g;
      OneFlat(g, t);
      FlattenAppend(gs, [g]);
    }
  }

  lemma {:induction false} OneFlat(g: Group, t: Tag)
    requires g.body == [t]
    ensures Flatten([g]) == [g.span, t]
  {
    assert [g][1..] == [];
    assert Flatten([g]) == [g.span] + [t] + Flatten([g][1..]);
  }

  /** An overlap that the source's check does not see: the new span begins below the queued one. */
  lemma {:induction false} OverlapCanPass()
    ensures var gs := [Group(Tag(Span, false, 0x2000, 0x2000), [FreeTag(0x2000, 0x2000)])];
            && QueueOk(gs, 0x1000)
            && !Covered(Flatten(gs), 0x1000, 0x2000)
            && !Clear(gs, Tag(Span, false, 0x1000, 0x2000))
  {
    var g := Group(Tag(Span, false, 0x2000, 0x2000), [FreeTag(0x2000, 0x2000)]);
    OneFlat(g, FreeTag(0x2000, 0x2000));
    assert !Disjoint([g][0].span, Tag(Span, false, 0x1000, 0x2000));
  }

  /** The request `vmem_alloc` makes. */
  ghost function Anywhere(size: nat, quantum: nat): Request {
    Request(size, quantum, 0, 0, TWO64 - 1)
  }

  /** A free segment of at least this size. */
  ghost predicate Roomy(gs: seq<Group>, k: int, j: int, size: nat) {
    0 <= k < |gs| && FreeAt(gs[k].body, j) && size <= gs[k].body[j].size
  }

  ghost predicate HasRoom(gs: seq<Group>, size: nat) {
    exists k, j :: Roomy(gs, k, j, size)
  }

  /** The base of a free segment that is large enough, while none of those is half as large or less. */
  ghost predicate BestRoom(gs: seq<Group>, size: nat, addr: nat) {
    exists k, j :: Roomy(gs, k, j, size) && addr == gs[k].body[j].base
      && forall m, n :: Roomy(gs, m, n, size) ==> gs[k].body[j].size < 2 * gs[m].body[n].size
  }

  /** Without constraints any free segment that is large enough will do, from its base on. */
  lemma {:induction false} RoomyAt(gs: seq<Group>, quantum: nat, size: nat, k: int, j: int)
    requires QueueOk(gs, quantum) && quantum > 0 && BelowTop(gs) && size > 0
    ensures Roomy(gs, k, j, size) <==> exists a :: PlaceableAt(gs, Anywhere(size, quantum), k, j, a)
    ensures Roomy(gs, k, j, size) ==> PlaceableAt(gs, Anywhere(size, quantum), k, j, gs[k].body[j].base)
  {
    if Roomy(gs, k, j, size) {
      assert GroupOk(gs[k], quantum);
      TilesInside(gs[k].body, gs[k].span.base, gs[k].span.End(), j);
      assert PlaceableAt(gs, Anywhere(size, quantum), k, j, gs[k].body[j].base);
    }
  }

  lemma {:induction false} RoomyIff(gs: seq<Group>, quantum: nat, size: nat)
    requires QueueOk(gs, quantum) && quantum > 0 && BelowTop(gs) && size > 0
    ensures Placeable(gs, Anywhere(size, quantum)) <==> HasRoom(gs, size)
  {
    hide QueueOk, Roomy, BelowTop, PlaceableAt;
    var q := Anywhere(size, quantum);
    if Placeable(gs, q) {
      var k, j, a :| PlaceableAt(gs, q, k, j, a);
      RoomyAt(gs, quantum, size, k, j);
    }
    if HasRoom(gs, size) {
      var k, j :| Roomy(gs, k, j, size);
      RoomyAt(gs, quantum, size, k, j);
    }
  }

  lemma {:induction false} Unimported(gs: seq<Group>, replies: seq<nat>, size: nat, q: Request, addr: nat)
    requires exists k, j :: Chosen(gs + Imported(replies[..0], size), q, k, j, addr)
    ensures exists k, j :: Chosen(gs, q, k, j, addr)
  {
    hide Chosen;
    assert replies[..0] == [];
    NoImports(gs, size);
  }

  /** The best fit among them, and its base. */
  lemma {:induction false} RoomyBest(gs: seq<Group>, quantum: nat, size: nat, addr: nat)
    requires QueueOk(gs, quantum) && quantum > 0 && BelowTop(gs) && size > 0
    requires exists k, j :: Chosen(gs, Anywhere(size, quantum), k, j, addr)
    ensures BestRoom(gs, size, addr)
  {
    hide QueueOk, BelowTop, ListOf;
    var q := Anywhere(size, quantum);
    var k: nat, j: nat :| Chosen(gs, q, k, j, addr);
    ChosenMeans(gs, q, k, j, addr);
    RoomyAt(gs, quantum, size, k, j);
    assert addr == gs[k].body[j].base;
    forall m, n | Roomy(gs, m, n, size) ensures gs[k].body[j].size < 2 * gs[m].body[n].size {
      RoomyAt(gs, quantum, size, m, n);
    }
  }

  lemma {:induction false} BelowTopPart(gs: seq<Group>, replies: seq<nat>, size: nat)
    requires BelowTop(gs + Imported(replies, size))
    ensures BelowTop(gs)
  {
    var hs := gs + Imported(replies, size);
    forall k | 0 <= k < |gs| ensures gs[k].span.End() < TWO64 {
      assert hs[k] == gs[k];
    }
  }

  /** No imported span is wholly free. */
  ghost predicate Busy(gs: seq<Group>) {
    forall k :: 0 <= k < |gs| && gs[k].span.imported ==> Live(gs[k].body) != {}
  }

  /** A span imported for an unconstrained request can serve it. */
  lemma {:induction false} ImportFits(gs: seq<Group>, quantum: nat, replies: seq<nat>, used: nat, size: nat)
    requires 0 < used <= |replies| && quantum >= 2 && size > 0
    requires QueueOk(gs + Imported(replies, size), quantum) && BelowTop(gs + Imported(replies, size))
    ensures Placeable(gs + Imported(replies[..used], size), Anywhere(size, quantum))
  {
    var hs, k := gs + Imported(replies[..used], size), |gs| + used - 1;
    var all := gs + Imported(replies, size);
    assert all[k] == hs[k];
    assert GroupOk(all[k], quantum);
    assert PlaceableAt(hs, Anywhere(size, quantum), k, 0, replies[used - 1]);
  }

  /** When only the import could serve the request, all of it is taken. */
  lemma {:induction false} ImportTaken(gs: seq<Group>, replies: seq<nat>, q: Request, k: nat, j: nat, addr: nat)
    requires |replies| > 0 && !Placeable(gs, q)
    requires PlaceableAt(gs + Imported(replies[..1], q.size), q, k, j, addr)
    ensures addr == replies[0]
    ensures Placed(gs + Imported(replies[..1], q.size), k, j, addr, q.size)
            == gs + [Group(Tag(Span, true, replies[0], q.size), [LiveTag(replies[0], q.size)])]
  {
    var hs := gs + Imported(replies[..1], q.size);
    assert k < |gs| ==> PlaceableAt(gs, q, k, j, addr);
    assert hs[k].body == [FreeTag(replies[0], q.size)];
    assert Place(hs[k].body, j, addr, q.size) == [LiveTag(replies[0], q.size)];
  }

  /** What an allocation with at most one import did to the spans. */
  lemma {:induction false} Outcome(gs: seq<Group>, replies: seq<nat>, used: nat, q: Request, after: seq<Group>, addr: nat)
    requires used <= 1 && used <= |replies| && (used == 1 ==> !Placeable(gs, q))
    requires var hs := gs + Imported(replies[..used], q.size);
             exists k, j :: Chosen(hs, q, k, j, addr) && after == Placed(hs, k, j, addr, q.size)
    ensures used == 0 ==> Placeable(gs, q)
    ensures used == 1 ==> addr == replies[0]
    ensures used == 1 ==> after == gs + [Group(Tag(Span, true, replies[0], q.size), [LiveTag(replies[0], q.size)])]
  {
    hide Live, Place, IsLeast, ListOf;
    var hs := gs + Imported(replies[..used], q.size);
    var k: nat, j: nat :| Chosen(hs, q, k, j, addr) && after == Placed(hs, k, j, addr, q.size);
    assert PlaceableAt(hs, q, k, j, addr);
    if used == 0 {
      assert hs == gs;
    } else {
      ImportTaken(gs, replies, q, k, j, addr);
    }
  }

  /** Imports without a block are idle spans. */
  lemma {:induction false} IdleImports(gs: seq<Group>, replies: seq<nat>, used: nat, size: nat)
    requires used <= |replies|
    ensures Busy(gs) ==> (Busy(gs + Imported(replies[..used], size)) <==> used == 0)
  {
    var hs := gs + Imported(replies[..used], size);
    if used == 0 {
      assert hs == gs;
    } else {
      assert hs[|gs|].span.imported && Live(hs[|gs|].body) == {};
    }
  }

  /** Of the spans imported for one request all but the last stay idle. */
  lemma {:induction false} BusyAfter(gs: seq<Group>, replies: seq<nat>, used: nat, q: Request, k: nat, j: nat, addr: nat)
    requires used <= |replies| && (used > 0 ==> !Placeable(gs + Imported(replies[..used - 1], q.size), q))
    requires Chosen(gs + Imported(replies[..used], q.size), q, k, j, addr)
    ensures Busy(gs) ==> (Busy(Placed(gs + Imported(replies[..used], q.size), k, j, addr, q.size)) <==> used <= 1)
  {
    hide Live, Place, IsLeast, ListOf;
    var hs := gs + Imported(replies[..used], q.size);
    var after := Placed(hs, k, j, addr, q.size);
    PlaceLive(hs[k].body, j, addr, q.size);
    assert Live(after[k].body) != {};
    assert forall m :: 0 <= m < |hs| && m != k ==> after[m] == hs[m];
    if used > 0 {
      var ps := gs + Imported(replies[..used - 1], q.size);
      assert k < |ps| ==> PlaceableAt(ps, q, k, j, addr);
      assert k == |gs| + used - 1;
      if used > 1 {
        assert after[|gs|] == hs[|gs|];
        NothingLive(FreeTag(replies[0], q.size));
      }
    }
  }

  lemma {:induction false} NothingLive(t: Tag)
    requires t.kind != Allocated
    ensures Live([t]) == {}
  {
  }

  /** The spans imported for a list of replies. */
  ghost function Imported(replies: seq<nat>, size: nat): seq<Group> {
    seq(|replies|, i requires 0 <= i < |replies| =>
      Group(Tag(Span, true, replies[i], size), [FreeTag(replies[i], size)]))
  }

  lemma {:induction false} MovedElements<T>(queue: seq<T>, free: seq<T>, n: nat)
    requires n <= |free|
    ensures Elements(queue + free[..n]) + Elements(free[n..]) == Elements(queue) + Elements(free)
  {
    assert free == free[..n] + free[n..];
  }

  /** Imported spans bring no live blocks. */
  lemma {:induction false} ImportsAreIdle(gs: seq<Group>, quantum: nat, replies: seq<nat>, used: nat, size: nat)
    requires used <= |replies|
    ensures AllLive(gs + Imported(replies[..used], size)) == AllLive(gs)
  {
    var hs := gs + Imported(replies[..used], size);
    forall t | t in AllLive(hs) ensures t in AllLive(gs) {
      var m :| 0 <= m < |hs| && t in Live(hs[m].body);
      assert m < |gs|;
      assert hs[m] == gs[m];
    }
    forall t | t in AllLive(gs) ensures t in AllLive(hs) {
      var m :| 0 <= m < |gs| && t in Live(gs[m].body);
      assert hs[m] == gs[m];
    }
  }

  lemma {:induction false} NoImports(gs: seq<Group>, size: nat)
    ensures gs + Imported([], size) == gs
  {
  }

  /** The next reply is a span that may be queued behind the ones imported so far. */
  lemma {:induction false} NextImport(gs: seq<Group>, quantum: nat, replies: seq<nat>, used: nat, q: Request)
    requires used <= |replies| && QueueOk(gs + Imported(replies, q.size), quantum)
    requires Fair(gs + Imported(replies, q.size), q)
    ensures QueueOk(gs + Imported(replies[..used], q.size), quantum)
    ensures Fair(gs + Imported(replies[..used], q.size), q)
    ensures used < |replies| ==>
              var span, hs := Tag(Span, true, replies[used], q.size), gs + Imported(replies[..used], q.size);
              && 0 < q.size < TWO64 && replies[used] + q.size <= TWO64 && Quantized(span, quantum)
              && Clear(hs, span)
              && hs + [Group(span, [FreeTag(replies[used], q.size)])] == gs + Imported(replies[..used + 1], q.size)
  {
    hide GroupOk, Leaves, Misses;
    var size := q.size;
    var all, hs := gs + Imported(replies, size), gs + Imported(replies[..used], size);
    assert hs == all[..|gs| + used];
    if used < |replies| {
      var g := all[|gs| + used];
      assert GroupOk(g, quantum);
      assert 0 < size < TWO64 && replies[used] + size <= TWO64 && Quantized(g.span, quantum) by { FreshSpan(g, quantum); }
      forall k | 0 <= k < |hs| ensures Disjoint(hs[k].span, g.span) {
        assert hs[k] == all[k];
      }
      assert replies[..used + 1] == replies[..used] + [replies[used]];
    }
  }

  lemma {:induction false} FreshSpan(g: Group, quantum: nat)
    requires GroupOk(g, quantum) && g.body == [FreeTag(g.span.base, g.span.size)]
    ensures 0 < g.span.size < TWO64 && g.span.End() <= TWO64 && Quantized(g.span, quantum)
  {
  }

  /** Quantum multiples leave either nothing or room for a segment on both sides of a block. */
  lemma {:induction false} CarveRoom(gs: seq<Group>, quantum: nat, k: nat, j: nat, addr: nat, size: nat)
    requires QueueOk(gs, quantum) && quantum >= 2 && k < |gs| && j < |gs[k].body|
    requires gs[k].body[j].base <= addr && addr + size <= gs[k].body[j].End()
    requires size > 0 && addr % quantum == 0 && size % quantum == 0
    ensures var t := gs[k].body[j];
            && 2 <= t.size < TWO64 && size >= 2
            && (addr == t.base || t.base + 2 <= addr)
            && (addr + size == t.End() || addr + size + quantum <= t.End())
  {
    var t := gs[k].body[j];
    SizedIn(gs, quantum, k, j);
    assert Quantized(t, quantum) by { GroupOf(gs, quantum, k); }
    GridRoom(t, quantum, addr, size);
  }

  lemma {:induction false} GridRoom(t: Tag, quantum: nat, addr: nat, size: nat)
    requires Quantized(t, quantum) && quantum >= 2 && size > 0 && addr % quantum == 0 && size % quantum == 0
    requires t.base <= addr && addr + size <= t.End()
    ensures size >= 2 && (addr == t.base || t.base + 2 <= addr)
    ensures addr + size == t.End() || addr + size + quantum <= t.End()
  {
    MultipleSum(addr, size, quantum);
    MultipleSum(t.base, t.size, quantum);
    ModOffset(0, 0, quantum);
    MultipleBelow(0, size, quantum);
    if t.base < addr { MultipleBelow(t.base, addr, quantum); }
    if addr + size < t.End() { MultipleBelow(addr + size, t.End(), quantum); }
  }

  lemma {:induction false} PlacedFlatten(gs: seq<Group>, k: nat, j: nat, addr: nat, size: nat)
    requires k < |gs| && j < |gs[k].body|
    requires gs[k].body[j].base <= addr && addr + size <= gs[k].body[j].End()
    ensures Offset(gs, k) + 1 + j + 1 <= |Flatten(gs)|
    ensures Flatten(Placed(gs, k, j, addr, size))
            == Splice(Flatten(gs), Offset(gs, k) + 1 + j, 1, Pieces(gs[k].body[j], addr, size))
  {
    FlattenSplice(gs, k, j, 1, Pieces(gs[k].body[j], addr, size));
  }

  lemma {:induction false} ShowsSplice(q: seq<Segment>, tags: seq<Tag>, i: nat, mid: seq<Segment>, mtags: seq<Tag>)
    requires |q| == |tags| && i < |q| && Shows(mid, mtags)
    requires forall x :: 0 <= x < |q| && x != i ==> q[x].Val() == tags[x]
    ensures Shows(Splice(q, i, 1, mid), Splice(tags, i, 1, mtags))
  {
    SpliceAt(q, i, 1, mid);
    SpliceAt(tags, i, 1, mtags);
  }

  lemma {:induction false} CarveElements<T>(q: seq<T>, free: seq<T>, i: nat, mid: seq<T>, spare: seq<T>, a: T, b: T)
    requires i < |q| && multiset(mid) + multiset(spare) == multiset{q[i], a, b}
    ensures Elements(Splice(q, i, 1, mid)) + Elements(spare + free) == Elements(q) + Elements(free) + {a, b}
  {
    SpliceMembers(q, i, 1, mid);
    assert q[i..i + 1] == [q[i]];
    forall x ensures (x in mid || x in spare) <==> (x == q[i] || x == a || x == b) {
      assert x in multiset(mid) + multiset(spare) <==> x in multiset{q[i], a, b};
      assert x in mid <==> x in multiset(mid);
      assert x in spare <==> x in multiset(spare);
    }
  }

  /** `seg_fit` answers correctly on every free segment: it neither leaves nor misses one. */
  ghost predicate Fair(gs: seq<Group>, q: Request) {
    q.align > 0 && forall k, j :: 0 <= k < |gs| && FreeAt(gs[k].body, j) ==>
      !Leaves(gs[k].body[j].base, gs[k].body[j].size, q) && !Misses(gs[k].body[j].base, gs[k].body[j].size, q)
  }

  /** No span ends at 2^64. */
  ghost predicate BelowTop(gs: seq<Group>) {
    forall k :: 0 <= k < |gs| ==> gs[k].span.End() < TWO64
  }

  /** Requests for multiples of the quantum never wrap. */
  lemma {:induction false} AnywhereFair(gs: seq<Group>, quantum: nat, size: nat)
    requires QueueOk(gs, quantum) && IsPow2(quantum) && BelowTop(gs)
    ensures Fair(gs, Anywhere(size, quantum))
  {
    hide IsPow2;
    Pow2Divides(quantum);
    forall k, j | 0 <= k < |gs| && FreeAt(gs[k].body, j)
      ensures var t, q := gs[k].body[j], Anywhere(size, quantum);
              !Leaves(t.base, t.size, q) && !Misses(t.base, t.size, q)
    {
      var t := gs[k].body[j];
      assert GroupOk(gs[k], quantum);
      TilesInside(gs[k].body, gs[k].span.base, gs[k].span.End(), j);
      MultipleBelow(t.base, TWO64, quantum);
    }
  }

  /** `addr` serves the request from the free segment `j` of span `k`. */
  ghost predicate PlaceableAt(gs: seq<Group>, q: Request, k: int, j: int, addr: nat) {
    && 0 <= k < |gs| && FreeAt(gs[k].body, j)
    && Admissible(gs[k].body[j].base, gs[k].body[j].size, q, addr)
  }

  /** The queue has an address for the request. */
  ghost predicate Placeable(gs: seq<Group>, q: Request) {
    exists k, j, addr :: PlaceableAt(gs, q, k, j, addr)
  }

  /**
   The choice of the best-fit search: the least address of a free segment from the lowest
   freelist that can serve the request at all.
   */
  ghost predicate Chosen(gs: seq<Group>, q: Request, k: nat, j: nat, addr: nat) {
    && PlaceableAt(gs, q, k, j, addr)
    && IsLeast(gs[k].body[j].base, gs[k].body[j].size, q, Some(addr))
    && 2 <= gs[k].body[j].size < TWO64
    && (forall m, n, a :: PlaceableAt(gs, q, m, n, a) ==>
          2 <= gs[m].body[n].size < TWO64 && ListOf(gs[k].body[j].size) <= ListOf(gs[m].body[n].size))
  }

  /** The address serves the request from a free segment that is less than twice as large as any other that could. */
  ghost predicate BestFit(gs: seq<Group>, q: Request, addr: nat) {
    exists k, j :: PlaceableAt(gs, q, k, j, addr)
      && forall m, n, a :: PlaceableAt(gs, q, m, n, a) ==> gs[k].body[j].size < 2 * gs[m].body[n].size
  }

  /** The chosen address meets the request, and no segment that could serve it is half as large or less. */
  lemma {:induction false} ChosenMeans(gs: seq<Group>, q: Request, k: nat, j: nat, addr: nat)
    requires Chosen(gs, q, k, j, addr)
    ensures q.align > 0 && q.minaddr <= addr && addr + q.size <= q.maxaddr && addr % q.align == q.phase
    ensures BestFit(gs, q, addr)
    ensures forall m, n, a :: PlaceableAt(gs, q, m, n, a) ==> gs[k].body[j].size < 2 * gs[m].body[n].size
  {
    hide Log2;
    var i := ListOf(gs[k].body[j].size);
    forall m, n, a | PlaceableAt(gs, q, m, n, a) ensures gs[k].body[j].size < 2 * gs[m].body[n].size {
      Pow2Monotone(i + 1, ListOf(gs[m].body[n].size) + 1);
    }
  }

  lemma {:induction false} ChosenPlaceable(gs: seq<Group>, q: Request, k: nat, j: nat, addr: nat)
    requires Chosen(gs, q, k, j, addr)
    ensures Placeable(gs, q)
  {
  }

  lemma {:induction false} SizedIn(gs: seq<Group>, quantum: nat, k: nat, j: nat)
    requires QueueOk(gs, quantum) && quantum >= 2 && k < |gs| && j < |gs[k].body|
    ensures 2 <= gs[k].body[j].size < TWO64
  {
    SizedTile(gs[k], quantum, j);
  }

  /** Below the top of the address space `seg_fit` finds the least admissible address of a queued segment. */
  lemma {:induction false} FitInGroup(gs: seq<Group>, quantum: nat, q: Request, k: nat, j: nat)
    requires QueueOk(gs, quantum) && ValidRequest(q) && q.align > 0 && Fair(gs, q)
    requires k < |gs| && FreeAt(gs[k].body, j)
    ensures var t := gs[k].body[j]; IsLeast(t.base, t.size, q, Fit(t.base, t.size, q))
  {
    hide Fit, IsLeast, IsPow2, Leaves, Misses;
    var t := gs[k].body[j];
    SizedTile(gs[k], quantum, j);
    TilesInside(gs[k].body, gs[k].span.base, gs[k].span.End(), j);
    FitIsLeastIff(t.base, t.size, q);
  }

  /** `t` is the only live block of the imported span `k`. */
  ghost predicate LastBlockOf(gs: seq<Group>, k: int, t: Tag) {
    0 <= k < |gs| && gs[k].span.imported && Live(gs[k].body) == {t}
  }

  /** One `vmem_xfree`: the block is freed, and its span handed back if that was its last block and spans can be returned. */
  ghost predicate FreeStep(gs: seq<Group>, t: Tag, canReturn: bool, hs: seq<Group>) {
    exists k: nat, j: nat ::
      && k < |gs| && j < |gs[k].body| && gs[k].body[j] == t && t.kind == Allocated
      && hs == if canReturn && LastBlockOf(gs, k, t) then Splice(gs, k, 1, []) else Freed(gs, k, j)
  }

  /** The span a freed block belongs to is the only one it can have been the last block of. */
  lemma {:induction false} OnlySpan(gs: seq<Group>, quantum: nat, k: nat, j: nat)
    requires QueueOk(gs, quantum) && k < |gs| && j < |gs[k].body| && gs[k].body[j].kind == Allocated
    ensures forall m :: LastBlockOf(gs, m, gs[k].body[j]) ==> m == k
  {
    var t := gs[k].body[j];
    assert t in Live(gs[k].body);
    forall m | LastBlockOf(gs, m, t) ensures m == k {
      if m != k {
        LiveElsewhere(gs, quantum, k, m, t);
        assert false;
      }
    }
  }

  /** A free keeps every imported span busy unless it was the last block of one that stays. */
  lemma {:induction false} FreeKeepsBusy(gs: seq<Group>, quantum: nat, k: nat, j: nat)
    requires QueueOk(gs, quantum) && k < |gs| && j < |gs[k].body| && gs[k].body[j].kind == Allocated
    ensures Busy(gs) ==> (Busy(Freed(gs, k, j)) <==> !LastBlockOf(gs, k, gs[k].body[j]))
    ensures Busy(gs) ==> Busy(Splice(gs, k, 1, []))
  {
    var g, t := gs[k], gs[k].body[j];
    ReleaseLive(g.body, g.span.base, g.span.End(), j);
    assert t in Live(g.body);
    var hs := Freed(gs, k, j);
    assert hs[k].span == g.span && hs[k].body == Release(g.body, j);
    assert Live(hs[k].body) == {} <==> Live(g.body) == {t};
    forall m | 0 <= m < |hs| && m != k ensures hs[m] == gs[m] { }
    SpliceAt(gs, k, 1, []);
  }

  /** The queue around a freed block, and what it tells about the span. */
  lemma {:induction false} AfterFree(q: seq<Segment>, gs: seq<Group>, quantum: nat, k: nat, j: nat)
    requires QueueOk(gs, quantum) && k < |gs| && j < |gs[k].body| && gs[k].body[j].kind == Allocated
    requires quantum >= 2 && QueueOk(Freed(gs, k, j), quantum) && Shows(q, Flatten(Freed(gs, k, j)))
    ensures var f := Offset(gs, k) + 1 + MergeFirst(gs[k].body, j);
            && 0 < f < |q|
            && q[f].kind == Free && 2 <= q[f].size < TWO64
            && (q[f - 1].kind == Span || q[f - 1].kind == Allocated)
            && ((q[f - 1].kind == Span && q[f - 1].imported && q[f - 1].size == q[f].size)
                <==> LastBlockOf(gs, k, gs[k].body[j]))
            && (q[f - 1].kind == Span ==> q[f - 1].Val() == gs[k].span)
    ensures LastBlockOf(gs, k, gs[k].body[j]) ==>
              && Freed(gs, k, j)[k].body == [FreeTag(gs[k].span.base, gs[k].span.size)]
              && Live(Freed(gs, k, j)[k].body) == {} && MergeFirst(gs[k].body, j) == 0
  {
    hide QueueOk, Flatten, GroupOk, Live, Tiles, Separated;
    var hs, m := Freed(gs, k, j), MergeFirst(gs[k].body, j);
    var g, h := gs[k], hs[k];
    assert GroupOk(g, quantum) && GroupOk(h, quantum) by { GroupOf(gs, quantum, k); GroupOf(hs, quantum, k); }
    assert hs[..k] == gs[..k];
    SpanKinds(hs, quantum);
    Neighbours(hs, k, m);
    SpliceAt(g.body, m, MergeLast(g.body, j) - m + 1, [Merged(g.body, j)]);
    assert h.body[m] == Merged(g.body, j);
    SpanDone(h, quantum, m);
    SizedTile(h, quantum, m);
    assert Live(h.body) == Live(g.body) - {g.body[j]} by { GroupTiles(g, quantum); ReleaseLive(g.body, g.span.base, g.span.End(), j); }
    assert g.body[j] in Live(g.body) by { InLive(g.body, j); }
    assert Live(h.body) == {} <==> Live(g.body) == {g.body[j]};
  }

  lemma {:induction false} GroupOf(gs: seq<Group>, quantum: nat, k: nat)
    requires QueueOk(gs, quantum) && k < |gs|
    ensures GroupOk(gs[k], quantum)
  {
  }

  lemma {:induction false} GroupTiles(g: Group, quantum: nat)
    requires GroupOk(g, quantum)
    ensures Tiles(g.body, g.span.base, g.span.End()) && Separated(g.body) && g.span.kind == Span
  {
  }

  lemma {:induction false} InLive(body: seq<Tag>, j: nat)
    requires j < |body| && body[j].kind == Allocated
    ensures body[j] in Live(body)
  {
  }

  /** Dropping the wholly free span leaves the other spans as they were. */
  lemma {:induction false} DropFreed(q: seq<Segment>, gs: seq<Group>, quantum: nat, k: nat, j: nat)
    requires QueueOk(gs, quantum) && k < |gs| && j < |gs[k].body| && gs[k].body[j].kind == Allocated
    requires QueueOk(Freed(gs, k, j), quantum) && Shows(q, Flatten(Freed(gs, k, j)))
    requires |Freed(gs, k, j)[k].body| == 1 && Live(Freed(gs, k, j)[k].body) == {}
    ensures Offset(gs, k) + 2 <= |q|
    ensures QueueOk(Splice(gs, k, 1, []), quantum)
    ensures Shows(Splice(q, Offset(gs, k), 2, []), Flatten(Splice(gs, k, 1, [])))
    ensures TotalLive(Splice(gs, k, 1, [])) == TotalLive(gs) - gs[k].body[j].size
  {
    hide QueueOk, Flatten, GroupOk, Live, TotalLive, LiveBytes;
    var hs := Freed(gs, k, j);
    assert Splice(hs, k, 1, []) == Splice(gs, k, 1, []);
    assert hs[..k] == gs[..k];
    FreedOk(gs, quantum, k, j);
    DroppedOk(hs, quantum, k);
    DroppedFlatten(hs, k);
    SpliceAt(q, Offset(gs, k), 2, []);
    SpliceAt(Flatten(hs), Offset(gs, k), 2, []);
    assert LiveBytes(hs[k].body) == 0 by { IdleBytes(hs[k].body); }
  }

  lemma {:induction false} IdleBytes(body: seq<Tag>)
    requires |body| == 1 && Live(body) == {}
    ensures LiveBytes(body) == 0
  {
    assert body == [body[0]];
    LiveBytesOne(body[0]);
    var t := body[0];
    assert t.kind == Allocated ==> t in Live(body);
  }

  /** What the queue says around the block at `j` of span `k`. */
  lemma {:induction false} Around(q: seq<Segment>, gs: seq<Group>, quantum: nat, k: nat, j: nat)
    requires QueueOk(gs, quantum) && Shows(q, Flatten(gs)) && k < |gs| && j < |gs[k].body|
    ensures var i, body := Offset(gs, k) + 1 + j, gs[k].body;
            && 0 < i < |q| && q[i].Val() == body[j]
            && var f := if q[i - 1].kind == Free then i - 1 else i;
            && var l := if i + 1 < |q| && q[i + 1].kind == Free then i + 1 else i;
            && f == Offset(gs, k) + 1 + MergeFirst(body, j)
            && l == Offset(gs, k) + 1 + MergeLast(body, j)
            && Merged(body, j) == FreeTag(q[f].base, q[i].size
                                                     + (if f < i then q[i - 1].size else 0)
                                                     + (if i < l then q[i + 1].size else 0))
  {
    hide GroupOk, Flatten, Offset;
    assert forall k :: 0 <= k < |gs| ==> gs[k].span.kind == Span by { SpanKinds(gs, quantum); }
    Neighbours(gs, k, j);
  }

  lemma {:induction false} SpanKinds(gs: seq<Group>, quantum: nat)
    requires QueueOk(gs, quantum)
    ensures forall k :: 0 <= k < |gs| ==> gs[k].span.kind == Span
  {
  }

  lemma {:induction false} FreedFlatten(gs: seq<Group>, k: nat, j: nat, n: nat)
    requires k < |gs| && j < |gs[k].body|
    requires MergeFirst(gs[k].body, j) + n == MergeLast(gs[k].body, j) + 1
    ensures Offset(gs, k) + 1 + MergeFirst(gs[k].body, j) + n <= |Flatten(gs)|
    ensures Flatten(Freed(gs, k, j))
            == Splice(Flatten(gs), Offset(gs, k) + 1 + MergeFirst(gs[k].body, j), n, [Merged(gs[k].body, j)])
  {
    FlattenSplice(gs, k, MergeFirst(gs[k].body, j), n, [Merged(gs[k].body, j)]);
  }

  /** A stretch of the queue collapsed to one segment. */
  lemma {:induction false} ShowsReplace(q: seq<Segment>, tags: seq<Tag>, f: nat, n: nat, seg: Segment, t: Tag)
    requires |q| == |tags| && f + n <= |q| && seg.Val() == t
    requires forall x :: 0 <= x < |q| && !(f <= x < f + n) ==> q[x].Val() == tags[x]
    ensures Shows(Splice(q, f, n, [seg]), Splice(tags, f, n, [t]))
  {
    SpliceAt(q, f, n, [seg]);
    SpliceAt(tags, f, n, [t]);
  }

  lemma {:induction false} ReplaceElements<T>(q: seq<T>, rest: seq<T>, i: nat, f: nat, n: nat)
    requires f <= i < f + n <= |q|
    ensures Elements(Splice(q, f, n, [q[i]])) + Elements(Neighbouring(q, i, f, n) + rest) == Elements(q) + Elements(rest)
  {
    SpliceMembers(q, f, n, [q[i]]);
    NeighbouringElements(q, i, f, n);
  }

  lemma {:induction false} ShowsPair(q: seq<Segment>, tags: seq<Tag>, a: Segment, b: Segment)
    requires Shows(q, tags)
    ensures Shows(q + [a, b], tags + [a.Val(), b.Val()])
  {
  }

  lemma {:induction false} ShowsCons(a: Segment, q: seq<Segment>, tags: seq<Tag>)
    requires Shows(q, tags)
    ensures Shows([a] + q, [a.Val()] + tags)
  {
  }

  /** Cutting at `addr` first and taking the block from the rest gives the same pieces. */
  lemma {:induction false} PiecesAbove(t: Tag, addr: nat, size: nat)
    requires t.base < addr && addr + size <= t.End()
    ensures Pieces(t, addr, size)
            == [FreeTag(t.base, addr - t.base)] + Pieces(FreeTag(addr, t.End() - addr), addr, size)
  {
  }

  lemma {:induction false} SpliceSelf<T>(s: seq<T>, i: nat, x: T)
    requires i < |s|
    ensures Splice(s, i, 1, [s[i]]) == s
    ensures Splice(s, i, 0, [x]) == Splice(s, i, 1, [x, s[i]])
  {
  }

  lemma {:induction false} SpliceFront<T>(s: seq<T>, i: nat, x: T, mid: seq<T>)
    requires i < |s|
    ensures Splice(Splice(s, i, 0, [x]), i + 1, 1, mid) == Splice(s, i, 1, [x] + mid)
  {
  }

  lemma {:induction false} RemovePair<T>(q: seq<T>, f: nat)
    requires 0 < f < |q|
    ensures |Splice(q, f, 1, [])| == |q| - 1 && Splice(q, f, 1, [])[f - 1] == q[f - 1]
    ensures Splice(Splice(q, f, 1, []), f - 1, 1, []) == Splice(q, f - 1, 2, [])
  {
  }

  lemma {:induction false} RemoveMembers<T>(s: seq<T>, i: nat)
    requires i < |s|
    ensures forall y :: y in s <==> y in Splice(s, i, 1, []) || y == s[i]
    ensures Distinct(s) ==> Distinct(Splice(s, i, 1, [])) && s[i] !in Splice(s, i, 1, [])
  {
    SpliceMembers(s, i, 1, []);
    SpliceAt(s, i, 1, []);
    assert s[i..i + 1] == [s[i]];
  }

  lemma {:induction false} InsertMembers<T>(s: seq<T>, i: nat, x: T)
    requires i <= |s|
    ensures forall y :: y in Splice(s, i, 0, [x]) <==> y in s || y == x
    ensures Distinct(s) && x !in s ==> Distinct(Splice(s, i, 0, [x]))
  {
    SpliceMembers(s, i, 0, [x]);
    SpliceAt(s, i, 0, [x]);
  }

  /** The segments from `f` to `f + n` other than the one at `i`. */
  ghost function Neighbouring<T>(q: seq<T>, i: nat, f: nat, n: nat): seq<T>
    requires f <= i < f + n <= |q|
  {
    q[f..i] + q[i + 1..f + n]
  }

  lemma {:induction false} MergeRightSplice<T>(q: seq<T>, i: nat, n: nat)
    requires 1 <= n <= 2 && i + n <= |q|
    ensures var r := Splice(q, i, n, [q[i]]);
            && r == (if n == 2 then Splice(q, i + 1, 1, []) else q)
            && |r| == |q| - n + 1 && r[i] == q[i] && (i > 0 ==> r[i - 1] == q[i - 1])
    ensures Neighbouring(q, i, i, n) == if n == 2 then [q[i + 1]] else []
  {
    assert q[..i + 1] == q[..i] + [q[i]];
    if n == 2 {
      assert q[i..i] + q[i + 1..i + 2] == [q[i + 1]];
      assert q[..i + 1] + [] == q[..i + 1];
    } else {
      assert q[i..i] + q[i + 1..i + 1] == [];
      assert q[..i] + [q[i]] + q[i + 1..] == q;
    }
  }

  lemma {:induction false} MergeLeftSplice<T>(q: seq<T>, i: nat, n: nat)
    requires 1 <= n <= 2 && 0 < i && i + n <= |q|
    ensures |Splice(q, i, n, [q[i]])| >= i
    ensures Splice(Splice(q, i, n, [q[i]]), i - 1, 1, []) == Splice(q, i - 1, n + 1, [q[i]])
    ensures Neighbouring(q, i, i - 1, n + 1) == [q[i - 1]] + Neighbouring(q, i, i, n)
  {
  }

  lemma {:induction false} NeighbouringElements<T>(q: seq<T>, i: nat, f: nat, n: nat)
    requires f <= i < f + n <= |q|
    ensures Elements(Neighbouring(q, i, f, n)) + {q[i]} == Elements(q[f..f + n])
  {
    assert q[f..f + n] == q[f..i] + [q[i]] + q[i + 1..f + n];
  }

  /** The list after LIST_REMOVE of `x`. */
  function Without<T(==)>(s: seq<T>, x: T): (r: seq<T>)
    ensures x !in s ==> r == s
    ensures Distinct(s) ==> Distinct(r) && x !in r
    ensures forall y :: y in s && y != x ==> y in r
    ensures forall y :: y in r ==> y in s
    ensures |r| == if x in s then |s| - 1 else |s|
  {
    if s == [] then
      []
    else if s[0] == x then
      assert s == [s[0]] + s[1..];
      s[1..]
    else
      assert s == [s[0]] + s[1..];
      var rest := Without(s[1..], x);
      assert Distinct(s) ==> s[0] !in s[1..];
      assert s[0] in rest ==> s[0] in s[1..];
      [s[0]] + rest
  }
}
