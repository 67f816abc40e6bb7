/** Boundary-tag descriptors and the global pool they are taken from. */
module SegmentPool {
  import opened Sequences
  import opened SegmentQueue

  /** A boundary tag. Lists of tags are sequences of these objects. */
  class Segment {
    var kind: Kind
    var imported: bool
    var base: nat
    var size: nat

    constructor ()
    {
      kind, imported, base, size := Free, false, 0, 0;
    }

    function Val(): Tag
      reads this
    {
      Tag(kind, kind == Span && imported, base, size)
    }
  }

  /** The tags of the list `q` say `tags`, in list order. */
  ghost predicate Shows(q: seq<Segment>, tags: seq<Tag>)
    reads q
  {
    |q| == |tags| && forall i :: 0 <= i < |q| ==> q[i].Val() == tags[i]
  }

  const LOW_WATER := 128
  const BLOCK := 64

  /** `free_segs` and `nfreesegs`. */
  class Pool {
    var free: seq<Segment>
    var nfree: int

    ghost predicate Valid()
      reads this
    {
      nfree == |free| && Distinct(free)
    }

    constructor ()
      ensures Valid() && free == []
    {
      free, nfree := [], 0;
    }

    /** `seg_alloc`. The source asserts that the pool is not empty. */
    method Take() returns (seg: Segment)
      requires Valid() && |free| > 0
      modifies this
      ensures Valid() && seg == old(free)[0] && free == old(free)[1..]
      ensures seg !in free
    {
      seg := free[0];
      free := free[1..];
      nfree := nfree - 1;
    }

    /** `seg_free`. */
    method Give(seg: Segment)
      requires Valid() && seg !in free
      modifies this
      ensures Valid() && free == [seg] + old(free)
    {
      free := [seg] + free;
      nfree := nfree + 1;
    }

    /** `repopulate_segments`: below the low-water mark a block of new descriptors is added. */
    method Repopulate()
      requires Valid()
      modifies this
      ensures Valid()
      ensures old(|free|) >= LOW_WATER ==> free == old(free)
      ensures old(|free|) < LOW_WATER ==>
                && |free| == old(|free|) + BLOCK
                && free[BLOCK..] == old(free)
                && (forall s :: s in free[..BLOCK] ==> fresh(s))
      ensures forall s :: s in free ==> s in old(free) || fresh(s)
      ensures forall s :: s in old(free) ==> s in free
    {
      if nfree >= LOW_WATER {
        return;
      }
      var i := 0;
      while i < BLOCK
        invariant 0 <= i <= BLOCK
        invariant Valid() && |free| == old(|free|) + i
        invariant free[i..] == old(free)
        invariant forall s :: s in free[..i] ==> fresh(s)
      {
        var seg := new Segment();
        assert seg !in free by { assert free == free[..i] + free[i..]; }
        ghost var before := free;
        Give(seg);
        assert free[..i + 1] == [seg] + before[..i];
        i := i + 1;
      }
      assert free == free[..BLOCK] + old(free);
    }
  }
}
