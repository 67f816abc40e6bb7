/**
 The critical sections of `dispatch.c` and `event.c` as they change threads, wait blocks and
 objects in place. Each is one step of the system in `Waits`.
 */
module Dispatch {
  import opened Sequences
  import opened Waits

  class Dispatcher {
    var threads: map<nat, Thread>
    var objects: map<nat, Header>
    var panicked: bool

    ghost function Now(): System
      reads this
    {
      System(threads, objects, panicked)
    }

    constructor (threads: map<nat, Thread>, objects: map<nat, Header>)
      requires Initial(System(threads, objects, false))
      ensures Now() == System(threads, objects, false)
    {
      this.threads, this.objects, panicked := threads, objects, false;
    }

    /** The section of `sched_wait_single` under the object's lock. True if the wait is over. */
    method BeginWait(t: nat, o: nat) returns (done: bool)
      requires Inv(Now()) && Enabled(Now(), Wait(t, o))
      modifies this
      ensures Now() == Next(old(Now()), Wait(t, o)) && Inv(Now()) && !panicked
      ensures done == (threads[t].place == Outside) == (old(objects[o].signalcount) > 0)
      ensures done ==> threads[t].result == STATUS_OK
                       && objects == old(objects)[o := old(objects[o]).(signalcount := if old(objects[o]).notification then 1 else 0)]
      ensures !done ==> objects == old(objects)[o := old(objects[o]).(list := old(objects[o].list) + [t],
                                                                      waitercount := old(objects[o].waitercount) + 1)]
      ensures threads == old(threads)[t := threads[t]] && threads[t].waitsOn == o
    {
      WaitKeeps(Now(), t, o);
      var th := threads[t].(waitsOn := o, dequeued := false, unwaited := false, status := STATUS_WAITING, resumed := 0);
      var h := objects[o];
      if h.signalcount != 0 {
        if !h.notification {
          h := h.(signalcount := h.signalcount - 1);
        }
        objects := objects[o := h];
        threads := threads[t := th.(status := STATUS_OK, result := STATUS_OK)];
        return true;
      }
      objects := objects[o := h.(list := h.list + [t], waitercount := h.waitercount + 1)];
      threads := threads[t := th.(place := Listed)];
      done := false;
    }

    /**
     The start of `wait_thread`: the thread becomes Waiting and gives up the processor. Its block is
     still on the list, of an object that is not signalled, so the next signal finds it.
     */
    method FallAsleep(t: nat)
      requires Inv(Now()) && Enabled(Now(), Sleep(t))
      modifies this
      ensures Now() == Next(old(Now()), Sleep(t)) && Inv(Now()) && !panicked && objects == old(objects)
      ensures var o := threads[t].waitsOn; o in objects && t in objects[o].list && objects[o].signalcount == 0
      ensures !threads[t].unwaited && threads[t].resumed == 0
    {
      SleepKeeps(Now(), t);
      assert ThreadOk(Now(), t);
      assert ObjectOk(Now(), threads[t].waitsOn);
      threads := threads[t := threads[t].(place := Blocked)];
    }

    /** The end of `wait_thread`: `dequeue_wb`, then the status of the wait. */
    method EndWait(t: nat) returns (status: int)
      requires Inv(Now()) && Enabled(Now(), Leave(t))
      modifies this
      ensures Now() == Next(old(Now()), Leave(t)) && Inv(Now()) && !panicked
      ensures status == threads[t].result == old(threads[t].status) && (status == STATUS_TIMEOUT || status == STATUS_RANGE_WAIT)
      ensures threads == old(threads)[t := threads[t]] && threads[t].place == Outside
      ensures forall o :: o in objects ==> o in old(objects) && t !in objects[o].list
                                           && objects[o].signalcount == old(objects[o].signalcount)
    {
      LeaveKeeps(Now(), t);
      OffTheLists(Now(), t);
      assert ThreadOk(Now(), t);
      var th := threads[t];
      if !th.dequeued {
        var h := objects[th.waitsOn];
        assert h.waitercount != 0;  // the underflow check
        objects := objects[th.waitsOn := h.(list := Without(h.list, t), waitercount := h.waitercount - 1)];
      }
      threads := threads[t := th.(place := Outside, result := th.status)];
      status := th.status;
    }

    /**
     `wait_timer_exp`: a sleeping thread is resumed, once, with the status of a timeout; its block
     stays on the list until it has left. Any other thread is left alone.
     */
    method WaitTimerExpired(t: nat)
      requires Inv(Now()) && Enabled(Now(), Expire(t))
      modifies this
      ensures Now() == Next(old(Now()), Expire(t)) && Inv(Now()) && !panicked && objects == old(objects)
      ensures old(threads[t].place) != Blocked ==> threads == old(threads)
      ensures old(threads[t].place) == Blocked ==>
                && threads[t].place == Woken && threads[t].status == STATUS_TIMEOUT && threads[t].resumed == 1
                && threads[t].waitsOn in objects && t in objects[threads[t].waitsOn].list
    {
      ExpireKeeps(Now(), t);
      assert ThreadOk(Now(), t);
      if threads[t].place != Blocked {
        return;
      }
      var th := threads[t];
      if th.status == STATUS_WAITING {
        th := th.(status := STATUS_TIMEOUT);
        th := th.(unwaited := true);
        th := th.(place := Woken, resumed := th.resumed + 1);
      }
      threads := threads[t := th];
    }

    /** `obj_satisfy`. */
    method Satisfy(o: nat, all: bool)
      requires Inv(Now()) && o in objects && !panicked && Known(threads, objects[o].list)
      modifies this
      ensures panicked == Satisfied(old(Now()), o, all).panicked
      ensures !panicked ==> Now() == Satisfied(old(Now()), o, all)
    {
      hide Inv, FirstLive, Leaving, Caught, AllPopped, Popped;
      ghost var was, h0, n := threads, objects[o], 0;
      ghost var stop := false;
      FrontOf(Now(), o);
      NonePopped(was);
      while objects[o].list != []
        invariant n <= |h0.list| && !stop && !panicked && Known(was, h0.list)
        invariant !Caught(was, h0.list[..n]) && (!all ==> forall i :: 0 <= i < n ==> was[h0.list[i]].unwaited)
        invariant o in objects && threads == AllPopped(was, h0.list[..n])
        invariant objects == old(objects)[o := h0.(list := h0.list[n..], waitercount := |h0.list| - n)]
        decreases |objects[o].list|
      {
        var h := objects[o];
        var t := h.list[0];
        PopNext(was, h0.list, n);
        threads := threads[t := threads[t].(dequeued := true)];
        objects := objects[o := h.(list := h.list[1..], waitercount := h.waitercount - 1)];
        n := n + 1;
        assert h0.list[n - 1..][1..] == h0.list[n..];
        if threads[t].unwaited {
          continue;
        }
        if threads[t].place != Blocked {
          CaughtNow(was, h0.list, n, all);
          panicked := true;
          return;
        }
        threads := threads[t := Unwait(threads[t], STATUS_RANGE_WAIT)];
        if !all {
          stop := true;
          break;
        }
      }
      AllLeft(was, h0.list, n, all, stop);
    }

    /** `event_signal`. 1 if the event was signalled already. */
    method EventSignal(o: nat) returns (already: int)
      requires Inv(Now()) && Enabled(Now(), Signal(o))
      modifies this
      ensures panicked == Next(old(Now()), Signal(o)).panicked
      ensures !panicked ==> Now() == Next(old(Now()), Signal(o)) && Inv(Now())
      ensures already == if old(objects[o].signalcount) > 0 then 1 else 0
      ensures !panicked ==> forall p :: p in old(objects) && p != o ==> p in objects && objects[p] == old(objects[p])
      ensures !panicked && old(objects[o].signalcount) > 0 ==> threads == old(threads) && objects == old(objects)
    {
      hide Satisfied, Inv;
      SignalKeeps(Now(), o);
      var h := objects[o];
      if h.signalcount != 0 {
        return 1;
      }
      if h.waitercount != 0 {
        if h.notification {
          Satisfy(o, true);
          if panicked {
            return 0;
          }
          StillThere(old(Now()), o, true);
          objects := objects[o := objects[o].(signalcount := 1)];
        } else {
          Satisfy(o, false);
          StillThere(old(Now()), o, false);
        }
      } else {
        objects := objects[o := h.(signalcount := 1)];
      }
      already := 0;
    }

    /** `event_reset`. */
    method EventReset(o: nat) returns (was: nat)
      requires Inv(Now()) && Enabled(Now(), Reset(o))
      modifies this
      ensures Now() == Next(old(Now()), Reset(o)) && Inv(Now()) && was == old(objects[o].signalcount)
      ensures threads == old(threads) && objects == old(objects)[o := old(objects[o]).(signalcount := 0)]
    {
      SignalCount(Now(), o, 0);
      was := objects[o].signalcount;
      objects := objects[o := objects[o].(signalcount := 0)];
    }
  }

  /** After its block is off the list of its object a thread is on no list. */
  lemma {:induction false} OffTheLists(s: System, t: nat)
    requires Inv(s) && Enabled(s, Leave(t))
    ensures forall o :: o in Left(s, t).objects ==>
              o in s.objects && t !in Left(s, t).objects[o].list && Left(s, t).objects[o].signalcount == s.objects[o].signalcount
  {
    hide Inv;
    LeaveKeeps(s, t);
    var s1 := Left(s, t);
    forall o | o in s1.objects
      ensures o in s.objects && t !in s1.objects[o].list && s1.objects[o].signalcount == s.objects[o].signalcount
    {
      Listing(s1, o);
    }
  }

  lemma {:induction false} Listing(s: System, o: nat)
    requires Inv(s) && o in s.objects
    ensures forall t :: t in s.objects[o].list ==> t in s.threads && s.threads[t].place != Outside
  {
    assert ObjectOk(s, o);
  }

  lemma {:induction false} StillThere(s: System, o: nat, all: bool)
    requires o in s.objects && Known(s.threads, s.objects[o].list)
    ensures o in Satisfied(s, o, all).objects
    ensures forall p :: p in s.objects && p != o ==> p in Satisfied(s, o, all).objects && Satisfied(s, o, all).objects[p] == s.objects[p]
  {
  }

  /** What `obj_satisfy` starts from. */
  lemma {:induction false} FrontOf(s: System, o: nat)
    requires Inv(s) && o in s.objects
    ensures s.objects[o].waitercount == |s.objects[o].list| && Distinct(s.objects[o].list)
  {
    assert ObjectOk(s, o);
  }

  lemma {:induction false} NonePopped(threads: map<nat, Thread>)
    ensures AllPopped(threads, []) == threads && !Caught(threads, [])
  {
  }

  /** One more block off the front. */
  lemma {:induction false} PopNext(was: map<nat, Thread>, list: seq<nat>, n: nat)
    requires n < |list| && Known(was, list) && Distinct(list) && !Caught(was, list[..n])
    ensures var t := list[n]; var threads := AllPopped(was, list[..n]);
            && t in was && t in threads && threads[t] == was[t] && list[n..][0] == t
            && AllPopped(was, list[..n + 1]) == threads[t := Popped(was[t])]
            && (was[t].unwaited || was[t].place == Blocked ==> !Caught(was, list[..n + 1]))
            && (!was[t].unwaited && was[t].place != Blocked ==> Caught(was, list[..n + 1]))
            && Popped(was[t]) == if was[t].unwaited then was[t].(dequeued := true)
                                 else Unwait(was[t].(dequeued := true), STATUS_RANGE_WAIT)
  {
    var t := list[n];
    assert list[..n + 1] == list[..n] + [t];
    assert t !in list[..n];
    var threads := AllPopped(was, list[..n]);
    assert forall u :: u in list[..n + 1] <==> u in list[..n] || u == t;
    assert AllPopped(was, list[..n + 1]) == threads[t := Popped(was[t])];
    if !was[t].unwaited && was[t].place != Blocked {
      assert list[..n + 1][n] == t;
    } else {
      var gone, one := list[..n], list[..n + 1];
      forall i | 0 <= i < n + 1 ensures was[one[i]].unwaited || was[one[i]].place == Blocked {
        if i < n {
          assert gone[i] == one[i];
        }
      }
    }
  }

  lemma {:induction false} CaughtNow(was: map<nat, Thread>, list: seq<nat>, n: nat, all: bool)
    requires 0 < n <= |list| && Known(was, list) && Caught(was, list[..n]) && !was[list[n - 1]].unwaited
    requires !all ==> forall i :: 0 <= i < n - 1 ==> was[list[i]].unwaited
    ensures Caught(was, list[..Leaving(was, list, all)])
  {
    var m := Leaving(was, list, all);
    var i :| 0 <= i < n && !was[list[..n][i]].unwaited && was[list[..n][i]].place != Blocked;
    assert n <= m;
    assert list[..m][i] == list[i];
  }

  lemma {:induction false} AllLeft(was: map<nat, Thread>, list: seq<nat>, n: nat, all: bool, stop: bool)
    requires n <= |list| && Known(was, list)
    requires !stop ==> n == |list| && (!all ==> forall i :: 0 <= i < n ==> was[list[i]].unwaited)
    requires stop ==> !all && n > 0 && !was[list[n - 1]].unwaited && forall i :: 0 <= i < n - 1 ==> was[list[i]].unwaited
    ensures n == Leaving(was, list, all)
  {
  }
}
