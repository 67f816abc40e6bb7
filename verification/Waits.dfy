/**
 Waits on dispatcher objects and the signals that end them, as a system of atomic steps: each
 critical section under an object's lock is one step, and any number of threads take them in
 any order.
 */
module Waits {
  import opened Sequences

  const STATUS_OK := 0
  const STATUS_TIMEOUT := 1
  const STATUS_WAITING := 2
  const STATUS_RANGE_WAIT := 0x1000

  /**
   How far a thread has come in `sched_wait_single`: its block is on the object's list but it
   still runs, it sleeps, or it was resumed and has not yet taken its block off the list.
   */
  datatype Place = Outside | Listed | Blocked | Woken

  /** A thread with its one wait block. `resumed` counts the times this wait was ended by `sched_resume`. */
  datatype Thread = Thread(place: Place, status: int, waitsOn: nat, dequeued: bool, unwaited: bool, resumed: nat, result: int)

  /** An event: synchronisation or notification. Wait blocks are named by their threads. */
  datatype Header = Header(notification: bool, signalcount: nat, waitercount: nat, list: seq<nat>)

  datatype System = System(threads: map<nat, Thread>, objects: map<nat, Header>, panicked: bool)

  // ---------------------------------------------------------------------------
  // What a satisfied object does to its waiters

  /** `sched_unwait` on a thread in state Waiting. */
  function Unwait(th: Thread, status: int): Thread {
    if th.status != STATUS_WAITING then th
    else th.(status := status, unwaited := true, place := Woken, resumed := th.resumed + 1)
  }

  /** A block taken off the list by `obj_satisfy`. */
  function Popped(th: Thread): Thread {
    var off := th.(dequeued := true);
    if th.unwaited then off else Unwait(off, STATUS_RANGE_WAIT)
  }

  predicate Known(threads: map<nat, Thread>, list: seq<nat>) {
    forall i :: 0 <= i < |list| ==> list[i] in threads
  }

  /** The oldest block whose wait has not ended yet; the length of the list if there is none. */
  function FirstLive(threads: map<nat, Thread>, list: seq<nat>): (k: nat)
    requires Known(threads, list)
    ensures k <= |list|
    ensures forall i :: 0 <= i < k ==> threads[list[i]].unwaited
    ensures k < |list| ==> !threads[list[k]].unwaited
  {
    if list == [] then 0
    else if !threads[list[0]].unwaited then 0
    else
      var tail := list[1..];
      assert forall i :: 0 <= i < |tail| ==> tail[i] == list[i + 1];
      FirstLive(threads, tail) + 1
  }

  /** How many blocks leave the list. */
  function Leaving(threads: map<nat, Thread>, list: seq<nat>, all: bool): (n: nat)
    requires Known(threads, list)
    ensures n <= |list|
  {
    if all || FirstLive(threads, list) == |list| then |list| else FirstLive(threads, list) + 1
  }

  /** A live block of a thread that does not sleep yet fails the assertion in `sched_unwait`. */
  predicate Caught(threads: map<nat, Thread>, gone: seq<nat>)
    requires Known(threads, gone)
  {
    exists i :: 0 <= i < |gone| && !threads[gone[i]].unwaited && threads[gone[i]].place != Blocked
  }

  function AllPopped(threads: map<nat, Thread>, gone: seq<nat>): map<nat, Thread> {
    map t | t in threads :: if t in gone then Popped(threads[t]) else threads[t]
  }

  /** `obj_satisfy`. */
  function Satisfied(s: System, o: nat, all: bool): System
    requires o in s.objects && Known(s.threads, s.objects[o].list)
  {
    var h := s.objects[o];
    var n := Leaving(s.threads, h.list, all);
    var gone := h.list[..n];
    if Caught(s.threads, gone) then s.(panicked := true)
    else
      s.(threads := AllPopped(s.threads, gone),
         objects := s.objects[o := h.(list := h.list[n..], waitercount := if n <= h.waitercount then h.waitercount - n else 0)])
  }

  // ---------------------------------------------------------------------------
  // Steps

  datatype Action =
    | Wait(thread: nat, event: nat)
    | Sleep(thread: nat)
    | Leave(thread: nat)
    | Expire(thread: nat)
    | Signal(event: nat)
    | Reset(event: nat)

  predicate Enabled(s: System, a: Action) {
    && !s.panicked
    && match a
       case Wait(t, o) => t in s.threads && s.threads[t].place == Outside && o in s.objects
       case Sleep(t) => t in s.threads && s.threads[t].place == Listed
       case Leave(t) => t in s.threads && s.threads[t].place == Woken && s.threads[t].waitsOn in s.objects
       case Expire(t) => t in s.threads
       case Signal(o) => o in s.objects && Known(s.threads, s.objects[o].list)
       case Reset(o) => o in s.objects
  }

  /** The list without a block. */
  function Without(list: seq<nat>, t: nat): seq<nat> {
    if list == [] then [] else if list[0] == t then list[1..] else [list[0]] + Without(list[1..], t)
  }

  /** The first critical section of `sched_wait_single`: take the signal, or join the list. */
  function Waited(s: System, t: nat, o: nat): System
    requires Enabled(s, Wait(t, o))
  {
    var h := s.objects[o];
    var th := s.threads[t].(status := STATUS_WAITING, waitsOn := o, dequeued := false, unwaited := false, resumed := 0);
    if h.signalcount > 0 then
      s.(threads := s.threads[t := th.(status := STATUS_OK, result := STATUS_OK)],
         objects := s.objects[o := if h.notification then h else h.(signalcount := h.signalcount - 1)])
    else
      s.(threads := s.threads[t := th.(place := Listed)],
         objects := s.objects[o := h.(list := h.list + [t], waitercount := h.waitercount + 1)])
  }

  /** The end of `wait_thread`: `dequeue_wb`, with its check for underflow, and the return. */
  function Left(s: System, t: nat): System
    requires Enabled(s, Leave(t))
  {
    var th := s.threads[t];
    var h := s.objects[th.waitsOn];
    var out := th.(place := Outside, result := th.status);
    if th.dequeued then s.(threads := s.threads[t := out])
    else if h.waitercount == 0 then s.(panicked := true)
    else
      s.(threads := s.threads[t := out],
         objects := s.objects[th.waitsOn := h.(list := Without(h.list, t), waitercount := h.waitercount - 1)])
  }

  /** `event_signal`. */
  function Signalled(s: System, o: nat): System
    requires Enabled(s, Signal(o))
  {
    var h := s.objects[o];
    if h.signalcount > 0 then s
    else if h.waitercount == 0 then s.(objects := s.objects[o := h.(signalcount := 1)])
    else
      var s1 := Satisfied(s, o, h.notification);
      if h.notification && !s1.panicked then s1.(objects := s1.objects[o := s1.objects[o].(signalcount := 1)]) else s1
  }

  function Next(s: System, a: Action): System
    requires Enabled(s, a)
  {
    match a
    case Wait(t, o) => Waited(s, t, o)
    case Sleep(t) => s.(threads := s.threads[t := s.threads[t].(place := Blocked)])
    case Leave(t) => Left(s, t)
    case Expire(t) =>
      if s.threads[t].place != Blocked then s
      else s.(threads := s.threads[t := Unwait(s.threads[t], STATUS_TIMEOUT)])
    case Signal(o) => Signalled(s, o)
    case Reset(o) => s.(objects := s.objects[o := s.objects[o].(signalcount := 0)])
  }

  // ---------------------------------------------------------------------------
  // The invariant

  ghost predicate ObjectOk(s: System, o: nat)
    requires o in s.objects
  {
    var h := s.objects[o];
    && h.waitercount == |h.list| && Distinct(h.list)
    && h.signalcount <= 1 && (h.signalcount > 0 ==> h.list == [])
    && forall t :: t in h.list ==> t in s.threads && s.threads[t].place != Outside && s.threads[t].waitsOn == o
  }

  ghost predicate ThreadOk(s: System, t: nat)
    requires t in s.threads
  {
    var th := s.threads[t];
    && th.resumed <= 1
    && (th.place != Outside ==> th.waitsOn in s.objects && (t in s.objects[th.waitsOn].list <==> !th.dequeued))
    && (th.place == Listed || th.place == Blocked ==>
          !th.dequeued && !th.unwaited && th.status == STATUS_WAITING && th.resumed == 0)
    && (th.place == Woken ==>
          && th.unwaited && th.resumed == 1
          && (th.status == STATUS_TIMEOUT || (th.status == STATUS_RANGE_WAIT && th.dequeued)))
  }

  ghost predicate Inv(s: System) {
    && (forall o :: o in s.objects ==> ObjectOk(s, o))
    && (forall t :: t in s.threads ==> ThreadOk(s, t))
  }

  lemma {:induction false} WithoutSpec(list: seq<nat>, t: nat)
    requires Distinct(list) && t in list
    ensures |Without(list, t)| == |list| - 1 && Distinct(Without(list, t))
    ensures forall u :: u in Without(list, t) <==> u in list && u != t
  {
    if list[0] != t {
      var tail := list[1..];
      assert forall i :: 0 <= i < |tail| ==> tail[i] == list[i + 1];
      WithoutSpec(tail, t);
      assert list == [list[0]] + tail;
      var w := Without(tail, t);
      assert list[0] !in tail;
      assert Without(list, t) == [list[0]] + w;
    } else {
      assert list == [t] + list[1..];
      assert t !in list[1..];
    }
  }

  lemma {:induction false} WaitKeeps(s: System, t: nat, o: nat)
    requires Inv(s) && Enabled(s, Wait(t, o))
    ensures Inv(Waited(s, t, o))
  {
    var s1 := Waited(s, t, o);
    var h := s.objects[o];
    assert ObjectOk(s, o) && ThreadOk(s, t);
    forall p | p in s1.objects ensures ObjectOk(s1, p) {
      assert ObjectOk(s, p);
      if p == o && h.signalcount == 0 {
        assert forall u :: u in h.list + [t] <==> u in h.list || u == t;
        assert t !in h.list;
      }
    }
    forall u | u in s1.threads ensures ThreadOk(s1, u) {
      assert ThreadOk(s, u);
      if h.signalcount == 0 {
        assert forall v :: v in h.list + [t] <==> v in h.list || v == t;
      }
    }
  }

  lemma {:induction false} SleepKeeps(s: System, t: nat)
    requires Inv(s) && Enabled(s, Sleep(t))
    ensures Inv(Next(s, Sleep(t)))
  {
    var s1 := Next(s, Sleep(t));
    forall o | o in s1.objects ensures ObjectOk(s1, o) {
      assert ObjectOk(s, o);
    }
    forall u | u in s1.threads ensures ThreadOk(s1, u) {
      assert ThreadOk(s, u) && ThreadOk(s, t);
    }
  }

  /** The underflow check never fires, and the block leaves the list. */
  lemma {:induction false} LeaveKeeps(s: System, t: nat)
    requires Inv(s) && Enabled(s, Leave(t))
    ensures Inv(Left(s, t)) && !Left(s, t).panicked
  {
    var s1 := Left(s, t);
    var th := s.threads[t];
    var h := s.objects[th.waitsOn];
    assert ObjectOk(s, th.waitsOn) && ThreadOk(s, t);
    if !th.dequeued {
      WithoutSpec(h.list, t);
    }
    forall o | o in s1.objects ensures ObjectOk(s1, o) {
      assert ObjectOk(s, o);
    }
    forall u | u in s1.threads ensures ThreadOk(s1, u) {
      assert ThreadOk(s, u);
    }
  }

  lemma {:induction false} ExpireKeeps(s: System, t: nat)
    requires Inv(s) && Enabled(s, Expire(t))
    ensures Inv(Next(s, Expire(t)))
  {
    var s1 := Next(s, Expire(t));
    forall o | o in s1.objects ensures ObjectOk(s1, o) {
      assert ObjectOk(s, o);
    }
    forall u | u in s1.threads ensures ThreadOk(s1, u) {
      assert ThreadOk(s, u) && ThreadOk(s, t);
    }
  }

  /** Blocks leave from the front; what stays is the rest of the list. */
  lemma {:induction false} SplitList(list: seq<nat>, n: nat)
    requires n <= |list| && Distinct(list)
    ensures Distinct(list[n..])
    ensures forall u :: u in list <==> u in list[..n] || u in list[n..]
    ensures forall u :: u in list[..n] ==> u !in list[n..]
  {
    assert list == list[..n] + list[n..];
  }

  lemma {:induction false} SatisfyKeeps(s: System, o: nat, all: bool)
    requires Inv(s) && o in s.objects && Known(s.threads, s.objects[o].list) && !s.panicked
    ensures var s1 := Satisfied(s, o, all); !s1.panicked ==> Inv(s1) && o in s1.objects && (all ==> s1.objects[o].list == [])
  {
    hide Satisfied, ObjectOk, ThreadOk;
    var s1 := Satisfied(s, o, all);
    if !s1.panicked {
      forall p | p in s1.objects ensures ObjectOk(s1, p) {
        SatisfyObject(s, o, all, p);
      }
      forall u | u in s1.threads ensures ThreadOk(s1, u) {
        SatisfyThread(s, o, all, u);
      }
      SatisfyEmpties(s, o, all);
    }
  }

  lemma {:induction false} SatisfyObject(s: System, o: nat, all: bool, p: nat)
    requires Inv(s) && o in s.objects && Known(s.threads, s.objects[o].list)
    requires !Satisfied(s, o, all).panicked && p in Satisfied(s, o, all).objects
    ensures ObjectOk(Satisfied(s, o, all), p)
  {
    hide ThreadOk;
    assert ObjectOk(s, p) && ObjectOk(s, o);
    SplitList(s.objects[o].list, Leaving(s.threads, s.objects[o].list, all));
  }

  lemma {:induction false} SatisfyThread(s: System, o: nat, all: bool, u: nat)
    requires Inv(s) && o in s.objects && Known(s.threads, s.objects[o].list)
    requires !Satisfied(s, o, all).panicked && u in Satisfied(s, o, all).threads
    ensures ThreadOk(Satisfied(s, o, all), u)
  {
    var h := s.objects[o];
    var n := Leaving(s.threads, h.list, all);
    var gone := h.list[..n];
    assert ObjectOk(s, o) && ThreadOk(s, u);
    SplitList(h.list, n);
    if u in gone {
      var i :| 0 <= i < n && gone[i] == u;
      assert !(!s.threads[gone[i]].unwaited && s.threads[gone[i]].place != Blocked);
    }
  }

  lemma {:induction false} SatisfyEmpties(s: System, o: nat, all: bool)
    requires o in s.objects && Known(s.threads, s.objects[o].list) && !s.panicked && !Satisfied(s, o, all).panicked
    ensures o in Satisfied(s, o, all).objects && (all ==> Satisfied(s, o, all).objects[o].list == [])
  {
  }

  lemma {:induction false} SignalKeeps(s: System, o: nat)
    requires Inv(s) && Enabled(s, Signal(o))
    ensures !Signalled(s, o).panicked ==> Inv(Signalled(s, o))
  {
    hide Satisfied;
    var h := s.objects[o];
    var s2 := Signalled(s, o);
    assert ObjectOk(s, o);
    if h.signalcount == 0 && h.waitercount > 0 {
      var s1 := Satisfied(s, o, h.notification);
      SatisfyKeeps(s, o, h.notification);
      if h.notification && !s1.panicked {
        SignalCount(s1, o, 1);
      }
    } else if h.signalcount == 0 {
      SignalCount(s, o, 1);
    }
  }

  /** An event without waiters may be signalled; any event may be reset. */
  lemma {:induction false} SignalCount(s: System, o: nat, n: nat)
    requires Inv(s) && o in s.objects && n <= 1 && (n == 1 ==> s.objects[o].list == [])
    ensures Inv(s.(objects := s.objects[o := s.objects[o].(signalcount := n)]))
  {
    var s1 := s.(objects := s.objects[o := s.objects[o].(signalcount := n)]);
    forall p | p in s1.objects ensures ObjectOk(s1, p) {
      assert ObjectOk(s, p);
    }
    forall u | u in s1.threads ensures ThreadOk(s1, u) {
      assert ThreadOk(s, u);
    }
  }

  /** Every step keeps the invariant, unless it stops the machine. */
  lemma {:induction false} StepKeeps(s: System, a: Action)
    requires Inv(s) && Enabled(s, a)
    ensures !Next(s, a).panicked ==> Inv(Next(s, a))
  {
    hide Inv, Waited, Left, Signalled;
    match a
    case Wait(t, o) => WaitKeeps(s, t, o);
    case Sleep(t) => SleepKeeps(s, t);
    case Leave(t) => LeaveKeeps(s, t);
    case Expire(t) => ExpireKeeps(s, t);
    case Signal(o) => SignalKeeps(s, o);
    case Reset(o) => SignalCount(s, o, 0);
  }

  // ---------------------------------------------------------------------------
  // Runs

  ghost predicate Runs(s: System, actions: seq<Action>, s1: System)
    decreases |actions|
  {
    if actions == [] then s1 == s
    else Enabled(s, actions[0]) && Runs(Next(s, actions[0]), actions[1..], s1)
  }

  /** Threads outside any wait, and events with nobody on their lists. */
  ghost predicate Initial(s: System) {
    && !s.panicked
    && (forall t :: t in s.threads ==> s.threads[t].place == Outside && s.threads[t].resumed == 0)
    && (forall o :: o in s.objects ==> s.objects[o].list == [] && s.objects[o].waitercount == 0 && s.objects[o].signalcount <= 1)
  }

  /** In every run the list and its count agree, and no wait is ended twice. */
  lemma {:induction false} RunKeeps(s: System, actions: seq<Action>, s1: System)
    requires Inv(s) && Runs(s, actions, s1) && !s1.panicked
    ensures Inv(s1)
    decreases |actions|
  {
    hide Inv, Next, Enabled;
    if actions != [] {
      if Next(s, actions[0]).panicked {
        PanicStops(Next(s, actions[0]), actions[1..], s1);
      } else {
        StepKeeps(s, actions[0]);
        RunKeeps(Next(s, actions[0]), actions[1..], s1);
      }
    }
  }

  lemma {:induction false} PanicStops(s: System, actions: seq<Action>, s1: System)
    requires s.panicked && Runs(s, actions, s1)
    ensures s1 == s
  {
  }

  lemma {:induction false} EveryRun(s: System, actions: seq<Action>, s1: System)
    requires Initial(s) && Runs(s, actions, s1) && !s1.panicked
    ensures Inv(s1)
  {
    assert Inv(s) by {
      forall o | o in s.objects ensures ObjectOk(s, o) { }
      forall t | t in s.threads ensures ThreadOk(s, t) { }
    }
    RunKeeps(s, actions, s1);
  }

  // ---------------------------------------------------------------------------
  // Who is woken

  /**
   A signal of a synchronisation event with waiters passes over the blocks whose waits have
   ended, wakes the oldest of the others and touches nobody else. Where all the waits have
   ended already, nobody is woken and the signal is not kept.
   */
  lemma {:induction false} SignalWakesOldest(s: System, o: nat)
    requires Inv(s) && Enabled(s, Signal(o)) && !s.objects[o].notification
    requires s.objects[o].signalcount == 0 && s.objects[o].list != [] && !Signalled(s, o).panicked
    ensures var s1, list := Signalled(s, o), s.objects[o].list;
            var k := FirstLive(s.threads, list);
            && (forall t :: t in s.threads && (k == |list| || t != list[k]) ==>
                  t in s1.threads && s1.threads[t].place == s.threads[t].place && s1.threads[t].status == s.threads[t].status
                  && s1.threads[t].resumed == s.threads[t].resumed)
            && (k < |list| ==>
                  && list[k] in s1.threads && s1.threads[list[k]].place == Woken
                  && s1.threads[list[k]].status == STATUS_RANGE_WAIT && s1.threads[list[k]].resumed == 1)
            && s1.objects == s.objects[o := s.objects[o].(list := s1.objects[o].list, waitercount := |s1.objects[o].list|)]
            && s1.objects[o].list == (if k < |list| then list[k + 1..] else [])
  {
    hide FirstLive, Inv, Caught, Distinct;
    var s1, list := Signalled(s, o), s.objects[o].list;
    var k := FirstLive(s.threads, list);
    var n := Leaving(s.threads, list, false);
    ListCount(s, o);
    if k < |list| {
      LiveBlock(s, o, n, k);
    }
    forall t | t in s.threads && (k == |list| || t != list[k])
      ensures t in s1.threads && s1.threads[t].place == s.threads[t].place && s1.threads[t].status == s.threads[t].status
              && s1.threads[t].resumed == s.threads[t].resumed
    {
      if t in list[..n] {
        var i :| 0 <= i < n && list[i] == t;
        assert i < k;
      }
    }
  }

  lemma {:induction false} ListCount(s: System, o: nat)
    requires Inv(s) && o in s.objects
    ensures s.objects[o].waitercount == |s.objects[o].list|
  {
    assert ObjectOk(s, o);
  }

  /** A live block that may be taken off the list belongs to a sleeping thread that was not resumed yet. */
  lemma {:induction false} LiveBlock(s: System, o: nat, n: nat, k: nat)
    requires Inv(s) && o in s.objects && Known(s.threads, s.objects[o].list) && k < n <= |s.objects[o].list|
    requires !Caught(s.threads, s.objects[o].list[..n]) && !s.threads[s.objects[o].list[k]].unwaited
    ensures var th := s.threads[s.objects[o].list[k]]; th.place == Blocked && th.status == STATUS_WAITING && th.resumed == 0
    ensures s.objects[o].list[k] in s.objects[o].list[..n]
  {
    var list := s.objects[o].list;
    assert ObjectOk(s, o) && ThreadOk(s, list[k]);
    assert list[..n][k] == list[k];
  }

  /** A signal of a notification event wakes every waiter whose wait has not ended, and stays signalled. */
  lemma {:induction false} SignalWakesAll(s: System, o: nat)
    requires Inv(s) && Enabled(s, Signal(o)) && s.objects[o].notification && !Signalled(s, o).panicked
    ensures var s1 := Signalled(s, o);
            && s1.objects[o].signalcount == 1 && s1.objects[o].list == []
            && forall t :: t in s.threads ==>
                 t in s1.threads
                 && (if t in s.objects[o].list && !s.threads[t].unwaited
                     then s1.threads[t].place == Woken && s1.threads[t].status == STATUS_RANGE_WAIT
                     else s1.threads[t].place == s.threads[t].place && s1.threads[t].status == s.threads[t].status)
  {
    var s1, list := Signalled(s, o), s.objects[o].list;
    assert ObjectOk(s, o);
    assert list[..|list|] == list;
    forall t | t in s.threads
      ensures t in s1.threads
              && (if t in s.objects[o].list && !s.threads[t].unwaited
                  then s1.threads[t].place == Woken && s1.threads[t].status == STATUS_RANGE_WAIT
                  else s1.threads[t].place == s.threads[t].place && s1.threads[t].status == s.threads[t].status)
    {
      assert ThreadOk(s, t);
    }
  }

  /** A signal has an effect, now or later, exactly if some waiter still waits or nobody is listed. */
  lemma {:induction false} SignalKeptIff(s: System, o: nat)
    requires Inv(s) && Enabled(s, Signal(o)) && !Signalled(s, o).panicked
    ensures var s1, list := Signalled(s, o), s.objects[o].list;
            (s1.objects[o].signalcount == 1 || exists t :: t in s.threads && s1.threads[t].resumed > s.threads[t].resumed)
            <==> s.objects[o].notification || list == [] || exists i :: 0 <= i < |list| && !s.threads[list[i]].unwaited
  {
    hide Signalled;
    var s1, h := Signalled(s, o), s.objects[o];
    var list := h.list;
    assert ObjectOk(s, o);
    if h.notification {
      SignalWakesAll(s, o);
    } else if h.signalcount == 0 && list != [] {
      SignalWakesOldest(s, o);
      var k := FirstLive(s.threads, list);
      if k < |list| {
        assert ThreadOk(s, list[k]);
        assert list[k] in s.threads && s1.threads[list[k]].resumed > s.threads[list[k]].resumed;
      }
    } else {
      EmptyList(s, o);
    }
  }

  /** Such a signal: the only waiter has timed out and not left yet. */
  lemma {:induction false} SignalCanBeLost()
    ensures exists s, actions, s1 :: Initial(s) && Runs(s, actions, s1) && Enabled(s1, Signal(0))
              && s1.objects[0].list == [7] && 7 in s1.threads
              && Signalled(s1, 0).objects[0] == Header(false, 0, 0, [])
              && Signalled(s1, 0).threads == s1.threads[7 := s1.threads[7].(dequeued := true)]
  {
    hide Runs;
    var s, s3 := Sole(Outside, 0, false, 0, []), Sole(Woken, STATUS_TIMEOUT, true, 1, [7]);
    TimedOut();
    LostOn(s3);
  }

  /** One thread, 7, and one event, 0. */
  ghost function Sole(place: Place, status: int, unwaited: bool, resumed: nat, list: seq<nat>): System {
    System(map[7 := Thread(place, status, 0, false, unwaited, resumed, 0)], map[0 := Header(false, 0, |list|, list)], false)
  }

  lemma {:induction false} TimedOut()
    ensures Runs(Sole(Outside, 0, false, 0, []), [Wait(7, 0), Sleep(7), Expire(7)], Sole(Woken, STATUS_TIMEOUT, true, 1, [7]))
  {
    hide Runs;
    var s0, s1 := Sole(Outside, 0, false, 0, []), Sole(Listed, STATUS_WAITING, false, 0, [7]);
    var s2, s3 := Sole(Blocked, STATUS_WAITING, false, 0, [7]), Sole(Woken, STATUS_TIMEOUT, true, 1, [7]);
    assert [] + [7] == [7];
    assert Next(s0, Wait(7, 0)) == s1 && Next(s1, Sleep(7)) == s2 && Next(s2, Expire(7)) == s3;
    NoStep(s3);
    OneStep(s2, [Expire(7)], [], s3);
    OneStep(s1, [Sleep(7), Expire(7)], [Expire(7)], s3);
    OneStep(s0, [Wait(7, 0), Sleep(7), Expire(7)], [Sleep(7), Expire(7)], s3);
  }

  lemma {:induction false} NoStep(s: System)
    ensures Runs(s, [], s)
  {
  }

  lemma {:induction false} OneStep(s: System, actions: seq<Action>, rest: seq<Action>, s1: System)
    requires actions != [] && actions == [actions[0]] + rest && Enabled(s, actions[0]) && Runs(Next(s, actions[0]), rest, s1)
    ensures Runs(s, actions, s1)
  {
    assert actions[1..] == rest;
  }

  lemma {:induction false} LostOn(s: System)
    requires s == Sole(Woken, STATUS_TIMEOUT, true, 1, [7])
    ensures Enabled(s, Signal(0)) && Signalled(s, 0).objects[0] == Header(false, 0, 0, [])
    ensures Signalled(s, 0).threads == s.threads[7 := s.threads[7].(dequeued := true)]
  {
    assert FirstLive(s.threads, [7]) == 1;
    var gone := [7][..1];
    assert gone == [7] && !Caught(s.threads, gone);
    assert [7][1..] == [];
  }

  /** Every listed wait is still to be ended. */
  ghost predicate Lively(s: System) {
    forall o, t :: o in s.objects && t in s.objects[o].list ==> t in s.threads && !s.threads[t].unwaited
  }

  lemma {:induction false} LivelyKept(s: System, a: Action)
    requires Inv(s) && Lively(s) && Enabled(s, a) && !a.Expire? && !Next(s, a).panicked
    ensures Lively(Next(s, a))
  {
    match a
    case Signal(e) => LivelySignal(s, e);
    case Leave(t) =>
      var th := s.threads[t];
      WithoutMembers(s.objects[th.waitsOn].list, t);
    case _ =>
  }

  lemma {:induction false} WithoutMembers(list: seq<nat>, t: nat)
    ensures forall u :: u in Without(list, t) ==> u in list
  {
    if list != [] && list[0] != t {
      WithoutMembers(list[1..], t);
    }
  }

  lemma {:induction false} LivelySignal(s: System, e: nat)
    requires Inv(s) && Lively(s) && Enabled(s, Signal(e)) && !Signalled(s, e).panicked
    ensures Lively(Signalled(s, e))
  {
    var s1, list := Signalled(s, e), s.objects[e].list;
    assert ObjectOk(s, e);
    var n := Leaving(s.threads, list, s.objects[e].notification);
    forall o, t | o in s1.objects && t in s1.objects[o].list ensures t in s1.threads && !s1.threads[t].unwaited {
      assert ObjectOk(s, o);
      assert o == e && s.objects[e].signalcount == 0 && list != [] ==> t in list[n..];
      assert t in list[n..] ==> t !in list[..n];
    }
  }

  /** As long as no wait times out no signal is lost, in any run. */
  lemma {:induction false} KeptWithoutTimeouts(s: System, actions: seq<Action>, s1: System, o: nat)
    requires Inv(s) && Lively(s) && Runs(s, actions, s1) && !s1.panicked
    requires forall i :: 0 <= i < |actions| ==> !actions[i].Expire?
    requires Enabled(s1, Signal(o)) && !Signalled(s1, o).panicked
    ensures Signalled(s1, o).objects[o].signalcount == 1
            || exists t :: t in s1.threads && Signalled(s1, o).threads[t].resumed > s1.threads[t].resumed
    decreases |actions|
  {
    hide Inv, Next, Enabled, Signalled, Lively;
    if actions == [] {
      SignalKeptIff(s, o);
      LivelyFront(s, o);
    } else {
      if Next(s, actions[0]).panicked {
        PanicStops(Next(s, actions[0]), actions[1..], s1);
      } else {
        StepKeeps(s, actions[0]);
        LivelyKept(s, actions[0]);
        KeptWithoutTimeouts(Next(s, actions[0]), actions[1..], s1, o);
      }
    }
  }

  lemma {:induction false} LivelyFront(s: System, o: nat)
    requires Lively(s) && Enabled(s, Signal(o))
    ensures s.objects[o].list == [] || !s.threads[s.objects[o].list[0]].unwaited
  {
  }

  lemma {:induction false} EmptyList(s: System, o: nat)
    requires Inv(s) && Enabled(s, Signal(o)) && (s.objects[o].signalcount > 0 || s.objects[o].list == [])
    ensures Signalled(s, o).objects[o].signalcount == 1 && s.objects[o].list == []
  {
    assert ObjectOk(s, o);
  }

  // ---------------------------------------------------------------------------
  // The window between joining the list and falling asleep

  /** The machine stops exactly if a signal reaches a live block whose thread is not asleep yet. */
  lemma {:induction false} PanicIff(s: System, a: Action)
    requires Inv(s) && Enabled(s, a)
    ensures Next(s, a).panicked <==>
              && a.Signal? && s.objects[a.event].signalcount == 0
              && var list := s.objects[a.event].list;
                 exists i :: 0 <= i < Leaving(s.threads, list, s.objects[a.event].notification) && s.threads[list[i]].place == Listed
  {
    if a.Signal? {
      var o := a.event;
      var h := s.objects[o];
      assert ObjectOk(s, o);
      var n := Leaving(s.threads, h.list, h.notification);
      var gone := h.list[..n];
      forall i | 0 <= i < n
        ensures gone[i] == h.list[i]
        ensures s.threads[h.list[i]].place == Listed <==> !s.threads[gone[i]].unwaited && s.threads[gone[i]].place != Blocked
      {
        assert ThreadOk(s, h.list[i]);
      }
      if h.signalcount == 0 && Caught(s.threads, gone) {
        var i :| 0 <= i < |gone| && !s.threads[gone[i]].unwaited && s.threads[gone[i]].place != Blocked;
        assert s.threads[h.list[i]].place == Listed;
      }
    } else if a.Leave? {
      LeaveKeeps(s, a.thread);
    }
  }

  /** On one processor nothing comes between the two: the wait runs at dispatch level. */
  ghost predicate Prompt(s: System, actions: seq<Action>)
    decreases |actions|
  {
    actions != [] && Enabled(s, actions[0]) ==>
      && (actions[0].Wait? && |actions| > 1 && s.objects[actions[0].event].signalcount == 0 ==>
            actions[1] == Sleep(actions[0].thread))
      && Prompt(Next(s, actions[0]), actions[1..])
  }

  /** Nobody is between listing and sleep, or one thread is and goes to sleep next. */
  ghost predicate Settled(s: System, actions: seq<Action>) {
    forall t :: t in s.threads && s.threads[t].place == Listed ==> actions == [] || actions[0] == Sleep(t)
  }

  lemma {:induction false} SettledNext(s: System, actions: seq<Action>)
    requires Inv(s) && !s.panicked && actions != [] && Enabled(s, actions[0])
    requires Prompt(s, actions) && Settled(s, actions)
    ensures !Next(s, actions[0]).panicked && Settled(Next(s, actions[0]), actions[1..])
  {
    var a := actions[0];
    var s1, rest := Next(s, a), actions[1..];
    PanicIff(s, a);
    forall t | t in s1.threads && s1.threads[t].place == Listed ensures rest == [] || rest[0] == Sleep(t) {
      assert ThreadOk(s, t);
    }
  }

  /** Then no run stops the machine. */
  lemma {:induction false} OneProcessorSafe(s: System, actions: seq<Action>, s1: System)
    requires Inv(s) && !s.panicked && Runs(s, actions, s1) && Prompt(s, actions) && Settled(s, actions)
    ensures !s1.panicked
    decreases |actions|
  {
    hide Next, Inv, Enabled, Settled;
    if actions != [] {
      SettledNext(s, actions);
      StepKeeps(s, actions[0]);
      OneProcessorSafe(Next(s, actions[0]), actions[1..], s1);
    }
  }

  /** With a second processor it can happen: a signal between listing and sleep. */
  lemma {:induction false} TwoProcessorsPanic()
    ensures exists s, actions, s1 :: Initial(s) && Runs(s, actions, s1) && s1.panicked
  {
    hide Runs;
    var s, s1 := Sole(Outside, 0, false, 0, []), Sole(Listed, STATUS_WAITING, false, 0, [7]);
    assert [] + [7] == [7];
    assert Next(s, Wait(7, 0)) == s1;
    assert Leaving(s1.threads, [7], false) == 1;
    var gone := [7][..1];
    assert gone[0] == 7 && Caught(s1.threads, gone);
    var s2 := Next(s1, Signal(0));
    NoStep(s2);
    OneStep(s1, [Signal(0)], [], s2);
    OneStep(s, [Wait(7, 0), Signal(0)], [Signal(0)], s2);
  }
}
