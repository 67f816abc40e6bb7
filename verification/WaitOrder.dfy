/** Who waits longest: the order of the lists told by the order of the waits, over whole runs. */
module WaitOrder {
  import opened Sequences
  import opened Waits

  /** The position of the latest wait of a thread among the actions taken; -1 if it has not waited. */
  ghost function LastWait(past: seq<Action>, t: nat): (n: int)
    ensures -1 <= n < |past|
    ensures n >= 0 ==> past[n].Wait? && past[n].thread == t
    ensures forall i :: n < i < |past| ==> !(past[i].Wait? && past[i].thread == t)
  {
    if past == [] then -1
    else
      var n := |past| - 1;
      if past[n].Wait? && past[n].thread == t then n else LastWait(past[..n], t)
  }

  lemma {:induction false} LastWaitMore(past: seq<Action>, a: Action, t: nat)
    ensures LastWait(past + [a], t) == if a.Wait? && a.thread == t then |past| else LastWait(past, t)
  {
    assert (past + [a])[..|past|] == past;
  }

  /** The threads of a list in the order of their latest waits. */
  ghost predicate Increasing(past: seq<Action>, list: seq<nat>) {
    forall i, j :: 0 <= i < j < |list| ==> LastWait(past, list[i]) < LastWait(past, list[j])
  }

  /** Every list is in the order in which its threads came, each with a wait for that object. */
  ghost predicate InOrder(s: System, past: seq<Action>) {
    forall o :: o in s.objects ==> Increasing(past, s.objects[o].list) && AllCame(past, s.objects[o].list, o)
  }

  ghost predicate AllCame(past: seq<Action>, list: seq<nat>, o: nat) {
    forall t :: t in list ==> LastWait(past, t) >= 0 && past[LastWait(past, t)] == Wait(t, o)
  }

  lemma {:induction false} IncreasingWithout(past: seq<Action>, list: seq<nat>, t: nat)
    requires Increasing(past, list)
    ensures Increasing(past, Without(list, t))
  {
    hide LastWait;
    if list != [] && list[0] != t {
      var rest := list[1..];
      IncreasingWithout(past, rest, t);
      WithoutMembers(rest, t);
      var w := Without(rest, t);
      forall j | 0 <= j < |w| ensures LastWait(past, list[0]) < LastWait(past, w[j]) {
        assert w[j] in rest;
        var i :| 0 <= i < |rest| && rest[i] == w[j];
        assert list[i + 1] == w[j];
      }
    }
  }

  /** An action that is not a wait by a listed thread leaves the order of a list alone. */
  lemma {:induction false} OrderKept(past: seq<Action>, a: Action, list: seq<nat>, o: nat)
    requires Increasing(past, list) && AllCame(past, list, o) && (a.Wait? ==> a.thread !in list)
    ensures Increasing(past + [a], list) && AllCame(past + [a], list, o)
  {
    hide LastWait;
    forall t | t in list ensures LastWait(past + [a], t) == LastWait(past, t) {
      LastWaitMore(past, a, t);
    }
  }

  lemma {:induction false} OrderJoined(past: seq<Action>, list: seq<nat>, t: nat, o: nat)
    requires Increasing(past, list) && AllCame(past, list, o) && t !in list
    ensures Increasing(past + [Wait(t, o)], list + [t]) && AllCame(past + [Wait(t, o)], list + [t], o)
  {
    hide LastWait;
    OrderKept(past, Wait(t, o), list, o);
    LastWaitMore(past, Wait(t, o), t);
    forall u | u in list ensures LastWait(past + [Wait(t, o)], u) < |past| {
      LastWaitMore(past, Wait(t, o), u);
      Before(past, u);
    }
  }

  lemma {:induction false} Before(past: seq<Action>, t: nat)
    ensures LastWait(past, t) < |past|
  {
  }

  /** A suffix of a list, or a list without one of its threads, has the same order. */
  lemma {:induction false} OrderPart(past: seq<Action>, list: seq<nat>, part: seq<nat>, o: nat, n: nat, t: nat)
    requires Increasing(past, list) && AllCame(past, list, o) && n <= |list|
    requires part == list[n..] || part == Without(list, t)
    ensures Increasing(past, part) && AllCame(past, part, o)
  {
    hide LastWait;
    IncreasingWithout(past, list, t);
    WithoutMembers(list, t);
  }

  /** Every step keeps the lists in order. */
  lemma {:induction false} InOrderNext(s: System, past: seq<Action>, a: Action)
    requires Inv(s) && InOrder(s, past) && Enabled(s, a) && !Next(s, a).panicked
    ensures InOrder(Next(s, a), past + [a])
  {
    hide Increasing, AllCame, LastWait, Without, FirstLive;
    var s1 := Next(s, a);
    forall o | o in s1.objects ensures Increasing(past + [a], s1.objects[o].list) && AllCame(past + [a], s1.objects[o].list, o) {
      assert o in s.objects;
      var list := s.objects[o].list;
      match a
      case Wait(t, e) =>
        NotListed(s, t, o);
        OrderKept(past, a, list, o);
        if e == o {
          OrderJoined(past, list, t, o);
        }
      case Signal(e) =>
        SignalRest(s, e, o);
        var n: nat :| n <= |list| && s1.objects[o].list == list[n..];
        OrderPart(past, list, list[n..], o, n, 0);
        OrderKept(past, a, list[n..], o);
      case Leave(t) =>
        OrderPart(past, list, Without(list, t), o, 0, t);
        OrderKept(past, a, Without(list, t), o);
        OrderKept(past, a, list, o);
      case _ =>
        OrderKept(past, a, list, o);
    }
  }

  /** A thread that is not waiting is on no list. */
  lemma {:induction false} NotListed(s: System, t: nat, o: nat)
    requires Inv(s) && t in s.threads && s.threads[t].place == Outside && o in s.objects
    ensures t !in s.objects[o].list
  {
    assert ObjectOk(s, o);
  }

  /** A signal takes threads off the front of one list. */
  lemma {:induction false} SignalRest(s: System, e: nat, o: nat)
    requires Inv(s) && Enabled(s, Signal(e)) && !Signalled(s, e).panicked && o in s.objects
    ensures o in Signalled(s, e).objects
    ensures exists n: nat :: n <= |s.objects[o].list| && Signalled(s, e).objects[o].list == s.objects[o].list[n..]
  {
    hide Inv, FirstLive;
    var list := s.objects[o].list;
    assert list[0..] == list;
    if o == e && s.objects[e].signalcount == 0 && s.objects[e].waitercount != 0 {
      var n := Leaving(s.threads, list, s.objects[e].notification);
      assert Signalled(s, e).objects[o].list == list[n..];
    } else {
      assert Signalled(s, e).objects[o].list == list[0..];
    }
  }

  lemma {:induction false} RunInOrder(s: System, past: seq<Action>, actions: seq<Action>, s1: System)
    requires Inv(s) && InOrder(s, past) && Runs(s, actions, s1) && !s1.panicked
    ensures InOrder(s1, past + actions)
    decreases |actions|
  {
    hide Inv, InOrder, Next, Enabled;
    if actions == [] {
      assert past + actions == past;
    } else {
      var a := actions[0];
      if Next(s, a).panicked {
        PanicStops(Next(s, a), actions[1..], s1);
      } else {
        StepKeeps(s, a);
        InOrderNext(s, past, a);
        RunInOrder(Next(s, a), past + [a], actions[1..], s1);
        assert past + [a] + actions[1..] == past + actions;
      }
    }
  }

  /** The thread still waits for the object. */
  ghost predicate Waiting(s: System, t: nat, o: nat) {
    t in s.threads && (s.threads[t].place == Listed || s.threads[t].place == Blocked) && s.threads[t].waitsOn == o
  }

  /** In every run a thread whose wait came first stands first. */
  lemma {:induction false} FirstComeFirst(s: System, actions: seq<Action>, s1: System, o: nat, i: nat, j: nat)
    requires Initial(s) && Runs(s, actions, s1) && !s1.panicked && o in s1.objects
    requires i < |s1.objects[o].list| && j < |s1.objects[o].list|
    ensures var t, u := s1.objects[o].list[i], s1.objects[o].list[j];
            i < j <==> LastWait(actions, t) < LastWait(actions, u)
  {
    hide LastWait;
    InitialInOrder(s);
    EveryRun(s, [], s) by { NoStep(s); }
    RunInOrder(s, [], actions, s1);
    assert [] + actions == actions;
    assert Increasing(actions, s1.objects[o].list);
  }

  lemma {:induction false} InitialInOrder(s: System)
    requires Initial(s)
    ensures InOrder(s, [])
  {
  }

  /**
   In every run a signal of a synchronisation event wakes, among the threads that still wait for
   it, the one whose wait came first, and no other.
   */
  lemma {:induction false} WakesFirstCome(s: System, actions: seq<Action>, s1: System, o: nat, w: nat)
    requires Initial(s) && Runs(s, actions, s1) && !s1.panicked
    requires Enabled(s1, Signal(o)) && !s1.objects[o].notification && s1.objects[o].signalcount == 0
    requires Waiting(s1, w, o) && forall u :: Waiting(s1, u, o) && u != w ==> LastWait(actions, w) < LastWait(actions, u)
    requires !Signalled(s1, o).panicked
    ensures var s2 := Signalled(s1, o);
            && w in s2.threads && s2.threads[w].place == Woken && s2.threads[w].status == STATUS_RANGE_WAIT
            && forall u :: u in s1.threads && u != w ==> u in s2.threads && s2.threads[u].place == s1.threads[u].place
  {
    hide LastWait, Signalled, FirstLive;
    EveryRun(s, actions, s1);
    var list := s1.objects[o].list;
    var i := Position(s1, w, o);
    SignalWakesOldest(s1, o);
    var k := FirstLive(s1.threads, list);
    LiveAt(s1, o, i);
    if k < i {
      StillWaiting(s1, o, k);
      FirstComeFirst(s, actions, s1, o, k, i);
      assert false;
    }
  }

  /** A waiting thread is on the list. */
  lemma {:induction false} Position(s: System, w: nat, o: nat) returns (i: nat)
    requires Inv(s) && Waiting(s, w, o)
    ensures o in s.objects && i < |s.objects[o].list| && s.objects[o].list[i] == w && !s.threads[w].unwaited
  {
    assert ThreadOk(s, w);
    i :| i < |s.objects[o].list| && s.objects[o].list[i] == w;
  }

  /** So the first one whose wait has not ended stands no later. */
  lemma {:induction false} LiveAt(s: System, o: nat, i: nat)
    requires o in s.objects && Known(s.threads, s.objects[o].list)
    requires i < |s.objects[o].list| && !s.threads[s.objects[o].list[i]].unwaited
    ensures FirstLive(s.threads, s.objects[o].list) <= i
  {
  }

  lemma {:induction false} StillWaiting(s: System, o: nat, k: nat)
    requires Inv(s) && o in s.objects && Known(s.threads, s.objects[o].list)
    requires k < |s.objects[o].list| && !s.threads[s.objects[o].list[k]].unwaited
    ensures Waiting(s, s.objects[o].list[k], o)
    ensures forall i :: 0 <= i < |s.objects[o].list| && i != k ==> s.objects[o].list[i] != s.objects[o].list[k]
  {
    assert ObjectOk(s, o);
    assert ThreadOk(s, s.objects[o].list[k]);
  }
}
