/**
 The mutex: an owner field beside a synchronisation event that starts signalled. Threads go
 through `mutex_acquire` and `mutex_release` one critical section at a time, while the rest of
 the system waits, signals and times out.
 */
module Mutex {
  import opened Word64
  import opened Waits

  /**
   Where a thread is: outside, about to look at the event, about to wait for it, inside
   `sched_wait_single`, in possession, or between clearing the owner and signalling.
   */
  datatype Spot = Free | Trying | Turning | InWait | Holding | Releasing

  datatype State = State(sys: System, owner: Option<nat>, spot: map<nat, Spot>, failed: bool)

  datatype Move =
    | Acquire(thread: nat)
    | Try(thread: nat)
    | Turn(thread: nat)
    | Return(thread: nat)
    | Clear(thread: nat)
    | Hand(thread: nat)
    | Other(action: Action)

  /** A step of the rest of the system: sleep and timeouts of anybody, waits and signals on other objects. */
  predicate Elsewhere(s: State, e: nat, a: Action) {
    match a
    case Wait(t, o) => o != e && t in s.spot && (s.spot[t] == Free || s.spot[t] == Holding)
    case Sleep(t) => true
    case Leave(t) => t in s.sys.threads && s.sys.threads[t].waitsOn != e
    case Expire(t) => true
    case Signal(o) => o != e
    case Reset(o) => o != e
  }

  predicate Able(s: State, e: nat, m: Move) {
    && !s.failed && !s.sys.panicked && e in s.sys.objects
    && match m
       case Acquire(t) => t in s.spot && s.spot[t] == Free && t in s.sys.threads && s.sys.threads[t].place == Outside
       case Try(t) => t in s.spot && s.spot[t] == Trying
       case Turn(t) => t in s.spot && s.spot[t] == Turning && Enabled(s.sys, Wait(t, e))
       case Return(t) => t in s.spot && s.spot[t] == InWait && Enabled(s.sys, Leave(t))
       case Clear(t) => t in s.spot && s.spot[t] == Holding && t in s.sys.threads && s.sys.threads[t].place == Outside
       case Hand(t) => t in s.spot && s.spot[t] == Releasing && Enabled(s.sys, Signal(e))
       case Other(a) => Elsewhere(s, e, a) && Enabled(s.sys, a)
  }

  /** Both assertions of `mutex.c` are kept in `failed`. */
  function Step(s: State, e: nat, m: Move): State
    requires Able(s, e, m)
  {
    match m
    case Acquire(t) => s.(spot := s.spot[t := Trying])
    case Try(t) =>
      var h := s.sys.objects[e];
      if h.signalcount == 1 then
        s.(failed := s.owner != None, owner := Some(t), spot := s.spot[t := Holding],
           sys := s.sys.(objects := s.sys.objects[e := h.(signalcount := 0)]))
      else s.(spot := s.spot[t := Turning])
    case Turn(t) =>
      var sys := Next(s.sys, Wait(t, e));
      s.(sys := sys, spot := s.spot[t := if s.sys.objects[e].signalcount > 0 then Trying else InWait])
    case Return(t) =>
      s.(sys := Next(s.sys, Leave(t)), spot := s.spot[t := if s.sys.threads[t].status != STATUS_OK then Free else Trying])
    case Clear(t) => s.(failed := s.owner != Some(t), owner := None, spot := s.spot[t := Releasing])
    case Hand(t) => s.(sys := Next(s.sys, Signal(e)), spot := s.spot[t := Free])
    case Other(a) => s.(sys := Next(s.sys, a))
  }

  // ---------------------------------------------------------------------------
  // The token

  function Handing(spot: map<nat, Spot>): set<nat> {
    set t | t in spot && spot[t] == Releasing
  }

  /** The signal, the owner and the threads between the two halves of a release, counted together. */
  function Tokens(s: State, e: nat): nat
    requires e in s.sys.objects
  {
    s.sys.objects[e].signalcount + (if s.owner == None then 0 else 1) + |Handing(s.spot)|
  }

  ghost predicate Placed(s: State, e: nat, t: nat)
    requires t in s.spot && t in s.sys.threads
  {
    var th := s.sys.threads[t];
    && (s.spot[t] == InWait <==> th.place != Outside && th.waitsOn == e)
    && (s.spot[t] == Trying || s.spot[t] == Turning || s.spot[t] == Releasing ==> th.place == Outside)
    && (s.spot[t] == Holding <==> s.owner == Some(t))
  }

  ghost predicate Safe(s: State, e: nat) {
    && !s.failed && Inv(s.sys)
    && e in s.sys.objects && !s.sys.objects[e].notification
    && s.spot.Keys == s.sys.threads.Keys
    && (forall t :: t in s.spot ==> Placed(s, e, t))
    && (s.owner.Some? ==> s.owner.value in s.spot)
    && Tokens(s, e) <= 1
  }

  lemma {:induction false} HandingAfter(spot: map<nat, Spot>, t: nat, v: Spot)
    ensures Handing(spot[t := v]) == if v == Releasing then Handing(spot) + {t} else Handing(spot) - {t}
  {
  }

  /** Steps of the rest of the system leave the mutex's event alone, and the threads at it up to sleep and timeout. */
  lemma {:induction false} ElsewhereKeeps(s: State, e: nat, a: Action)
    requires Safe(s, e) && Able(s, e, Other(a)) && !Next(s.sys, a).panicked
    ensures var sys := Next(s.sys, a);
            && sys.threads.Keys == s.sys.threads.Keys && e in sys.objects && sys.objects[e] == s.sys.objects[e]
    ensures Safe(Step(s, e, Other(a)), e)
  {
    hide Next, Inv, Enabled;
    StepKeeps(s.sys, a);
    OtherObject(s.sys, a, e);
    var s1 := Step(s, e, Other(a));
    forall t | t in s1.spot ensures Placed(s1, e, t) {
      assert Placed(s, e, t);
      OtherPlace(s.sys, a, e, t);
    }
  }

  /** An action that is not a wait, the end of a wait or a signal on `e`. */
  ghost predicate NotOn(s: System, a: Action, e: nat) {
    && (a.Wait? || a.Signal? || a.Reset? ==> a.event != e)
    && (a.Leave? ==> a.thread in s.threads && s.threads[a.thread].waitsOn != e)
  }

  lemma {:induction false} OtherObject(s: System, a: Action, e: nat)
    requires Inv(s) && Enabled(s, a) && NotOn(s, a, e) && e in s.objects && !Next(s, a).panicked
    ensures Next(s, a).threads.Keys == s.threads.Keys && e in Next(s, a).objects && Next(s, a).objects[e] == s.objects[e]
  {
    hide FirstLive, Inv, Without;
  }

  lemma {:induction false} OtherPlace(s: System, a: Action, e: nat, t: nat)
    requires Inv(s) && Enabled(s, a) && NotOn(s, a, e) && t in s.threads && !Next(s, a).panicked
    ensures t in Next(s, a).threads
    ensures var th, th1 := s.threads[t], Next(s, a).threads[t];
            && (th1.place != Outside && th1.waitsOn == e <==> th.place != Outside && th.waitsOn == e)
            && ((a.Wait? ==> a.thread != t) && th.place == Outside ==> th1.place == Outside)
  {
    hide Inv, Without, Signalled;
    EachThread(s, t);
    if a.Signal? {
      SignalPlaces(s, a.event, t);
    }
  }

  /** A signal moves threads only from sleep to awake. */
  lemma {:induction false} SignalPlaces(s: System, o: nat, t: nat)
    requires Inv(s) && Enabled(s, Signal(o)) && !Signalled(s, o).panicked && t in s.threads
    ensures var s1 := Signalled(s, o);
            && s1.threads.Keys == s.threads.Keys && s1.objects.Keys == s.objects.Keys
            && s1.objects[o].notification == s.objects[o].notification
            && s1.threads[t].waitsOn == s.threads[t].waitsOn
            && (s1.threads[t].place == Outside <==> s.threads[t].place == Outside)
  {
    assert ObjectOk(s, o);
  }

  lemma {:induction false} TryKeeps(s: State, e: nat, t: nat)
    requires Safe(s, e) && Able(s, e, Try(t))
    ensures Safe(Step(s, e, Try(t)), e)
  {
    hide Inv, Handing, Next, Enabled;
    var h := s.sys.objects[e];
    var s1 := Step(s, e, Try(t));
    Among(s.spot, t);
    HandingAfter(s.spot, t, s1.spot[t]);
    if h.signalcount == 1 {
      SignalCount(s.sys, e, 0);
    }
    forall u | u in s1.spot ensures Placed(s1, e, u) {
      TryPlaced(s, e, t, u);
    }
  }

  lemma {:induction false} TryPlaced(s: State, e: nat, t: nat, u: nat)
    requires Safe(s, e) && Able(s, e, Try(t)) && u in s.spot
    ensures u in Step(s, e, Try(t)).spot && u in Step(s, e, Try(t)).sys.threads && Placed(Step(s, e, Try(t)), e, u)
  {
    hide Inv, Handing, Next, Enabled;
    assert Placed(s, e, u) && Placed(s, e, t);
  }

  lemma {:induction false} TurnKeeps(s: State, e: nat, t: nat)
    requires Safe(s, e) && Able(s, e, Turn(t))
    ensures Safe(Step(s, e, Turn(t)), e)
  {
    hide Inv, Next, Waited, Handing;
    WaitKeeps(s.sys, t, e);
    assert Next(s.sys, Wait(t, e)) == Waited(s.sys, t, e) by { WaitIs(s.sys, t, e); }
    WaitPlaces(s.sys, t, e);
    Among(s.spot, t);
    HandingAfter(s.spot, t, Trying);
    HandingAfter(s.spot, t, InWait);
    var s1 := Step(s, e, Turn(t));
    forall u | u in s1.spot ensures Placed(s1, e, u) {
      assert Placed(s, e, u);
    }
  }

  lemma {:induction false} WaitIs(s: System, t: nat, o: nat)
    requires Enabled(s, Wait(t, o))
    ensures Next(s, Wait(t, o)) == Waited(s, t, o)
  {
  }

  /** Whatever the wait returns, the caller does not own the mutex. */
  lemma {:induction false} ReturnKeeps(s: State, e: nat, t: nat)
    requires Safe(s, e) && Able(s, e, Return(t))
    ensures Safe(Step(s, e, Return(t)), e)
    ensures Step(s, e, Return(t)).spot[t] == Free && Step(s, e, Return(t)).owner != Some(t)
  {
    hide Inv, Without;
    LeaveKeeps(s.sys, t);
    HandingAfter(s.spot, t, Free);
    assert ThreadOk(s.sys, t) by { EachThread(s.sys, t); }
    var s1 := Step(s, e, Return(t));
    forall u | u in s1.spot ensures Placed(s1, e, u) {
      assert Placed(s, e, u);
    }
  }

  lemma {:induction false} EachThread(s: System, t: nat)
    requires Inv(s) && t in s.threads
    ensures ThreadOk(s, t)
  {
  }

  lemma {:induction false} HandKeeps(s: State, e: nat, t: nat)
    requires Safe(s, e) && Able(s, e, Hand(t)) && !Step(s, e, Hand(t)).sys.panicked
    ensures Safe(Step(s, e, Hand(t)), e)
  {
    hide Inv, Signalled;
    SignalKeeps(s.sys, e);
    HandingAfter(s.spot, t, Free);
    SignalPlaces(s.sys, e, t);
    var s1 := Step(s, e, Hand(t));
    forall u | u in s1.spot ensures Placed(s1, e, u) {
      assert Placed(s, e, u);
      SignalPlaces(s.sys, e, u);
    }
    assert s1.sys.objects[e].signalcount <= 1 by { EachObject(s1.sys, e); }
    assert t in Handing(s.spot);
  }

  lemma {:induction false} EachObject(s: System, o: nat)
    requires Inv(s) && o in s.objects
    ensures ObjectOk(s, o)
  {
  }

  lemma {:induction false} OwnKeeps(s: State, e: nat, m: Move)
    requires Safe(s, e) && Able(s, e, m) && (m.Acquire? || m.Clear?)
    ensures Safe(Step(s, e, m), e)
  {
    hide Inv, Handing, Next, Enabled;
    var t := m.thread;
    Among(s.spot, t);
    HandingAfter(s.spot, t, if m.Acquire? then Trying else Releasing);
    assert Placed(s, e, t);
    var s1 := Step(s, e, m);
    forall u | u in s1.spot ensures Placed(s1, e, u) {
      OwnPlaced(s, e, m, u);
    }
  }

  lemma {:induction false} OwnPlaced(s: State, e: nat, m: Move, u: nat)
    requires Safe(s, e) && Able(s, e, m) && (m.Acquire? || m.Clear?) && u in s.spot
    ensures u in Step(s, e, m).spot && u in Step(s, e, m).sys.threads && Placed(Step(s, e, m), e, u)
  {
    hide Inv, Handing, Next, Enabled, Tokens;
    assert Placed(s, e, u) && Placed(s, e, m.thread);
  }

  /** Every step keeps the token count at most one, and neither assertion fails. */
  lemma {:induction false} MoveKeeps(s: State, e: nat, m: Move)
    requires Safe(s, e) && Able(s, e, m) && !Step(s, e, m).sys.panicked
    ensures Safe(Step(s, e, m), e)
  {
    hide Safe, Next;
    match m
    case Acquire(t) => OwnKeeps(s, e, m);
    case Try(t) => TryKeeps(s, e, t);
    case Turn(t) => TurnKeeps(s, e, t);
    case Return(t) => ReturnKeeps(s, e, t);
    case Clear(t) => OwnKeeps(s, e, m);
    case Hand(t) => HandKeeps(s, e, t);
    case Other(a) => ElsewhereKeeps(s, e, a);
  }

  // ---------------------------------------------------------------------------
  // Runs

  ghost predicate Plays(s: State, e: nat, moves: seq<Move>, s1: State)
    decreases |moves|
  {
    if moves == [] then s1 == s
    else Able(s, e, moves[0]) && Plays(Step(s, e, moves[0]), e, moves[1..], s1)
  }

  /** `mutex_init` in a system at rest. */
  ghost predicate Fresh(s: State, e: nat) {
    && Initial(s.sys) && e in s.sys.objects && s.sys.objects[e] == Header(false, 1, 0, [])
    && s.owner == None && !s.failed && s.spot.Keys == s.sys.threads.Keys
    && forall t :: t in s.spot ==> s.spot[t] == Free
  }

  lemma {:induction false} FreshSafe(s: State, e: nat)
    requires Fresh(s, e)
    ensures Safe(s, e) && Tokens(s, e) == 1
  {
    forall o | o in s.sys.objects ensures ObjectOk(s.sys, o) { }
    forall t | t in s.sys.threads ensures ThreadOk(s.sys, t) { }
    assert Handing(s.spot) == {};
    forall t | t in s.spot ensures Placed(s, e, t) { }
  }

  lemma {:induction false} PlaysSafe(s: State, e: nat, moves: seq<Move>, s1: State)
    requires Safe(s, e) && Plays(s, e, moves, s1) && !s1.sys.panicked
    ensures Safe(s1, e)
    decreases |moves|
  {
    hide Safe, Step, Able;
    if moves != [] {
      var s2 := Step(s, e, moves[0]);
      if s2.sys.panicked {
        Stopped(s2, e, moves[1..], s1);
      } else {
        MoveKeeps(s, e, moves[0]);
        PlaysSafe(s2, e, moves[1..], s1);
      }
    }
  }

  lemma {:induction false} Stopped(s: State, e: nat, moves: seq<Move>, s1: State)
    requires s.sys.panicked && Plays(s, e, moves, s1)
    ensures s1 == s
  {
  }

  /** In every run from `mutex_init`, at most one thread holds the mutex, and the assertions hold. */
  lemma {:induction false} MutualExclusion(s: State, e: nat, moves: seq<Move>, s1: State, t: nat, u: nat)
    requires Fresh(s, e) && Plays(s, e, moves, s1) && !s1.sys.panicked
    requires t in s1.spot && u in s1.spot && s1.spot[t] == Holding && s1.spot[u] == Holding
    ensures t == u && !s1.failed && s1.owner == Some(t)
  {
    hide Plays, Fresh;
    FreshSafe(s, e);
    PlaysSafe(s, e, moves, s1);
    assert Placed(s1, e, t) && Placed(s1, e, u);
  }

  // ---------------------------------------------------------------------------
  // Where the token goes

  /**
   A step loses the token exactly if a thread that found the mutex taken waits for the event and
   takes the signal itself, or a release signals while somebody is listed.
   */
  lemma {:induction false} TokenLostIff(s: State, e: nat, m: Move)
    requires Safe(s, e) && Able(s, e, m) && !Step(s, e, m).sys.panicked
    ensures e in Step(s, e, m).sys.objects
    ensures Tokens(Step(s, e, m), e)
            == if (m.Turn? && s.sys.objects[e].signalcount > 0) || (m.Hand? && s.sys.objects[e].waitercount > 0)
               then Tokens(s, e) - 1 else Tokens(s, e)
  {
    hide Inv, Next, Handing, Step, Safe, Able, Tokens, Enabled;
    match m
    case Acquire(t) => OwnTokens(s, e, m);
    case Try(t) => OwnTokens(s, e, m);
    case Turn(t) => TurnTokens(s, e, t);
    case Return(t) => ReturnTokens(s, e, t);
    case Clear(t) => OwnTokens(s, e, m);
    case Hand(t) => HandTokens(s, e, t);
    case Other(a) => OtherTokens(s, e, a);
  }

  lemma {:induction false} OwnTokens(s: State, e: nat, m: Move)
    requires Safe(s, e) && Able(s, e, m) && (m.Acquire? || m.Try? || m.Clear?)
    ensures e in Step(s, e, m).sys.objects && Tokens(Step(s, e, m), e) == Tokens(s, e)
  {
    hide Inv, Next, Handing;
    var t := m.thread;
    Among(s.spot, t);
    HandingAfter(s.spot, t, Step(s, e, m).spot[t]);
    assert Placed(s, e, t);
  }

  lemma {:induction false} TurnTokens(s: State, e: nat, t: nat)
    requires Safe(s, e) && Able(s, e, Turn(t))
    ensures e in Step(s, e, Turn(t)).sys.objects
    ensures Tokens(Step(s, e, Turn(t)), e) == if s.sys.objects[e].signalcount > 0 then Tokens(s, e) - 1 else Tokens(s, e)
  {
    hide Inv, Next, Handing;
    Among(s.spot, t);
    HandingAfter(s.spot, t, Step(s, e, Turn(t)).spot[t]);
    WaitPlaces(s.sys, t, e);
  }

  lemma {:induction false} ReturnTokens(s: State, e: nat, t: nat)
    requires Safe(s, e) && Able(s, e, Return(t))
    ensures e in Step(s, e, Return(t)).sys.objects && Tokens(Step(s, e, Return(t)), e) == Tokens(s, e)
  {
    hide Inv, Next, Handing;
    Among(s.spot, t);
    HandingAfter(s.spot, t, Step(s, e, Return(t)).spot[t]);
    LeaveCount(s.sys, t, e);
  }

  lemma {:induction false} HandTokens(s: State, e: nat, t: nat)
    requires Safe(s, e) && Able(s, e, Hand(t))
    ensures e in Step(s, e, Hand(t)).sys.objects
    ensures Tokens(Step(s, e, Hand(t)), e) == if s.sys.objects[e].waitercount > 0 then Tokens(s, e) - 1 else Tokens(s, e)
  {
    hide Inv, Next, Handing;
    Among(s.spot, t);
    HandingAfter(s.spot, t, Free);
    assert |Handing(s.spot)| >= 1;
    SatisfyCount(s.sys, e);
  }

  lemma {:induction false} OtherTokens(s: State, e: nat, a: Action)
    requires Safe(s, e) && Able(s, e, Other(a)) && !Step(s, e, Other(a)).sys.panicked
    ensures e in Step(s, e, Other(a)).sys.objects && Tokens(Step(s, e, Other(a)), e) == Tokens(s, e)
  {
    hide Inv, Next, Handing, Safe, Elsewhere, Enabled;
    ElsewhereKeeps(s, e, a);
  }

  lemma {:induction false} Among(spot: map<nat, Spot>, t: nat)
    ensures t in Handing(spot) <==> t in spot && spot[t] == Releasing
  {
  }

  /** Joining the list or taking the signal concerns one thread and one event. */
  lemma {:induction false} WaitPlaces(s: System, t: nat, o: nat)
    requires Enabled(s, Wait(t, o)) && !s.objects[o].notification
    ensures var s1 := Next(s, Wait(t, o)); var n := s.objects[o].signalcount;
            && !s1.panicked && t in s1.threads && o in s1.objects
            && !s1.objects[o].notification && s1.objects[o].signalcount == (if n > 0 then n - 1 else n)
            && s1.threads == s.threads[t := s1.threads[t]] && s1.threads[t].waitsOn == o
            && (s1.threads[t].place == Outside <==> n > 0)
  {
  }

  lemma {:induction false} LeaveCount(s: System, t: nat, o: nat)
    requires Inv(s) && Enabled(s, Leave(t)) && o in s.objects
    ensures var s1 := Next(s, Leave(t)); o in s1.objects && s1.objects[o].signalcount == s.objects[o].signalcount
  {
    hide Without;
  }

  /** A signal of a synchronisation event is kept only if nobody is listed. */
  lemma {:induction false} SatisfyCount(s: System, o: nat)
    requires Enabled(s, Signal(o)) && !s.objects[o].notification && s.objects[o].signalcount == 0
    ensures var s1 := Next(s, Signal(o));
            o in s1.objects && s1.objects[o].signalcount == if s.objects[o].waitercount > 0 then 0 else 1
  {
    hide Caught, FirstLive, AllPopped;
  }

  /** Once the token is lost, no run brings it back: the mutex is never held again. */
  lemma {:induction false} LostForGood(s: State, e: nat, moves: seq<Move>, s1: State)
    requires Safe(s, e) && Tokens(s, e) == 0 && Plays(s, e, moves, s1) && !s1.sys.panicked
    ensures Safe(s1, e) && Tokens(s1, e) == 0
    ensures forall t :: t in s1.spot ==> s1.spot[t] != Holding
    decreases |moves|
  {
    hide Step, Able;
    if moves == [] {
      forall t | t in s1.spot ensures s1.spot[t] != Holding {
        assert Placed(s1, e, t);
      }
    } else {
      var s2 := Step(s, e, moves[0]);
      if s2.sys.panicked {
        Stopped(s2, e, moves[1..], s1);
      } else {
        MoveKeeps(s, e, moves[0]);
        TokenLostIff(s, e, moves[0]);
        LostForGood(s2, e, moves[1..], s1);
      }
    }
  }

  /** While nobody waits for the mutex, the token stays. */
  lemma {:induction false} UncontendedKeepsToken(s: State, e: nat, moves: seq<Move>, s1: State)
    requires Safe(s, e) && Tokens(s, e) == 1 && Plays(s, e, moves, s1) && !s1.sys.panicked
    requires s.sys.objects[e].waitercount == 0 && forall i :: 0 <= i < |moves| ==> !moves[i].Turn?
    ensures Safe(s1, e) && Tokens(s1, e) == 1
    decreases |moves|
  {
    hide Step, Able, Tokens, Inv;
    if moves != [] {
      var s2, rest := Step(s, e, moves[0]), moves[1..];
      if s2.sys.panicked {
        Stopped(s2, e, rest, s1);
      } else {
        MoveKeeps(s, e, moves[0]);
        TokenLostIff(s, e, moves[0]);
        StillUncontended(s, e, moves[0]);
        assert forall i :: 0 <= i < |rest| ==> rest[i] == moves[i + 1];
        UncontendedKeepsToken(s2, e, rest, s1);
      }
    }
  }

  lemma {:induction false} StillUncontended(s: State, e: nat, m: Move)
    requires Safe(s, e) && Able(s, e, m) && !Step(s, e, m).sys.panicked && !m.Turn? && s.sys.objects[e].waitercount == 0
    ensures e in Step(s, e, m).sys.objects && Step(s, e, m).sys.objects[e].waitercount == 0
  {
    hide Inv, Satisfied, Without;
    if m.Other? {
      ElsewhereKeeps(s, e, m.action);
    } else if m.Return? {
      LeaveKeeps(s.sys, m.thread);
      EachObject(s.sys, e);
      assert Placed(s, e, m.thread);
      EachThread(s.sys, m.thread);
    }
  }

  // A system of two threads and the mutex's event, with no wait under way.

  const THREAD := Thread(Outside, 0, 0, false, false, 0, 0)

  function Two(count: nat, owner: Option<nat>, spot1: Spot, spot2: Spot): State {
    State(System(map[1 := THREAD, 2 := THREAD], map[0 := Header(false, count, 0, [])], false),
          owner, map[1 := spot1, 2 := spot2], false)
  }

  lemma {:induction false} FirstTakes(spot2: Spot)
    ensures var s := Two(1, None, Trying, spot2); Able(s, 0, Try(1)) && Step(s, 0, Try(1)) == Two(0, Some(1), Holding, spot2)
  {
  }

  lemma {:induction false} SecondFails()
    ensures var s := Two(0, Some(1), Holding, Trying);
            Able(s, 0, Try(2)) && Step(s, 0, Try(2)) == Two(0, Some(1), Holding, Turning)
  {
  }

  lemma {:induction false} FirstClears()
    ensures var s := Two(0, Some(1), Holding, Turning);
            Able(s, 0, Clear(1)) && Step(s, 0, Clear(1)) == Two(0, None, Releasing, Turning)
  {
  }

  lemma {:induction false} FirstSignals()
    ensures var s := Two(0, None, Releasing, Turning);
            Able(s, 0, Hand(1)) && Step(s, 0, Hand(1)) == Two(1, None, Free, Turning)
  {
    hide Satisfied;
  }

  lemma {:induction false} SecondTakesSignal()
    ensures var s := Two(1, None, Free, Turning);
            Able(s, 0, Turn(2)) && Step(s, 0, Turn(2)) == Two(0, None, Free, Trying)
  {
  }

  /** With two threads it can be lost: the second finds the mutex taken, and its wait takes the signal of the release. */
  lemma {:induction false} TokenCanBeLost()
    ensures exists s, e, moves, s1 :: Fresh(s, e) && Plays(s, e, moves, s1) && e in s1.sys.objects && Tokens(s1, e) == 0
  {
    hide Plays, Two, Step, Able, Fresh, Tokens;
    Wasted();
    Ends();
  }

  /** The second thread takes the signal of the first and goes back to trying. */
  lemma {:induction false} Wasted()
    ensures var moves := [Acquire(1), Try(1), Acquire(2), Try(2), Clear(1), Hand(1), Turn(2)];
            Plays(Two(1, None, Free, Free), 0, moves, Two(0, None, Free, Trying))
  {
    hide Plays, Two, Step, Able;
    var s1, s2, s3 := Two(1, None, Trying, Free), Two(0, Some(1), Holding, Free), Two(0, Some(1), Holding, Trying);
    var moves := [Acquire(1), Try(1), Acquire(2), Try(2), Clear(1), Hand(1), Turn(2)];
    Begins(1, None, Free, Free, 1);
    FirstTakes(Free);
    Begins(0, Some(1), Holding, Free, 2);
    WastedEnd(moves);
    var s7 := Two(0, None, Free, Trying);
    One(s2, moves, 2, s3, s7);
    One(s1, moves, 1, s2, s7);
    One(Two(1, None, Free, Free), moves, 0, s1, s7);
    assert moves[0..] == moves;
  }

  lemma {:induction false} WastedEnd(moves: seq<Move>)
    requires |moves| == 7 && moves[3] == Try(2) && moves[4] == Clear(1) && moves[5] == Hand(1) && moves[6] == Turn(2)
    ensures Plays(Two(0, Some(1), Holding, Trying), 0, moves[3..], Two(0, None, Free, Trying))
  {
    hide Plays, Two, Step, Able;
    var s4, s5, s6 := Two(0, Some(1), Holding, Turning), Two(0, None, Releasing, Turning), Two(1, None, Free, Turning);
    var s7 := Two(0, None, Free, Trying);
    SecondFails();
    FirstClears();
    FirstSignals();
    SecondTakesSignal();
    Stays(s7, 0);
    assert moves[7..] == [];
    One(s6, moves, 6, s7, s7);
    One(s5, moves, 5, s6, s7);
    One(s4, moves, 4, s5, s7);
    One(Two(0, Some(1), Holding, Trying), moves, 3, s4, s7);
  }

  lemma {:induction false} Ends()
    ensures Fresh(Two(1, None, Free, Free), 0)
    ensures var s := Two(0, None, Free, Trying); 0 in s.sys.objects && Tokens(s, 0) == 0
  {
    assert Handing(Two(0, None, Free, Trying).spot) == {};
  }

  lemma {:induction false} Begins(count: nat, owner: Option<nat>, spot1: Spot, spot2: Spot, t: nat)
    requires (t == 1 && spot1 == Free) || (t == 2 && spot2 == Free)
    ensures var s := Two(count, owner, spot1, spot2);
            && Able(s, 0, Acquire(t))
            && Step(s, 0, Acquire(t)) == if t == 1 then Two(count, owner, Trying, spot2) else Two(count, owner, spot1, Trying)
  {
  }

  lemma {:induction false} Stays(s: State, e: nat)
    ensures Plays(s, e, [], s)
  {
  }

  lemma {:induction false} One(s: State, moves: seq<Move>, i: nat, next: State, s1: State)
    requires i < |moves| && Able(s, 0, moves[i]) && next == Step(s, 0, moves[i]) && Plays(next, 0, moves[i + 1..], s1)
    ensures Plays(s, 0, moves[i..], s1)
  {
    assert moves[i..][0] == moves[i] && moves[i..][1..] == moves[i + 1..];
  }
}
