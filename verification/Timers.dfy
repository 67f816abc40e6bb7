/**
 Timers and the engines that fire them. An engine's heap is a set of timers from which the one
 with the least deadline is taken. Clock readings and what the callbacks do are given from
 outside; the log is a history kept for the proofs.
 */
module Timers {
  import opened Word64

  /** UINT64_MAX. */
  const NEVER: nat := TWO64 - 1

  datatype TimerState = Unused | Fired | Queued | Canceled

  datatype Timer = Timer(state: TimerState, deadline: nat, engine: Option<nat>)

  /** An engine's heap, the deadline it last announced, and what it armed the hardware with. */
  datatype Engine = Engine(heap: set<nat>, next: nat, armed: nat)

  datatype Event =
    | Installed(timer: nat, deadline: nat, engine: nat)
    | Fire(timer: nat, deadline: nat, engine: nat, reading: nat)
    | Cancel(timer: nat)

  /** What a callback, or anybody else in between, may ask for. */
  datatype Request = DoSet(timer: nat, deadline: nat) | DoInstall(timer: nat, engine: nat) | DoUninstall(timer: nat)

  datatype World = World(timers: map<nat, Timer>, engines: map<nat, Engine>)

  // ---------------------------------------------------------------------------
  // The history

  /** The deadline and engine a timer waits for according to the history. */
  ghost function Pending(log: seq<Event>, t: nat): Option<(nat, nat)> {
    if log == [] then None
    else
      var e := log[|log| - 1];
      if e.timer != t then Pending(log[..|log| - 1], t)
      else if e.Installed? then Some((e.deadline, e.engine))
      else None
  }

  /** An event that may follow a history. */
  ghost predicate Allowed(log: seq<Event>, e: Event) {
    match e
    case Installed(t, d, c) => Pending(log, t) == None
    case Cancel(t) => Pending(log, t) != None
    case Fire(t, d, c, now) =>
      && Pending(log, t) == Some((d, c)) && d <= now
      && forall u :: Pending(log, u).Some? && Pending(log, u).value.1 == c ==> d <= Pending(log, u).value.0
  }

  /**
   Installations alternate with firings and cancellations. A timer fires at the deadline it was
   installed with, not before it, and not before another of its engine with an earlier one.
   */
  ghost predicate Proper(log: seq<Event>) {
    forall i :: 0 <= i < |log| ==> Allowed(log[..i], log[i])
  }

  ghost predicate TimerOk(w: World, log: seq<Event>, t: nat)
    requires t in w.timers
  {
    var tm := w.timers[t];
    && (tm.state == Queued <==> tm.engine.Some?)
    && (tm.engine.Some? ==> tm.engine.value in w.engines && t in w.engines[tm.engine.value].heap)
    && Pending(log, t) == if tm.engine.Some? then Some((tm.deadline, tm.engine.value)) else None
  }

  /** A timer is queued exactly if it has an engine, and then it is in that engine's heap and no other. */
  ghost predicate Ok(w: World, log: seq<Event>) {
    && Proper(log)
    && (forall t :: t in w.timers ==> TimerOk(w, log, t))
    && (forall t :: t !in w.timers ==> Pending(log, t) == None)
    && (forall c, t :: c in w.engines && t in w.engines[c].heap ==> t in w.timers && w.timers[t].engine == Some(c))
  }

  ghost function Queue(w: World, t: nat, c: nat): World
    requires t in w.timers && c in w.engines
  {
    var e := w.engines[c];
    World(w.timers[t := w.timers[t].(engine := Some(c), state := Queued)],
          w.engines[c := e.(heap := e.heap + {t})])
  }

  /** Off its heap, and in another state. */
  ghost function Dequeue(w: World, t: nat, c: nat, state: TimerState): World
    requires t in w.timers && c in w.engines
  {
    var e := w.engines[c];
    World(w.timers[t := w.timers[t].(engine := None, state := state)], w.engines[c := e.(heap := e.heap - {t})])
  }

  /** A cancelled timer, queued or not. */
  ghost function Uninstalled(w: World, t: nat): World
    requires t in w.timers && (w.timers[t].engine.Some? ==> w.timers[t].engine.value in w.engines)
  {
    if w.timers[t].engine.Some? then Dequeue(w, t, w.timers[t].engine.value, Canceled)
    else w.(timers := w.timers[t := w.timers[t].(state := Canceled)])
  }

  lemma {:induction false} LogMore(log: seq<Event>, e: Event)
    requires Proper(log) && Allowed(log, e)
    ensures Proper(log + [e])
    ensures forall t :: Pending(log + [e], t)
                        == if t != e.timer then Pending(log, t) else if e.Installed? then Some((e.deadline, e.engine)) else None
  {
    hide Allowed;
    var more := log + [e];
    assert more[..|log|] == log;
    forall i | 0 <= i < |more| ensures Allowed(more[..i], more[i]) {
      if i < |log| {
        assert more[..i] == log[..i];
      }
    }
  }

  lemma {:induction false} QueueOk(w: World, log: seq<Event>, t: nat, c: nat)
    requires Ok(w, log) && t in w.timers && c in w.engines && w.timers[t].engine == None
    ensures Ok(Queue(w, t, c), log + [Installed(t, w.timers[t].deadline, c)])
  {
    hide Pending, Proper;
    assert TimerOk(w, log, t);
    LogMore(log, Installed(t, w.timers[t].deadline, c));
    var w1, more := Queue(w, t, c), log + [Installed(t, w.timers[t].deadline, c)];
    forall u | u in w1.timers ensures TimerOk(w1, more, u) {
      assert TimerOk(w, log, u);
    }
  }

  lemma {:induction false} CancelOk(w: World, log: seq<Event>, t: nat, c: nat)
    requires Ok(w, log) && t in w.timers && w.timers[t].engine == Some(c) && c in w.engines
    ensures Ok(Dequeue(w, t, c, Canceled), log + [Cancel(t)])
  {
    hide Pending, Proper;
    assert TimerOk(w, log, t);
    LogMore(log, Cancel(t));
    var w1, more := Dequeue(w, t, c, Canceled), log + [Cancel(t)];
    forall u | u in w1.timers ensures TimerOk(w1, more, u) {
      assert TimerOk(w, log, u);
    }
  }

  lemma {:induction false} FireOk(w: World, log: seq<Event>, t: nat, c: nat, now: nat)
    requires Ok(w, log) && c in w.engines && t in w.engines[c].heap
    requires (forall u :: u in w.engines[c].heap ==> u in w.timers) && t in w.timers && w.timers[t].deadline <= now
    requires forall u :: u in w.engines[c].heap ==> w.timers[t].deadline <= w.timers[u].deadline
    ensures Ok(Dequeue(w, t, c, Fired), log + [Fire(t, w.timers[t].deadline, c, now)])
  {
    hide Pending, Proper;
    var d := w.timers[t].deadline;
    assert TimerOk(w, log, t);
    forall u | Pending(log, u).Some? && Pending(log, u).value.1 == c ensures d <= Pending(log, u).value.0 {
      assert u in w.timers && TimerOk(w, log, u);
    }
    LogMore(log, Fire(t, d, c, now));
    var w1, more := Dequeue(w, t, c, Fired), log + [Fire(t, d, c, now)];
    forall u | u in w1.timers ensures TimerOk(w1, more, u) {
      assert TimerOk(w, log, u);
    }
  }

  /** Fields that queueing does not depend on. */
  lemma {:induction false} SameQueues(w: World, w1: World, log: seq<Event>)
    requires Ok(w, log) && w1.timers.Keys == w.timers.Keys && w1.engines.Keys == w.engines.Keys
    requires forall c :: c in w.engines ==> w1.engines[c].heap == w.engines[c].heap
    requires forall t :: t in w.timers ==>
               && w1.timers[t].engine == w.timers[t].engine
               && (w1.timers[t].state == Queued <==> w.timers[t].state == Queued)
               && (w.timers[t].engine.Some? ==> w1.timers[t].deadline == w.timers[t].deadline)
    ensures Ok(w1, log)
  {
    hide Pending, Proper;
    forall t | t in w1.timers ensures TimerOk(w1, log, t) {
      assert TimerOk(w, log, t);
    }
  }

  lemma {:induction false} LeastDeadline(timers: map<nat, Timer>, heap: set<nat>) returns (root: nat)
    requires heap != {} && forall t :: t in heap ==> t in timers
    ensures root in heap && forall u :: u in heap ==> timers[root].deadline <= timers[u].deadline
  {
    var t :| t in heap;
    root := t;
    if heap != {t} {
      var rest := heap - {t};
      assert heap == rest + {t};
      assert rest != {};
      var r := LeastDeadline(timers, rest);
      root := if timers[r].deadline < timers[t].deadline then r else t;
    }
  }

  class Clockwork {
    var timers: map<nat, Timer>
    var engines: map<nat, Engine>
    ghost var log: seq<Event>

    ghost function Now(): World
      reads this
    {
      World(timers, engines)
    }

    ghost predicate Valid()
      reads this
    {
      Ok(Now(), log)
    }

    constructor (timers: map<nat, Timer>, engines: map<nat, Engine>)
      requires forall t :: t in timers ==> timers[t].engine == None && timers[t].state == Unused
      requires forall c :: c in engines ==> engines[c].heap == {}
      ensures Valid() && log == [] && this.timers == timers && this.engines == engines
    {
      this.timers, this.engines, log := timers, engines, [];
      new;
      forall t | t in timers ensures TimerOk(Now(), log, t) { }
    }

    /** `timer_uninstall`. */
    method Uninstall(t: nat)
      requires Valid() && t in timers
      modifies this
      ensures Valid() && timers.Keys == old(timers.Keys) && engines.Keys == old(engines.Keys)
      ensures (old(timers[t]).engine.Some? ==> old(timers[t]).engine.value in old(engines)) && Now() == Uninstalled(old(Now()), t)
      ensures timers[t] == old(timers[t]).(engine := None, state := Canceled)
      ensures log == old(log) + if old(timers[t].engine).Some? then [Cancel(t)] else []
    {
      hide Ok;
      var tm := timers[t];
      if tm.engine.Some? {
        var c := tm.engine.value;
        HasEngine(Now(), log, t);
        CancelOk(Now(), log, t, c);
        engines := engines[c := engines[c].(heap := engines[c].heap - {t})];
        timers := timers[t := tm.(engine := None, state := Canceled)];
        log := log + [Cancel(t)];
      } else {
        HasEngine(Now(), log, t);
        SameQueues(Now(), World(timers[t := tm.(state := Canceled)], engines), log);
        timers := timers[t := tm.(state := Canceled)];
        assert old(log) + [] == old(log);
      }
    }

    /** `timer_set`: a queued timer is cancelled before its deadline changes. */
    method Set(t: nat, deadline: nat)
      requires Valid() && t in timers
      modifies this
      ensures Valid() && timers.Keys == old(timers.Keys) && engines.Keys == old(engines.Keys)
      ensures timers[t].deadline == deadline && timers[t].engine == None
      ensures forall u :: u in timers && u != t ==> timers[u] == old(timers[u])
      ensures forall c :: c in engines ==> engines[c] == old(engines[c]).(heap := old(engines[c]).heap - {t})
      ensures log == old(log) + if old(timers[t].state) == Queued then [Cancel(t)] else []
    {
      hide Ok;
      HasEngine(Now(), log, t);
      OnOneHeap(Now(), log, t);
      assert old(log) + [] == old(log);
      if timers[t].state == Queued {
        Uninstall(t);
      }
      HasEngine(Now(), log, t);
      SameQueues(Now(), World(timers[t := timers[t].(deadline := deadline)], engines), log);
      timers := timers[t := timers[t].(deadline := deadline)];
    }

    /** `timer_install` on the current processor's engine. */
    method Install(t: nat, c: nat)
      requires Valid() && t in timers && c in engines && timers[t].state != Queued
      modifies this
      ensures Valid() && timers.Keys == old(timers.Keys) && engines.Keys == old(engines.Keys)
      ensures Now() == Queue(old(Now()), t, c) && log == old(log) + [Installed(t, timers[t].deadline, c)]
    {
      hide Ok;
      HasEngine(Now(), log, t);
      QueueOk(Now(), log, t, c);
      log := log + [Installed(t, timers[t].deadline, c)];
      timers := timers[t := timers[t].(engine := Some(c), state := Queued)];
      engines := engines[c := engines[c].(heap := engines[c].heap + {t})];
    }

    /**
     A callback's requests. A request to install a queued timer, or one about a timer or an engine
     that does not exist, fails and ends the run; nothing else does.
     */
    method Serve(calls: seq<Request>) returns (ok: bool)
      requires Valid()
      modifies this
      ensures Valid() && timers.Keys == old(timers.Keys) && engines.Keys == old(engines.Keys) && old(log) <= log
      ensures calls == [] ==> ok && log == old(log) && Now() == old(Now())
      ensures !ok ==> OneRefused(Now(), calls)
      ensures forall c :: Readings(log, c) == Readings(old(log), c)
    {
      hide Ok, Readings;
      ok := true;
      var i := 0;
      while i < |calls|
        invariant i <= |calls| && Valid() && timers.Keys == old(timers.Keys) && engines.Keys == old(engines.Keys) && old(log) <= log
        invariant i == 0 ==> log == old(log) && Now() == old(Now())
        invariant forall c :: Readings(log, c) == Readings(old(log), c)
      {
        var r := calls[i];
        if r.timer !in timers || (r.DoInstall? && (r.engine !in engines || timers[r.timer].state == Queued)) {
          return false;
        }
        ghost var was := log;
        match r {
          case DoSet(t, d) => Set(t, d);
          case DoInstall(t, c) => Install(t, c);
          case DoUninstall(t) => Uninstall(t);
        }
        forall c ensures Readings(log, c) == Readings(was, c) {
          NoReading(was, log, c);
        }
        i := i + 1;
      }
    }

    /**
     `time_engine_progress`, with what the clock shows each time it is read and what the callback
     of each timer that fires asks for. Every reading but the last fires a timer. `Returned`: every
     timer left on the engine has its deadline after the last reading, the engine announces the
     least of them and the hardware is armed with it, or with 0 if there is none. `Reading`: each
     of the readings fired a timer and the next one is awaited. `Refusal`: the callback of the timer
     that fired last failed.
     */
    method Progress(c: nat, clock: seq<nat>, calls: seq<seq<Request>>) returns (r: Outcome, n: nat)
      requires Valid() && c in engines && |calls| == |clock|
      modifies this
      ensures Valid() && timers.Keys == old(timers.Keys) && engines.Keys == old(engines.Keys) && old(log) <= log
      ensures n <= |clock| && Readings(log, c) == Readings(old(log), c) + clock[..n]
      ensures r.Returned? ==>
                && n < |clock| && (forall t :: t in timers && timers[t].engine == Some(c) ==> clock[n] < timers[t].deadline)
                && IsNext(timers, engines[c].heap, engines[c].next)
                && engines[c].armed == if engines[c].heap == {} then 0 else engines[c].next
      ensures r.Reading? ==> n == |clock|
      ensures r.Refusal? ==> 0 < n && OneRefused(Now(), calls[n - 1])
      ensures Silent(calls) && Rising(clock) && r.Returned? ==>
                engines[c].heap == set t | t in old(engines[c].heap) && t in old(timers) && old(timers[t].deadline) > clock[n]
      ensures Silent(calls) ==> forall d :: d in engines && d != c ==> engines[d] == old(engines[d])
    {
      hide Ok, Readings, IsNext, Served, OneRefused, Dequeue;
      n := 0;
      assert clock[..0] == [] && Readings(log, c) + [] == Readings(log, c);
      NoneServed(Now(), log, c);
      while n < |clock|
        invariant n <= |clock| && Valid()
        invariant timers.Keys == old(timers.Keys) && engines.Keys == old(engines.Keys) && old(log) <= log
        invariant Readings(log, c) == Readings(old(log), c) + clock[..n]
        invariant Silent(calls) ==> Served(old(Now()), Now(), c, clock[..n])
      {
        ghost var w, was := Now(), log;
        var fired, root := Turn(c, clock[n]);
        if !fired {
          if Silent(calls) {
            OnlyAnnounced(old(Now()), w, Now(), c, clock[..n]);
            if Rising(clock) { AllDue(old(Now()), Now(), c, clock, n); }
            OtherEngines(old(Now()), Now(), c, clock[..n]);
          }
          return Returned, n;
        }
        OneReading(was, c, root, w.timers[root].deadline, clock[n]);
        MoreReadings(Readings(old(log), c), clock, n);
        if Silent(calls) { OneServed(old(Now()), w, Now(), c, clock[..n], root, clock[n]); }
        n := n + 1;
        var ok := Serve(calls[n - 1]);
        if !ok {
          return Refusal, n;
        }
      }
      r := Reading;
      if Silent(calls) { OtherEngines(old(Now()), Now(), c, clock[..n]); }
    }

    /** One turn of the loop: the first timer fires if it is due; otherwise the engine is armed for it. */
    method Turn(c: nat, now: nat) returns (fired: bool, root: nat)
      requires Valid() && c in engines
      modifies this
      ensures Valid() && timers.Keys == old(timers.Keys) && engines.Keys == old(engines.Keys)
      ensures !fired ==>
                && log == old(log) && timers == old(timers)
                && engines == old(engines)[c := old(engines[c]).(next := engines[c].next, armed := engines[c].armed)]
                && (forall t :: t in engines[c].heap ==> t in timers && now < timers[t].deadline)
                && (forall t :: t in timers && timers[t].engine == Some(c) ==> now < timers[t].deadline)
                && IsNext(timers, engines[c].heap, engines[c].next)
                && engines[c].armed == if engines[c].heap == {} then 0 else engines[c].next
      ensures fired ==>
                && root in old(timers) && root in old(engines[c].heap) && old(timers)[root].deadline <= now
                && Now() == Dequeue(old(Now()), root, c, Fired)
                && log == old(log) + [Fire(root, old(timers)[root].deadline, c, now)]
    {
      hide Ok, IsNext;
      var e := engines[c];
      HeapOk(Now(), log, c);
      if e.heap == {} {
        Announce(c, NEVER, 0);
        NothingNext(timers);
        return false, 0;
      }
      ghost var least := LeastDeadline(timers, e.heap);
      root :| root in e.heap && forall u :: u in e.heap ==> timers[root].deadline <= timers[u].deadline;
      if timers[root].deadline > now {
        Announce(c, timers[root].deadline, timers[root].deadline);
        LeastNext(timers, e.heap, root);
        return false, root;
      }
      Expire(root, c, now);
      fired := true;
    }

    /** `next_deadline` and the hardware timer. */
    method Announce(c: nat, next: nat, armed: nat)
      requires Valid() && c in engines
      modifies this`engines
      ensures Valid() && engines == old(engines)[c := old(engines[c]).(next := next, armed := armed)]
    {
      hide Ok;
      SameQueues(Now(), World(timers, engines[c := engines[c].(next := next, armed := armed)]), log);
      engines := engines[c := engines[c].(next := next, armed := armed)];
    }

    /** The root leaves the heap and has fired. */
    method Expire(root: nat, c: nat, now: nat)
      requires Valid() && c in engines && root in engines[c].heap && root in timers && timers[root].deadline <= now
      requires (forall u :: u in engines[c].heap ==> u in timers)
      requires forall u :: u in engines[c].heap ==> timers[root].deadline <= timers[u].deadline
      modifies this
      ensures Valid() && Now() == Dequeue(old(Now()), root, c, Fired)
      ensures log == old(log) + [Fire(root, old(timers[root].deadline), c, now)]
    {
      hide Ok;
      FireOk(Now(), log, root, c, now);
      log := log + [Fire(root, timers[root].deadline, c, now)];
      engines := engines[c := engines[c].(heap := engines[c].heap - {root})];
      timers := timers[root := timers[root].(engine := None, state := Fired)];
    }
  }

  /** How `time_engine_progress` ends: it returns, or waits for the clock, or a callback fails. */
  datatype Outcome = Returned | Reading | Refusal

  /** A request that fails: about something that does not exist, or the installation of a queued timer. */
  ghost predicate Refused(w: World, r: Request) {
    r.timer !in w.timers || (r.DoInstall? && (r.engine !in w.engines || w.timers[r.timer].state == Queued))
  }

  ghost predicate OneRefused(w: World, calls: seq<Request>) {
    exists i :: 0 <= i < |calls| && Refused(w, calls[i])
  }

  /** The readings at which timers of the engine fired, in order. */
  ghost function Readings(log: seq<Event>, c: nat): seq<nat> {
    if log == [] then []
    else
      var e := log[|log| - 1];
      Readings(log[..|log| - 1], c) + if e.Fire? && e.engine == c then [e.reading] else []
  }

  lemma {:induction false} OneReading(log: seq<Event>, c: nat, t: nat, d: nat, now: nat)
    ensures Readings(log + [Fire(t, d, c, now)], c) == Readings(log, c) + [now]
  {
    assert (log + [Fire(t, d, c, now)])[..|log|] == log;
  }

  /** Installations and cancellations are not firings. */
  lemma {:induction false} NoReading(log: seq<Event>, more: seq<Event>, c: nat)
    requires more == log || (|more| == |log| + 1 && more[..|log|] == log && !more[|log|].Fire?)
    ensures Readings(more, c) == Readings(log, c)
  {
  }

  ghost predicate Silent(calls: seq<seq<Request>>) {
    forall i :: 0 <= i < |calls| ==> calls[i] == []
  }

  ghost predicate Rising(clock: seq<nat>) {
    forall i, j :: 0 <= i < j < |clock| ==> clock[i] <= clock[j]
  }

  /** Only timers due at one of the readings have left the heap, and nothing else has changed on any heap. */
  ghost predicate Served(w: World, w1: World, c: nat, readings: seq<nat>)
    requires c in w.engines && c in w1.engines
  {
    && w1.engines[c].heap <= w.engines[c].heap
    && (forall t :: t in w.engines[c].heap && t !in w1.engines[c].heap ==>
          t in w.timers && exists i :: 0 <= i < |readings| && w.timers[t].deadline <= readings[i])
    && (forall t :: t in w1.engines[c].heap ==> t in w.timers && t in w1.timers && w1.timers[t].deadline == w.timers[t].deadline)
    && (forall d :: d in w.engines && d != c ==> d in w1.engines && w1.engines[d] == w.engines[d])
  }

  lemma {:induction false} NoneServed(w: World, log: seq<Event>, c: nat)
    requires Ok(w, log) && c in w.engines
    ensures Served(w, w, c, [])
  {
    hide Ok;
    HeapOk(w, log, c);
  }

  lemma {:induction false} OnlyAnnounced(w: World, w1: World, w2: World, c: nat, readings: seq<nat>)
    requires c in w.engines && c in w1.engines && Served(w, w1, c, readings) && w2.timers == w1.timers && c in w2.engines
    requires w2.engines == w1.engines[c := w2.engines[c]] && w2.engines[c].heap == w1.engines[c].heap
    ensures Served(w, w2, c, readings)
  {
  }

  lemma {:induction false} OtherEngines(w: World, w1: World, c: nat, readings: seq<nat>)
    requires c in w.engines && c in w1.engines && Served(w, w1, c, readings)
    ensures forall d :: d in w.engines && d != c ==> d in w1.engines && w1.engines[d] == w.engines[d]
  {
  }

  lemma {:induction false} MoreReadings(before: seq<nat>, clock: seq<nat>, n: nat)
    requires n < |clock|
    ensures before + clock[..n] + [clock[n]] == before + clock[..n + 1] && clock[..n] + [clock[n]] == clock[..n + 1]
  {
    assert clock[..n + 1] == clock[..n] + [clock[n]];
  }

  lemma {:induction false} OneServed(w: World, w1: World, w2: World, c: nat, readings: seq<nat>, root: nat, now: nat)
    requires c in w.engines && c in w1.engines && root in w1.timers && root in w1.engines[c].heap && Served(w, w1, c, readings)
    requires w2 == Dequeue(w1, root, c, Fired) && w1.timers[root].deadline <= now
    ensures Served(w, w2, c, readings + [now])
  {
    var more := readings + [now];
    forall t | t in w.engines[c].heap && t !in w2.engines[c].heap
      ensures t in w.timers && exists i :: 0 <= i < |more| && w.timers[t].deadline <= more[i]
    {
      if t == root {
        assert more[|readings|] == now;
      } else {
        var i :| 0 <= i < |readings| && w.timers[t].deadline <= readings[i];
        assert more[i] == readings[i];
      }
    }
  }

  /** With a clock that does not go back, exactly the timers that are due have fired. */
  lemma {:induction false} AllDue(w: World, w1: World, c: nat, clock: seq<nat>, n: nat)
    requires c in w.engines && c in w1.engines && n < |clock| && Rising(clock) && Served(w, w1, c, clock[..n])
    requires forall t :: t in w1.engines[c].heap ==> t in w1.timers && w1.timers[t].deadline > clock[n]
    ensures w1.engines[c].heap == set t | t in w.engines[c].heap && t in w.timers && w.timers[t].deadline > clock[n]
  {
    forall t | t in w.engines[c].heap && t !in w1.engines[c].heap ensures t in w.timers && w.timers[t].deadline <= clock[n] {
      var i :| 0 <= i < |clock[..n]| && w.timers[t].deadline <= clock[..n][i];
      assert clock[..n][i] == clock[i];
    }
  }

  lemma {:induction false} NothingNext(timers: map<nat, Timer>)
    ensures IsNext(timers, {}, NEVER)
  {
  }

  lemma {:induction false} LeastNext(timers: map<nat, Timer>, heap: set<nat>, root: nat)
    requires root in heap && (forall u :: u in heap ==> u in timers)
    requires forall u :: u in heap ==> timers[root].deadline <= timers[u].deadline
    ensures IsNext(timers, heap, timers[root].deadline)
  {
  }

  /** The least deadline on the heap, or none at all. */
  ghost predicate IsNext(timers: map<nat, Timer>, heap: set<nat>, next: nat) {
    if heap == {} then next == NEVER
    else (forall t :: t in heap ==> t in timers && next <= timers[t].deadline)
         && exists t :: t in heap && t in timers && timers[t].deadline == next
  }

  lemma {:induction false} HasEngine(w: World, log: seq<Event>, t: nat)
    requires Ok(w, log) && t in w.timers
    ensures (w.timers[t].state == Queued <==> w.timers[t].engine.Some?) && (w.timers[t].engine.Some? ==> w.timers[t].engine.value in w.engines)
  {
    assert TimerOk(w, log, t);
  }

  lemma {:induction false} OnOneHeap(w: World, log: seq<Event>, t: nat)
    requires Ok(w, log) && t in w.timers
    ensures forall c :: c in w.engines && w.timers[t].engine != Some(c) ==> w.engines[c].heap - {t} == w.engines[c].heap
  {
    forall c | c in w.engines && w.timers[t].engine != Some(c) ensures w.engines[c].heap - {t} == w.engines[c].heap {
      assert t !in w.engines[c].heap;
    }
  }

  lemma {:induction false} HeapOk(w: World, log: seq<Event>, c: nat)
    requires Ok(w, log) && c in w.engines
    ensures forall t :: t in w.engines[c].heap ==> t in w.timers
    ensures forall t :: t in w.timers && w.timers[t].engine == Some(c) ==> t in w.engines[c].heap
  {
    forall t | t in w.timers && w.timers[t].engine == Some(c) ensures t in w.engines[c].heap {
      assert TimerOk(w, log, t);
    }
  }

  /** In a proper history a timer fires once per installation, with its own deadline, on time. */
  lemma {:induction false} FiresOnce(log: seq<Event>, i: nat, j: nat)
    requires Proper(log) && i < j < |log| && log[i].Fire? && log[j].Fire? && log[i].timer == log[j].timer
    ensures exists k :: i < k < j && log[k] == Installed(log[j].timer, log[j].deadline, log[j].engine)
  {
    assert Allowed(log[..j], log[j]);
    LastInstall(log, i, j, log[i].timer);
  }

  /** A pending timer was installed since it last fired. */
  lemma {:induction false} LastInstall(log: seq<Event>, i: nat, j: nat, t: nat)
    requires i < j <= |log| && log[i].Fire? && log[i].timer == t && Pending(log[..j], t).Some?
    ensures exists k :: i < k < j && log[k] == Installed(t, Pending(log[..j], t).value.0, Pending(log[..j], t).value.1)
    decreases j
  {
    var s := log[..j];
    assert s[|s| - 1] == log[j - 1] && s[..|s| - 1] == log[..j - 1];
    if log[j - 1].timer != t {
      LastInstall(log, i, j - 1, t);
    }
  }
}
