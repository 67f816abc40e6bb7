/**
 Interrupt levels, software interrupts and the queue of deferred procedure calls on one
 processor. Code of threads, procedures and interrupt handlers is arbitrary within the rules of
 the interrupt level; hardware interrupts arrive wherever they are enabled and nest. What the
 kernel itself does in `irql_lower`, `softint_dispatch`, `dpc_interrupt` and `dpc_run_queue`
 is taken apart at the points where an interrupt can come in between.
 */
module Dpc {
  import opened Sequences
  import opened Word64

  const DISPATCH: nat := 2
  const DEVICE: nat := 3

  /** PENDING(IRQL_DISPATCH). */
  const DISPATCH_BIT: nat := 2

  /** A procedure with the contexts of one enqueue. */
  datatype Job = Job(dpc: nat, context1: int, context2: int)

  /** What code belongs to: the thread, a procedure with the contexts it was called with, or an interrupt handler. */
  datatype Kind = Thread | Body(job: Job) | Handler(saved: nat)

  /**
   A call in progress: code that may not go below level `base`; `irql_lower` before its check
   and after it; `softint_dispatch` at its loop, which remembers whether interrupts were on;
   `dpc_run_queue`; and the rest of `dpc_interrupt` after it. `iret` marks the lowering at the
   end of an interrupt, after which interrupts are on again.
   */
  datatype Frame =
    | Code(base: nat, kind: Kind)
    | Lower(level: nat, iret: bool)
    | Enter(level: nat, iret: bool)
    | Loop(level: nat, ints: bool, iret: bool)
    | Drain
    | Drained

  datatype Procedure = Procedure(context1: int, context2: int, enqueued: bool)

  datatype Cpu = Cpu(irql: nat, ints: bool, pending: nat, queue: seq<nat>, count: nat, dpcs: map<nat, Procedure>, stack: seq<Frame>)

  datatype Event =
    | Raise(level: nat)
    | LowerTo(level: nat)
    | Enqueue(dpc: nat, context1: int, context2: int)
    | Finish
    | Interrupt(level: nat)
    | Advance

  function Top(c: Cpu): Frame
    requires c.stack != []
  {
    c.stack[|c.stack| - 1]
  }

  function Under(c: Cpu): seq<Frame>
    requires c.stack != []
  {
    c.stack[..|c.stack| - 1]
  }

  function Push(c: Cpu, f: Frame): Cpu {
    c.(stack := c.stack + [f])
  }

  function Swap(c: Cpu, f: Frame): Cpu
    requires c.stack != []
  {
    c.(stack := Under(c) + [f])
  }

  /** How many dispatches are in progress. */
  function Depth(stack: seq<Frame>): nat {
    if stack == [] then 0
    else Depth(stack[..|stack| - 1]) + if stack[|stack| - 1].Drain? || stack[|stack| - 1].Drained? then 1 else 0
  }

  predicate HeadKnown(c: Cpu) {
    c.queue != [] ==> c.queue[0] in c.dpcs
  }

  predicate Enabled(c: Cpu, e: Event) {
    && c.stack != []
    && match e
       case Raise(l) => Top(c).Code? && c.irql <= l
       case LowerTo(l) => Top(c).Code? && Top(c).base <= l <= c.irql
       case Enqueue(d, _, _) => Top(c).Code? && d in c.dpcs
       case Finish => Top(c).Code? && (Top(c).kind.Handler? || (Top(c).kind.Body? && c.irql == DISPATCH))
       case Interrupt(l) => c.ints && c.irql < l && DEVICE <= l
       case Advance => !Top(c).Code? && HeadKnown(c)
  }

  /** `dpc_enqueue`. A procedure that is queued already is left as it is. */
  function Enqueued(c: Cpu, d: nat, c1: int, c2: int): Cpu
    requires d in c.dpcs
  {
    if c.dpcs[d].enqueued then c
    else c.(dpcs := c.dpcs[d := Procedure(c1, c2, true)], count := c.count + 1, queue := c.queue + [d],
            pending := if (c.pending / 2) % 2 == 1 then c.pending else c.pending + DISPATCH_BIT)
  }

  /** The end of `irql_lower` or of `softint_dispatch`. */
  function Returned(c: Cpu, iret: bool): Cpu
    requires c.stack != []
  {
    c.(stack := Under(c), ints := c.ints || iret)
  }

  /** One turn of `dpc_run_queue`. */
  function Drawn(c: Cpu): Cpu
    requires c.stack != [] && HeadKnown(c)
  {
    if c.queue == [] then Swap(c, Drained)
    else
      var d := c.queue[0];
      var p := c.dpcs[d];
      Push(c.(queue := c.queue[1..], count := if c.count > 0 then c.count - 1 else 0, dpcs := c.dpcs[d := p.(enqueued := false)]),
           Code(DISPATCH, Body(Job(d, p.context1, p.context2))))
  }

  /** One turn of the loop in `softint_dispatch`. */
  function Looped(c: Cpu): Cpu
    requires c.stack != [] && Top(c).Loop?
  {
    var f := Top(c);
    if (c.pending / Pow2(f.level)) % 256 == 0 then Returned(c.(irql := f.level, ints := f.ints), f.iret)
    else if (c.pending / 2) % 2 == 1 then Push(c.(pending := c.pending - DISPATCH_BIT, irql := DISPATCH, ints := true), Drain)
    else c
  }

  function Advanced(c: Cpu): Cpu
    requires c.stack != [] && !Top(c).Code? && HeadKnown(c)
  {
    match Top(c)
    case Lower(l, iret) => if c.pending / Pow2(l) != 0 then Swap(c, Enter(l, iret)) else Returned(c, iret)
    case Enter(l, iret) => Swap(c.(ints := false), Loop(l, c.ints, iret))
    case Loop(_, _, _) => Looped(c)
    case Drain => Drawn(c)
    case Drained => c.(stack := Under(c), ints := false)
  }

  function Next(c: Cpu, e: Event): Cpu
    requires Enabled(c, e)
  {
    match e
    case Raise(l) => c.(irql := l)
    case LowerTo(l) => Push(c.(irql := l), Lower(l, false))
    case Enqueue(d, c1, c2) => Enqueued(c, d, c1, c2)
    case Finish =>
      if Top(c).kind.Body? then c.(stack := Under(c))
      else Swap(c.(irql := Top(c).kind.saved, ints := false), Lower(Top(c).kind.saved, true))
    case Interrupt(l) => Push(c.(irql := l), Code(l, Handler(c.irql)))
    case Advance => Advanced(c)
  }

  // ---------------------------------------------------------------------------
  // The stack

  /** The level a frame never goes below. */
  ghost function Floor(f: Frame): nat {
    match f
    case Code(b, _) => b
    case Lower(l, _) => l
    case Enter(l, _) => l
    case Loop(l, _, _) => l
    case Drain => DISPATCH
    case Drained => DISPATCH
  }

  /** The level at which the frame below continues. */
  ghost function Resumes(f: Frame): nat {
    match f
    case Code(b, k) => if k.Handler? then k.saved else DISPATCH
    case Lower(l, _) => l
    case Enter(l, _) => l
    case Loop(l, _, _) => l
    case Drain => DISPATCH
    case Drained => DISPATCH
  }

  /** A frame can go on at level `l`. */
  ghost predicate Fits(f: Frame, l: nat) {
    match f
    case Code(b, _) => b <= l
    case Lower(k, _) => l == k
    case Enter(k, _) => l == k
    case Loop(_, _, _) => true
    case Drain => l == DISPATCH
    case Drained => l == DISPATCH
  }

  ghost predicate FrameOk(f: Frame) {
    match f
    case Code(b, k) => (k.Body? ==> b == DISPATCH) && (k.Handler? ==> k.saved < b) && (k.Thread? ==> b == 0)
    case Enter(l, _) => l < DISPATCH
    case Loop(l, _, _) => l < DISPATCH
    case _ => true
  }

  ghost predicate Above(f: Frame, g: Frame) {
    && Fits(f, Resumes(g))
    && (g.Drain? || g.Drained? <==> f.Loop?)
    && (g.Code? && g.kind.Body? ==> f.Drain?)
    && !(g.Code? && g.kind.Thread?)
  }

  ghost predicate StackOk(stack: seq<Frame>) {
    && stack != [] && stack[0] == Code(0, Thread)
    && (forall i :: 0 <= i < |stack| ==> FrameOk(stack[i]))
    && (forall i, j :: 0 <= i && j == i + 1 && j < |stack| ==> Above(stack[i], stack[j]))
  }

  ghost predicate Draining(stack: seq<Frame>) {
    exists i :: 0 <= i < |stack| && stack[i].Drain?
  }

  lemma {:induction false} FloorsRise(stack: seq<Frame>, i: nat, j: nat)
    requires StackOk(stack) && i <= j < |stack|
    ensures Floor(stack[i]) <= Floor(stack[j])
    decreases j
  {
    if i < j {
      FloorsRise(stack, i, j - 1);
      assert Above(stack[j - 1], stack[j]) && FrameOk(stack[j]) && FrameOk(stack[j - 1]);
    }
  }

  /** No dispatch lies under a frame that may be below the dispatch level. */
  lemma {:induction false} NoneUnder(stack: seq<Frame>, j: nat)
    requires StackOk(stack) && j < |stack| && Floor(stack[j]) < DISPATCH
    ensures Depth(stack[..j + 1]) == 0 && !Draining(stack[..j + 1])
    decreases j
  {
    var s := stack[..j + 1];
    assert s[..|s| - 1] == stack[..j];
    if j > 0 {
      FloorsRise(stack, j - 1, j);
      NoneUnder(stack, j - 1);
      assert forall i :: 0 <= i < |s| - 1 ==> s[i] == stack[..j][i];
    } else {
      assert stack[..0] == [];
    }
  }

  /** At most one dispatch is in progress, and none above it. */
  lemma {:induction false} OneDispatch(stack: seq<Frame>)
    requires StackOk(stack) && (stack[|stack| - 1].Drain? || stack[|stack| - 1].Drained?)
    ensures Depth(stack) == 1
  {
    var n := |stack|;
    assert Above(stack[n - 2], stack[n - 1]) && FrameOk(stack[n - 2]);
    NoneUnder(stack, n - 2);
    assert stack[..n - 1] == stack[..n - 2 + 1];
  }

  // ---------------------------------------------------------------------------
  // The invariant

  ghost function Waiting(dpcs: map<nat, Procedure>, queue: seq<nat>): seq<Job>
    requires forall d :: d in queue ==> d in dpcs
  {
    if queue == [] then []
    else [Job(queue[0], dpcs[queue[0]].context1, dpcs[queue[0]].context2)] + Waiting(dpcs, queue[1..])
  }

  /** The queue, its count and the flags agree. */
  ghost predicate QueueOk(c: Cpu) {
    && c.count == |c.queue| && Distinct(c.queue)
    && (forall d :: d in c.queue ==> d in c.dpcs && c.dpcs[d].enqueued)
    && (forall d :: d in c.dpcs && c.dpcs[d].enqueued ==> d in c.queue)
  }

  ghost predicate Inv(c: Cpu) {
    && QueueOk(c) && StackOk(c.stack)
    && (c.pending == 0 || c.pending == DISPATCH_BIT)
    && Fits(Top(c), c.irql) && (Top(c).Loop? ==> !c.ints)
    && (c.queue != [] ==> c.pending == DISPATCH_BIT || Draining(c.stack))
  }

  lemma {:induction false} WaitingFrame(dpcs: map<nat, Procedure>, queue: seq<nat>, d: nat, p: Procedure)
    requires (forall e :: e in queue ==> e in dpcs) && d !in queue
    ensures Waiting(dpcs[d := p], queue) == Waiting(dpcs, queue)
  {
    if queue != [] {
      assert queue[0] in queue;
      WaitingFrame(dpcs, queue[1..], d, p);
    }
  }

  lemma {:induction false} WaitingAppend(dpcs: map<nat, Procedure>, queue: seq<nat>, d: nat)
    requires (forall e :: e in queue ==> e in dpcs) && d in dpcs
    ensures Waiting(dpcs, queue + [d]) == Waiting(dpcs, queue) + [Job(d, dpcs[d].context1, dpcs[d].context2)]
  {
    if queue != [] {
      assert (queue + [d])[1..] == queue[1..] + [d];
      WaitingAppend(dpcs, queue[1..], d);
    } else {
      assert queue + [d] == [d];
      assert [d][1..] == [];
    }
  }

  /** Taken or not, an enqueue keeps the queue in step with its flags. */
  lemma {:induction false} EnqueueKeeps(c: Cpu, d: nat, c1: int, c2: int)
    requires Inv(c) && d in c.dpcs
    ensures Inv(Enqueued(c, d, c1, c2))
  {
    hide StackOk;
    if !c.dpcs[d].enqueued {
      var next := Enqueued(c, d, c1, c2);
      assert d !in c.queue;
      assert forall e :: e in next.queue <==> e in c.queue || e == d;
    }
  }

  lemma {:induction false} DrawKeeps(c: Cpu)
    requires QueueOk(c) && c.stack != [] && c.queue != [] && HeadKnown(c)
    ensures QueueOk(Drawn(c))
  {
    var d, rest := c.queue[0], c.queue[1..];
    assert d in c.queue && d !in rest;
    assert forall e :: e in c.queue <==> e == d || e in rest;
  }

  // ---------------------------------------------------------------------------
  // The stack after a step

  lemma {:induction false} PushOk(stack: seq<Frame>, f: Frame)
    requires StackOk(stack) && FrameOk(f) && Above(stack[|stack| - 1], f)
    ensures StackOk(stack + [f]) && (Draining(stack) ==> Draining(stack + [f])) && (f.Drain? ==> Draining(stack + [f]))
  {
    var s := stack + [f];
    assert forall i :: 0 <= i < |stack| ==> s[i] == stack[i];
    assert s[|stack|] == f;
  }

  lemma {:induction false} PopOk(stack: seq<Frame>)
    requires StackOk(stack) && |stack| > 1
    ensures StackOk(stack[..|stack| - 1])
    ensures Draining(stack) && !stack[|stack| - 1].Drain? ==> Draining(stack[..|stack| - 1])
    ensures Above(stack[..|stack| - 1][|stack| - 2], stack[|stack| - 1])
  {
    var s := stack[..|stack| - 1];
    assert forall i :: 0 <= i < |s| ==> s[i] == stack[i];
    if Draining(stack) && !stack[|stack| - 1].Drain? {
      var i :| 0 <= i < |stack| && stack[i].Drain?;
      assert s[i].Drain?;
    }
  }

  /** Only thread code lies at the bottom. */
  lemma {:induction false} NotLast(stack: seq<Frame>)
    requires StackOk(stack) && stack[|stack| - 1] != Code(0, Thread)
    ensures |stack| > 1
  {
  }

  /** The pending bit is seen from a level exactly if the level is below dispatch. */
  lemma {:induction false} Shifts(l: nat)
    ensures (DISPATCH_BIT / Pow2(l) != 0 <==> l < DISPATCH) && 0 / Pow2(l) == 0
    ensures (DISPATCH_BIT / Pow2(l)) % 256 == 0 <==> l >= DISPATCH
  {
    hide Pow2;
    DivUnique(0, Pow2(l), 0);
    if l >= 2 {
      Pow2Monotone(2, l);
      assert Pow2(2) == 4 by { SmallPowers(); }
      DivUnique(DISPATCH_BIT, Pow2(l), 0);
    } else {
      SmallPowers();
    }
  }

  lemma {:induction false} SmallPowers()
    ensures Pow2(0) == 1 && Pow2(1) == 2 && Pow2(2) == 4
  {
  }

  // ---------------------------------------------------------------------------
  // Steps

  lemma {:induction false} CodeKeeps(c: Cpu, e: Event)
    requires Inv(c) && Enabled(c, e) && (e.Raise? || e.LowerTo? || e.Interrupt?)
    ensures Inv(Next(c, e))
  {
    hide StackOk, Draining;
    match e
    case Raise(l) =>
    case LowerTo(l) => PushOk(c.stack, Lower(l, false));
    case Interrupt(l) => PushOk(c.stack, Code(l, Handler(c.irql)));
    case _ =>
  }

  lemma {:induction false} FinishKeeps(c: Cpu)
    requires Inv(c) && Enabled(c, Finish)
    ensures Inv(Next(c, Finish))
  {
    hide StackOk, Draining;
    NotLast(c.stack);
    PopOk(c.stack);
    TopOk(c.stack);
    if !Top(c).kind.Body? {
      PushOk(Under(c), Lower(Top(c).kind.saved, true));
    }
  }

  lemma {:induction false} TopOk(stack: seq<Frame>)
    requires StackOk(stack)
    ensures FrameOk(stack[|stack| - 1])
  {
  }

  lemma {:induction false} LowerKeeps(c: Cpu)
    requires Inv(c) && Enabled(c, Advance) && (Top(c).Lower? || Top(c).Enter?)
    ensures Inv(Next(c, Advance))
  {
    hide StackOk, Draining, Pow2;
    NotLast(c.stack);
    PopOk(c.stack);
    Shifts(Top(c).level);
    TopOk(c.stack);
    if Top(c).Lower? {
      if Top(c).level < DISPATCH {
        PushOk(Under(c), Enter(Top(c).level, Top(c).iret));
      }
    } else {
      PushOk(Under(c), Loop(Top(c).level, c.ints, Top(c).iret));
    }
  }

  lemma {:induction false} LoopKeeps(c: Cpu)
    requires Inv(c) && Enabled(c, Advance) && Top(c).Loop?
    ensures Inv(Next(c, Advance))
  {
    hide StackOk, Draining, Pow2;
    NotLast(c.stack);
    PopOk(c.stack);
    TopOk(c.stack);
    Shifts(Top(c).level);
    PushOk(c.stack, Drain);
  }

  lemma {:induction false} DrainKeeps(c: Cpu)
    requires Inv(c) && Enabled(c, Advance) && (Top(c).Drain? || Top(c).Drained?)
    ensures Inv(Next(c, Advance))
  {
    hide StackOk, Draining;
    NotLast(c.stack);
    PopOk(c.stack);
    if Top(c).Drain? {
      if c.queue == [] {
        PushOk(Under(c), Drained);
      } else {
        DrawKeeps(c);
        TopDraining(c.stack);
        PushOk(c.stack, Top(Drawn(c)));
      }
    }
  }

  lemma {:induction false} TopDraining(stack: seq<Frame>)
    requires stack != [] && stack[|stack| - 1].Drain?
    ensures Draining(stack)
  {
  }

  /** Every step of the processor keeps the invariant. */
  lemma {:induction false} StepKeeps(c: Cpu, e: Event)
    requires Inv(c) && Enabled(c, e)
    ensures Inv(Next(c, e))
  {
    hide Inv;
    match e
    case Enqueue(d, c1, c2) => EnqueueKeeps(c, d, c1, c2);
    case Finish => FinishKeeps(c);
    case Advance =>
      if Top(c).Lower? || Top(c).Enter? {
        LowerKeeps(c);
      } else if Top(c).Loop? {
        LoopKeeps(c);
      } else {
        DrainKeeps(c);
      }
    case _ => CodeKeeps(c, e);
  }

  // ---------------------------------------------------------------------------
  // Runs

  ghost predicate Runs(c: Cpu, events: seq<Event>, c1: Cpu)
    decreases |events|
  {
    if events == [] then c1 == c
    else Enabled(c, events[0]) && Runs(Next(c, events[0]), events[1..], c1)
  }

  /** Thread code at the lowest level and no procedure queued. */
  ghost predicate Initial(c: Cpu) {
    && c.irql == 0 && c.pending == 0 && c.queue == [] && c.count == 0 && c.stack == [Code(0, Thread)]
    && forall d :: d in c.dpcs ==> !c.dpcs[d].enqueued
  }

  // ---------------------------------------------------------------------------
  // What was asked for and what was begun, told from the events and the stack alone

  ghost function Count(jobs: seq<Job>, d: nat): nat {
    if jobs == [] then 0 else Count(jobs[..|jobs| - 1], d) + if jobs[|jobs| - 1].dpc == d then 1 else 0
  }

  /** The procedure whose body a step enters, if it enters one. */
  ghost function Begun(c: Cpu, next: Cpu): seq<Job> {
    if |next.stack| > |c.stack| && Top(next).Code? && Top(next).kind.Body? then [Top(next).kind.job] else []
  }

  datatype History = History(accepted: seq<Job>, begun: seq<Job>)

  /** An enqueue counts, with its contexts, exactly if all earlier ones of that procedure have begun. */
  ghost function Recorded(h: History, c: Cpu, e: Event): History
    requires Enabled(c, e)
  {
    History(if e.Enqueue? && Count(h.accepted, e.dpc) == Count(h.begun, e.dpc)
            then h.accepted + [Job(e.dpc, e.context1, e.context2)] else h.accepted,
            h.begun + Begun(c, Next(c, e)))
  }

  ghost function Tale(h: History, c: Cpu, events: seq<Event>): History
    decreases |events|
  {
    if events == [] || !Enabled(c, events[0]) then h else Tale(Recorded(h, c, events[0]), Next(c, events[0]), events[1..])
  }

  /** What has begun, then what is queued, is what was accepted, in order. */
  ghost predicate Agrees(c: Cpu, h: History)
    requires forall d :: d in c.queue ==> d in c.dpcs
  {
    h.accepted == h.begun + Waiting(c.dpcs, c.queue)
  }

  lemma {:induction false} CountSum(a: seq<Job>, b: seq<Job>, d: nat)
    ensures Count(a + b, d) == Count(a, d) + Count(b, d)
  {
    if b == [] {
      assert a + b == a;
    } else {
      assert (a + b)[..|a + b| - 1] == a + b[..|b| - 1];
      CountSum(a, b[..|b| - 1], d);
    }
  }

  lemma {:induction false} WaitingCount(dpcs: map<nat, Procedure>, queue: seq<nat>, d: nat)
    requires forall e :: e in queue ==> e in dpcs
    ensures Count(Waiting(dpcs, queue), d) == 0 <==> d !in queue
  {
    if queue != [] {
      var q := queue[0];
      var first, rest := [Job(q, dpcs[q].context1, dpcs[q].context2)], Waiting(dpcs, queue[1..]);
      WaitingCount(dpcs, queue[1..], d);
      CountSum(first, rest, d);
      assert first[..0] == [];
      assert queue == [q] + queue[1..];
    }
  }

  lemma {:induction false} EnqueueAgrees(c: Cpu, h: History, d: nat, x: int, y: int)
    requires QueueOk(c) && Enabled(c, Enqueue(d, x, y)) && Agrees(c, h)
    ensures var next := Next(c, Enqueue(d, x, y));
            QueueOk(next) ==> Agrees(next, Recorded(h, c, Enqueue(d, x, y)))
  {
    hide Count;
    var next := Next(c, Enqueue(d, x, y));
    var w := Waiting(c.dpcs, c.queue);
    CountSum(h.begun, w, d);
    WaitingCount(c.dpcs, c.queue, d);
    assert Begun(c, next) == [] && h.begun + [] == h.begun;
    if !c.dpcs[d].enqueued {
      WaitingFrame(c.dpcs, c.queue, d, next.dpcs[d]);
      WaitingAppend(next.dpcs, c.queue, d);
      assert h.begun + (w + [Job(d, x, y)]) == h.begun + w + [Job(d, x, y)];
    }
  }

  lemma {:induction false} DrawAgrees(c: Cpu, h: History)
    requires QueueOk(c) && Enabled(c, Advance) && Top(c).Drain? && c.queue != [] && Agrees(c, h)
    ensures QueueOk(Next(c, Advance)) ==> Agrees(Next(c, Advance), Recorded(h, c, Advance))
  {
    var next, d, rest := Drawn(c), c.queue[0], c.queue[1..];
    assert d in c.queue && d !in rest;
    WaitingFrame(c.dpcs, rest, d, next.dpcs[d]);
    var job := Job(d, c.dpcs[d].context1, c.dpcs[d].context2);
    assert Begun(c, next) == [job];
    assert h.begun + ([job] + Waiting(c.dpcs, rest)) == (h.begun + [job]) + Waiting(c.dpcs, rest);
  }

  lemma {:induction false} StepAgrees(c: Cpu, h: History, e: Event)
    requires Inv(c) && Enabled(c, e) && Agrees(c, h)
    ensures Inv(Next(c, e)) && Agrees(Next(c, e), Recorded(h, c, e))
  {
    hide StackOk, Draining, Count, Waiting, Pow2;
    StepKeeps(c, e);
    assert h.begun + [] == h.begun;
    if e.Enqueue? {
      EnqueueAgrees(c, h, e.dpc, e.context1, e.context2);
    } else if e == Advance && Top(c).Drain? && c.queue != [] {
      DrawAgrees(c, h);
    }
  }

  lemma {:induction false} RunAgrees(c: Cpu, h: History, events: seq<Event>, c1: Cpu)
    requires Inv(c) && Agrees(c, h) && Runs(c, events, c1)
    ensures Inv(c1) && Agrees(c1, Tale(h, c, events))
    decreases |events|
  {
    hide Next, Enabled, StackOk, Waiting, Recorded;
    if events != [] {
      StepAgrees(c, h, events[0]);
      RunAgrees(Next(c, events[0]), Recorded(h, c, events[0]), events[1..], c1);
    }
  }

  /**
   In every run: the procedures begun and those still queued are, in order, the enqueues that
   count, each with its own contexts. Each is begun exactly once.
   */
  lemma {:induction false} ExactlyOnceInOrder(c: Cpu, events: seq<Event>, c1: Cpu)
    requires Initial(c) && Runs(c, events, c1)
    ensures Inv(c1)
    ensures var h := Tale(History([], []), c, events); h.accepted == h.begun + Waiting(c1.dpcs, c1.queue)
  {
    hide Tale;
    RunAgrees(c, History([], []), events, c1);
  }

  /** Whenever a procedure is entered, it is at dispatch level, from the queue's front, inside exactly one dispatch. */
  lemma {:induction false} BegunAtDispatch(c: Cpu, events: seq<Event>, c1: Cpu, e: Event)
    requires Initial(c) && Runs(c, events, c1) && Enabled(c1, e) && Begun(c1, Next(c1, e)) != []
    ensures Next(c1, e).irql == DISPATCH && Depth(Next(c1, e).stack) == 1 && Next(c1, e).ints == c1.ints
    ensures c1.queue != [] && Begun(c1, Next(c1, e))[0].dpc == c1.queue[0] && Next(c1, e).queue == c1.queue[1..]
  {
    hide StackOk, Draining, Depth, Pow2, Waiting, Tale;
    ExactlyOnceInOrder(c, events, c1);
    OneDispatch(c1.stack);
    DepthUnder(c1.stack, Top(Next(c1, e)));
  }

  lemma {:induction false} DepthUnder(stack: seq<Frame>, f: Frame)
    requires f.Code?
    ensures Depth(stack + [f]) == Depth(stack)
  {
    assert (stack + [f])[..|stack|] == stack;
  }

  /** `irql_lower` or `softint_dispatch` is about to return to a level below dispatch. */
  ghost predicate Returning(c: Cpu, e: Event) {
    && Enabled(c, e) && e == Advance && (Top(c).Lower? || Top(c).Loop?) && Top(c).level < DISPATCH
    && |Next(c, e).stack| < |c.stack|
  }

  /** Then the level is the one asked for and nothing is left queued: everything accepted has begun, in every run. */
  lemma {:induction false} LowerLeavesNone(c: Cpu, events: seq<Event>, c1: Cpu, e: Event)
    requires Initial(c) && Runs(c, events, c1) && Returning(c1, e)
    ensures Next(c1, e).queue == [] && Next(c1, e).irql == Top(c1).level && Next(c1, e).stack == Under(c1)
    ensures var h := Tale(History([], []), c, events); h.accepted == h.begun
  {
    hide Pow2, StackOk, Draining, Tale;
    ExactlyOnceInOrder(c, events, c1);
    var n := |c1.stack|;
    Shifts(Top(c1).level);
    NoneUnder(c1.stack, n - 1);
    assert c1.stack[..n - 1 + 1] == c1.stack;
    assert c1.queue == [];
    assert Waiting(c1.dpcs, c1.queue) == [];
    var h := Tale(History([], []), c, events);
    assert h.begun + [] == h.begun;
  }

  /** Neither assertion on levels fails: an interrupt raises the level, and its end lowers it. */
  lemma {:induction false} LevelsNest(c: Cpu)
    requires Inv(c) && Top(c).Code? && Top(c).kind.Handler?
    ensures Top(c).kind.saved <= c.irql
  {
    TopOk(c.stack);
  }

  /**
   An interrupt and its handler, whatever came in between: the handler runs at the level of the
   interrupt, and its end goes back to the level and the frames it came from.
   */
  lemma {:induction false} InterruptReturns(c: Cpu, l: nat, later: Cpu)
    requires Enabled(c, Interrupt(l)) && later.stack == Next(c, Interrupt(l)).stack && Enabled(later, Finish)
    ensures Next(c, Interrupt(l)).irql == l && Next(c, Interrupt(l)).queue == c.queue
    ensures var end := Next(later, Finish);
            end.irql == c.irql && !end.ints && end.stack == c.stack + [Lower(c.irql, true)] && end.queue == later.queue
  {
    assert Under(Next(c, Interrupt(l))) == c.stack;
  }

  /** Raising and lowering set the level asked for; nothing is queued or begun by it. */
  lemma {:induction false} LevelSet(c: Cpu, e: Event)
    requires Enabled(c, e) && (e.Raise? || e.LowerTo?)
    ensures Next(c, e).irql == e.level && Next(c, e).queue == c.queue && Next(c, e).pending == c.pending && Next(c, e).ints == c.ints
    ensures Next(c, e).stack == if e.Raise? then c.stack else c.stack + [Lower(e.level, false)]
  {
  }

  // ---------------------------------------------------------------------------
  // Left to itself, lowering the level runs everything that is queued

  lemma {:induction false} RunsMore(c: Cpu, events: seq<Event>, c1: Cpu, more: seq<Event>, c2: Cpu, h: History)
    requires Runs(c, events, c1) && Runs(c1, more, c2)
    ensures Runs(c, events + more, c2) && Tale(h, c, events + more) == Tale(Tale(h, c, events), c1, more)
    decreases |events|
  {
    hide Next, Enabled, Recorded;
    if events == [] {
      assert events + more == more;
    } else {
      assert (events + more)[0] == events[0] && (events + more)[1..] == events[1..] + more;
      RunsMore(Next(c, events[0]), events[1..], c1, more, c2, Recorded(h, c, events[0]));
    }
  }

  lemma {:induction false} RunsOne(c: Cpu, e: Event, h: History)
    requires Enabled(c, e)
    ensures Runs(c, [e], Next(c, e)) && Tale(h, c, [e]) == Recorded(h, c, e)
  {
    hide Next, Recorded;
    assert [e][1..] == [];
    assert Runs(Next(c, e), [], Next(c, e));
    assert Tale(Recorded(h, c, e), Next(c, e), []) == Recorded(h, c, e);
  }

  lemma {:induction false} RunsTwo(c: Cpu, e: Event, f: Event, h: History)
    requires Enabled(c, e) && Enabled(Next(c, e), f)
    ensures Runs(c, [e, f], Next(Next(c, e), f)) && Tale(h, c, [e, f]) == Recorded(Recorded(h, c, e), Next(c, e), f)
  {
    hide Next, Recorded, Runs, Tale, Enabled;
    RunsOne(c, e, h);
    RunsOne(Next(c, e), f, Recorded(h, c, e));
    RunsMore(c, [e], Next(c, e), [f], Next(Next(c, e), f), h);
    assert [e] + [f] == [e, f];
  }

  /** One procedure from the front of the queue, entered and left. */
  lemma {:induction false} DrainOne(c: Cpu, h: History)
    requires Inv(c) && Top(c).Drain? && c.queue != []
    ensures Enabled(c, Advance) && Enabled(Next(c, Advance), Finish)
    ensures var c1 := Next(Next(c, Advance), Finish);
            && Inv(c1) && c1.stack == c.stack && c1.queue == c.queue[1..] && c1.ints == c.ints && c1.pending == c.pending
            && Waiting(c.dpcs, c.queue) == [Job(c.queue[0], c.dpcs[c.queue[0]].context1, c.dpcs[c.queue[0]].context2)]
                                           + Waiting(c1.dpcs, c1.queue)
            && Recorded(Recorded(h, c, Advance), Next(c, Advance), Finish)
               == h.(begun := h.begun + [Job(c.queue[0], c.dpcs[c.queue[0]].context1, c.dpcs[c.queue[0]].context2)])
  {
    hide StackOk, Draining, Pow2, Count;
    QueueKnown(c);
    var c0 := Next(c, Advance);
    var c1 := Next(c0, Finish);
    StepKeeps(c, Advance);
    StepKeeps(c0, Finish);
    assert Under(c0) == c.stack;
    assert c.queue[0] !in c.queue[1..];
    WaitingFrame(c.dpcs, c.queue[1..], c.queue[0], c0.dpcs[c.queue[0]]);
    var job := Job(c.queue[0], c.dpcs[c.queue[0]].context1, c.dpcs[c.queue[0]].context2);
    assert Begun(c, c0) == [job] && Begun(c0, c1) == [];
    assert h.begun + [job] + [] == h.begun + [job];
  }

  /** All of them, in order, until the queue is empty. */
  lemma {:induction false} DrainAll(c: Cpu, h: History) returns (events: seq<Event>, c1: Cpu)
    requires Inv(c) && Top(c).Drain?
    ensures Runs(c, events, c1) && Inv(c1) && c1.stack == c.stack && c1.queue == [] && c1.ints == c.ints && c1.pending == c.pending
    ensures Tale(h, c, events) == h.(begun := h.begun + Waiting(c.dpcs, c.queue))
    decreases |c.queue|
  {
    hide Inv, Next, Enabled, Recorded, Runs, Tale;
    QueueKnown(c);
    if c.queue == [] {
      events, c1 := [], c;
      RunsNone(c, h);
      assert h.begun + [] == h.begun;
    } else {
      DrainOne(c, h);
      var job := Job(c.queue[0], c.dpcs[c.queue[0]].context1, c.dpcs[c.queue[0]].context2);
      var mid := Next(Next(c, Advance), Finish);
      RunsTwo(c, Advance, Finish, h);
      QueueKnown(mid);
      var h1 := h.(begun := h.begun + [job]);
      var rest, last := DrainAll(mid, h1);
      RunsMore(c, [Advance, Finish], mid, rest, last, h);
      assert h.begun + [job] + Waiting(mid.dpcs, mid.queue) == h.begun + ([job] + Waiting(mid.dpcs, mid.queue));
      events, c1 := [Advance, Finish] + rest, last;
    }
  }

  lemma {:induction false} QueueKnown(c: Cpu)
    requires Inv(c)
    ensures (forall d :: d in c.queue ==> d in c.dpcs) && c.stack != [] && (c.queue != [] ==> c.queue[0] in c.dpcs)
  {
    assert c.queue != [] ==> c.queue[0] in c.queue;
  }

  lemma {:induction false} RunsNone(c: Cpu, h: History)
    ensures Runs(c, [], c) && Tale(h, c, []) == h
  {
  }

  /**
   `irql_lower` to a level below dispatch, if nothing interrupts it and the procedures enqueue
   nothing: it returns with the level asked for and the interrupts as they were, and every queued
   procedure has been begun, in order.
   */
  lemma {:induction false} LowerCompletes(c: Cpu, h: History) returns (events: seq<Event>, c1: Cpu)
    requires Inv(c) && Top(c).Lower? && Top(c).level < DISPATCH
    ensures Runs(c, events, c1) && Inv(c1) && c1.stack == Under(c) && c1.queue == [] && c1.irql == Top(c).level
    ensures c1.ints == (c.ints || Top(c).iret)
    ensures (forall d :: d in c.queue ==> d in c.dpcs) && Tale(h, c, events) == h.(begun := h.begun + Waiting(c.dpcs, c.queue))
  {
    hide Inv, Next, Enabled, Recorded, Runs, Tale, Waiting;
    QueueKnown(c);
    if c.pending == 0 {
      NothingPending(c, h);
      RunsOne(c, Advance, h);
      events, c1 := [Advance], Next(c, Advance);
    } else {
      IntoDispatch(c, h);
      var c2 := Next(Next(c, Advance), Advance);
      RunsTwo(c, Advance, Advance, h);
      var c3 := Next(c2, Advance);
      RunsOne(c2, Advance, h);
      var rest, c4 := DrainAll(c3, h);
      var h4 := h.(begun := h.begun + Waiting(c.dpcs, c.queue));
      OutOfDispatch(c, c3, c4, h4);
      RunsTwo(c4, Advance, Advance, h4);
      var c6 := Next(Next(c4, Advance), Advance);
      RunsOne(c6, Advance, h4);
      c1 := Next(c6, Advance);
      RunsMore(c, [Advance, Advance], c2, [Advance], c3, h);
      RunsMore(c, [Advance, Advance] + [Advance], c3, rest, c4, h);
      RunsMore(c, [Advance, Advance] + [Advance] + rest, c4, [Advance, Advance], c6, h);
      RunsMore(c, [Advance, Advance] + [Advance] + rest + [Advance, Advance], c6, [Advance], c1, h);
      events := [Advance, Advance] + [Advance] + rest + [Advance, Advance] + [Advance];
    }
  }

  lemma {:induction false} NothingPending(c: Cpu, h: History)
    requires Inv(c) && Top(c).Lower? && Top(c).level < DISPATCH && c.pending == 0
    ensures c.queue == [] && Enabled(c, Advance)
    ensures var c1 := Next(c, Advance);
            && Inv(c1) && c1.stack == Under(c) && c1.queue == [] && c1.irql == Top(c).level && c1.ints == (c.ints || Top(c).iret)
    ensures Recorded(h, c, Advance) == h.(begun := h.begun + Waiting(c.dpcs, c.queue))
  {
    hide StackOk, Draining, Pow2, Count;
    QueueKnown(c);
    var n := |c.stack|;
    NoneUnder(c.stack, n - 1);
    assert c.stack[..n - 1 + 1] == c.stack;
    Shifts(Top(c).level);
    StepKeeps(c, Advance);
    assert h.begun + [] == h.begun;
  }

  /** From the check through the loop into the first dispatch. */
  lemma {:induction false} IntoDispatch(c: Cpu, h: History)
    requires Inv(c) && Top(c).Lower? && Top(c).level < DISPATCH && c.pending != 0
    ensures Enabled(c, Advance) && Enabled(Next(c, Advance), Advance)
    ensures var c2 := Next(Next(c, Advance), Advance);
            && Recorded(Recorded(h, c, Advance), Next(c, Advance), Advance) == h && Enabled(c2, Advance)
            && var c3 := Next(c2, Advance);
               && Recorded(h, c2, Advance) == h && Inv(c3) && c3.pending == 0 && c3.queue == c.queue && c3.dpcs == c.dpcs
               && c3.irql == DISPATCH && c3.ints && c3.stack == Under(c) + [Loop(Top(c).level, c.ints, Top(c).iret), Drain]
  {
    hide StackOk, Draining, Count, Pow2, Waiting;
    QueueKnown(c);
    Shifts(Top(c).level);
    var c1 := Next(c, Advance);
    StepKeeps(c, Advance);
    assert Under(c1) == Under(c);
    var c2 := Next(c1, Advance);
    StepKeeps(c1, Advance);
    var c3 := Next(c2, Advance);
    StepKeeps(c2, Advance);
    assert h.begun + [] == h.begun && h.begun + [] + [] == h.begun;
    assert c3.stack == Under(c) + [Loop(Top(c).level, c.ints, Top(c).iret), Drain];
  }

  /** And out again when the queue is empty. */
  lemma {:induction false} OutOfDispatch(c: Cpu, c3: Cpu, c4: Cpu, h: History)
    requires c.stack != [] && Top(c).Lower? && Top(c).level < DISPATCH
    requires c3.stack == Under(c) + [Loop(Top(c).level, c.ints, Top(c).iret), Drain] && c3.pending == 0
    requires Inv(c4) && c4.stack == c3.stack && c4.queue == [] && c4.pending == c3.pending
    ensures Enabled(c4, Advance) && Enabled(Next(c4, Advance), Advance)
    ensures var c6 := Next(Next(c4, Advance), Advance);
            && Recorded(Recorded(h, c4, Advance), Next(c4, Advance), Advance) == h && Enabled(c6, Advance)
            && var c1 := Next(c6, Advance);
               && Recorded(h, c6, Advance) == h && Inv(c1) && c1.stack == Under(c) && c1.queue == [] && c1.irql == Top(c).level
               && c1.ints == (c.ints || Top(c).iret)
  {
    hide StackOk, Draining, Count, Pow2, Waiting;
    Shifts(Top(c).level);
    var c5 := Next(c4, Advance);
    StepKeeps(c4, Advance);
    var c6 := Next(c5, Advance);
    StepKeeps(c5, Advance);
    assert c6.stack == Under(c) + [Loop(Top(c).level, c.ints, Top(c).iret)];
    var c1 := Next(c6, Advance);
    StepKeeps(c6, Advance);
    assert c1.stack == Under(c);
    assert h.begun + [] == h.begun && h.begun + [] + [] == h.begun;
  }
}
