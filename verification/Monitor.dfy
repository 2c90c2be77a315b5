/** The blocking buffer as its threads run it: any number of threads, each in the middle of
    some call, one mutex, and two condition variables with the wait and signal rules of
    POSIX.1-2017 (System Interfaces, pthread_cond_wait and pthread_cond_signal). Waiting
    releases the mutex and goes to sleep in one step; a signal wakes at least one sleeper
    if there is one and is lost otherwise; a sleeper may wake for no reason; and any thread
    may take the mutex before a woken one does. */
module Monitor {
  import opened Records
  import opened BoundedQueue
  import opened Rings
  import opened Totals

  datatype Cond = NotEmpty | NotFull

  /** Where a thread stands in its call. */
  datatype PC =
    | Idle
    | Locking(op: Op)                        // called, wants the mutex
    | Testing(op: Op, waited: bool)          // has the mutex, about to test the wait loop's condition
    | Asleep(op: Op)
    | Woken(op: Op)                          // no longer asleep, mutex not yet taken back
    | Signalling(op: Op, result: Result)     // fields updated, about to signal or broadcast
    | HalfBroadcast(op: Op, result: Result)  // shutdown only: not_empty broadcast, not_full still to come
    | Unlocking(op: Op, result: Result)
    | Returning(op: Op, result: Result)      // mutex released, result not yet seen by the caller

  datatype Action =
    | Call(op: Op)
    | Lock
    | Wait
    | Decide
    | Notify(woken: set<nat>)
    | Unlock
    | Return
    | WakeSpuriously

  datatype Step = Step(thread: nat, action: Action)

  /** The shared fields, the mutex, every thread, and two records of the past: the log of
      critical sections and what each thread's calls have returned to it. */
  datatype State = State(ring: Ring, owner: Option<nat>, threads: seq<PC>,
                         log: seq<Event>, returned: seq<seq<Event>>)

  predicate Holds(pc: PC) {
    pc.Testing? || pc.Signalling? || pc.HalfBroadcast? || pc.Unlocking?
  }

  predicate SleepsOn(pc: PC, c: Cond) {
    pc.Asleep? && (if c == NotEmpty then pc.op.Pop? else pc.op.Push?)
  }

  /** Woken on c and not decided since, whether or not it has the mutex back. */
  predicate Roused(pc: PC, c: Cond) {
    (pc.Woken? || (pc.Testing? && pc.waited)) && (if c == NotEmpty then pc.op.Pop? else pc.op.Push?)
  }

  /** The woken threads are sleepers of c: all of them for a broadcast, for a signal at
      least one if there is any. */
  predicate MayWake(threads: seq<PC>, c: Cond, woken: set<nat>, broadcast: bool) {
    && (forall i :: i in woken ==> i < |threads| && SleepsOn(threads[i], c))
    && (broadcast ==> forall i :: 0 <= i < |threads| && SleepsOn(threads[i], c) ==> i in woken)
    && (woken == {} ==> forall i :: 0 <= i < |threads| ==> !SleepsOn(threads[i], c))
  }

  function Wake(threads: seq<PC>, woken: set<nat>): (woke: seq<PC>)
    ensures |woke| == |threads|
  {
    seq(|threads|, i requires 0 <= i < |threads| =>
      if i in woken && threads[i].Asleep? then Woken(threads[i].op) else threads[i])
  }

  predicate Enabled(s: State, step: Step) {
    && step.thread < |s.threads| == |s.returned|
    && s.ring.WellFormed()
    && var pc := s.threads[step.thread];
       match step.action
       case Call(op) => pc.Idle?
       case Lock => (pc.Locking? || pc.Woken?) && s.owner == None
       case Wait => pc.Testing? && s.ring.MustWait(pc.op)
       case Decide => pc.Testing? && !s.ring.MustWait(pc.op)
       case Notify(woken) =>
         || (pc.Signalling? && pc.op.Push? && MayWake(s.threads, NotEmpty, woken, false))
         || (pc.Signalling? && pc.op.Pop? && MayWake(s.threads, NotFull, woken, false))
         || (pc.Signalling? && pc.op.Shutdown? && MayWake(s.threads, NotEmpty, woken, true))
         || (pc.HalfBroadcast? && MayWake(s.threads, NotFull, woken, true))
       case Unlock => pc.Unlocking?
       case Return => pc.Returning?
       case WakeSpuriously => pc.Asleep?
  }

  /** The critical section changed something a sleeper may be waiting for. */
  predicate MustNotify(op: Op, result: Result) {
    op.Shutdown? || result == Pushed(true) || (result.Popped? && result.item.Some?)
  }

  function Next(s: State, step: Step): State
    requires Enabled(s, step)
  {
    var t, pc := step.thread, s.threads[step.thread];
    match step.action
    case Call(op) => s.(threads := s.threads[t := Locking(op)])
    case Lock => s.(owner := Some(t), threads := s.threads[t := Testing(pc.op, pc.Woken?)])
    case Wait => s.(owner := None, threads := s.threads[t := Asleep(pc.op)])
    case Decide =>
      var result := s.ring.Reply(pc.op);
      s.(ring := s.ring.Run(pc.op),
         threads := s.threads[t := if MustNotify(pc.op, result) then Signalling(pc.op, result)
                                   else Unlocking(pc.op, result)],
         log := s.log + [Event(t, pc.op, result)])
    case Notify(woken) =>
      var pc' := if pc.Signalling? && pc.op.Shutdown? then HalfBroadcast(pc.op, pc.result)
                 else Unlocking(pc.op, pc.result);
      s.(threads := Wake(s.threads, woken)[t := pc'])
    case Unlock => s.(owner := None, threads := s.threads[t := Returning(pc.op, pc.result)])
    case Return =>
      s.(threads := s.threads[t := Idle],
         returned := s.returned[t := s.returned[t] + [Event(t, pc.op, pc.result)]])
    case WakeSpuriously => s.(threads := s.threads[t := Woken(pc.op)])
  }

  predicate Init(s: State, capacity: nat) {
    && Fresh(s.ring, capacity)
    && s.owner == None && s.log == []
    && |s.returned| == |s.threads|
    && (forall t :: 0 <= t < |s.threads| ==> s.threads[t] == Idle && s.returned[t] == [])
  }

  /** A run: the states passed through and the steps between them. */
  ghost predicate IsRun(states: seq<State>, steps: seq<Step>, capacity: nat) {
    && |states| == |steps| + 1
    && Init(states[0], capacity)
    && forall i :: 0 <= i < |steps| ==> Enabled(states[i], steps[i]) && states[i + 1] == Next(states[i], steps[i])
  }

  // ---------------------------------------------------------------------------
  // What every step keeps
  // ---------------------------------------------------------------------------

  predicate PendingSignal(s: State, c: Cond) {
    && s.owner.Some? && s.owner.value < |s.threads|
    && s.threads[s.owner.value].Signalling?
    && (if c == NotEmpty then s.threads[s.owner.value].op.Push? else s.threads[s.owner.value].op.Pop?)
  }

  predicate PendingBroadcast(s: State, c: Cond) {
    && s.owner.Some? && s.owner.value < |s.threads|
    && var pc := s.threads[s.owner.value];
       && (pc.Signalling? || (c == NotFull && pc.HalfBroadcast?))
       && pc.op.Shutdown?
  }

  /** Mutual exclusion, and program counters that make sense. */
  predicate Locks(s: State) {
    && |s.returned| == |s.threads|
    && (s.owner.Some? ==> s.owner.value < |s.threads| && Holds(s.threads[s.owner.value]))
    && (forall t :: 0 <= t < |s.threads| && Holds(s.threads[t]) ==> s.owner == Some(t))
    && (forall t :: 0 <= t < |s.threads| ==> Sensible(s.threads[t]))
  }

  predicate Sensible(pc: PC) {
    && (pc.Asleep? || pc.Woken? || (pc.Testing? && pc.waited) ==> pc.op.Push? || pc.op.Pop?)
    && (pc.Signalling? ==> MustNotify(pc.op, pc.result) && !pc.op.IsShutdown?)
    && (pc.HalfBroadcast? ==> pc.op.Shutdown?)
  }

  function InFlight(pc: PC, t: nat): seq<Event> {
    if pc.Signalling? || pc.HalfBroadcast? || pc.Unlocking? || pc.Returning? then [Event(t, pc.op, pc.result)] else []
  }

  /** The circular array is the queue the log leaves behind, the log is a legal history of
      that queue, and each thread has been told exactly what the log says. */
  ghost predicate Linearized(s: State) {
    && s.ring.WellFormed()
    && Legal(s.log, |s.ring.data|)
    && s.ring.Queued() == Replay(s.log)
    && |s.returned| == |s.threads|
    && forall t :: 0 <= t < |s.threads| ==> By(s.log, t) == s.returned[t] + InFlight(s.threads[t], t)
  }

  predicate SomeoneAsleep(s: State, c: Cond) {
    exists t :: 0 <= t < |s.threads| && SleepsOn(s.threads[t], c)
  }

  function RousedOn(c: Cond): PC -> nat {
    pc => if Roused(pc, c) then 1 else 0
  }

  /** Items to take, or room to fill. */
  function Available(ring: Ring, c: Cond): int {
    if c == NotEmpty then ring.count else |ring.data| - ring.count
  }

  /** No lost wakeup: while someone sleeps on c, everything available is spoken for by a
      thread already woken or by a signal about to be sent. */
  predicate NoLostWakeup(s: State, c: Cond) {
    SomeoneAsleep(s, c) ==>
      Available(s.ring, c) <= Sum(s.threads, RousedOn(c)) + (if PendingSignal(s, c) then 1 else 0)
  }

  /** Once the flag is set, only those about to be woken by the broadcast are asleep. */
  predicate NoSleepAfterShutdown(s: State, c: Cond) {
    s.ring.shutdown && SomeoneAsleep(s, c) ==> PendingBroadcast(s, c)
  }

  ghost predicate Inv(s: State) {
    && Locks(s)
    && Linearized(s)
    && (forall c :: NoLostWakeup(s, c))
    && (forall c :: NoSleepAfterShutdown(s, c))
  }

  lemma {:induction false} InitInv(s: State, capacity: nat)
    requires Init(s, capacity)
    ensures Inv(s)
  {
    FreshIsEmptyQueue(s.ring, capacity);
  }

  lemma {:induction false} LocksKept(s: State, step: Step)
    requires Locks(s) && Enabled(s, step)
    ensures Locks(Next(s, step))
  {
  }

  lemma {:induction false} LinearizedKept(s: State, step: Step)
    requires Locks(s) && Linearized(s) && Enabled(s, step)
    ensures Linearized(Next(s, step))
    ensures |Next(s, step).ring.data| == |s.ring.data|
  {
    hide Legal, Replay, By, Ring.Run, Ring.Reply, Ring.Contents;
    var t, pc, s' := step.thread, s.threads[step.thread], Next(s, step);
    var e := if step.action == Decide then [Event(t, pc.op, s.ring.Reply(pc.op))] else [];
    if step.action == Decide {
      RingIsQueue(s.ring, pc.op);
      Append(s.log, e[0]);
    }
    assert s'.ring.WellFormed() && Legal(s'.log, |s'.ring.data|) && s'.ring.Queued() == Replay(s'.log);
    assert forall u :: By(s'.log, u) == By(s.log, u) + (if u == t then e else []);
    hide Next, InFlight, Ring.WellFormed, Ring.Queued;
    forall u | 0 <= u < |s.threads|
      ensures |s'.returned| == |s'.threads| == |s.threads|
      ensures By(s'.log, u) == s'.returned[u] + InFlight(s'.threads[u], u)
    {
      ToldAfter(s, step, u);
    }
  }

  /** A thread has been told, or is about to be, what it was before and what it decides now. */
  lemma {:induction false} ToldAfter(s: State, step: Step, u: nat)
    requires Locks(s) && Enabled(s, step) && u < |s.threads|
    ensures var s', pc := Next(s, step), s.threads[step.thread];
            && |s'.returned| == |s'.threads| == |s.threads|
            && s'.returned[u] + InFlight(s'.threads[u], u) == s.returned[u] + InFlight(s.threads[u], u)
                 + (if step.action == Decide && u == step.thread
                    then [Event(u, pc.op, s.ring.Reply(pc.op))] else [])
  {
    hide Ring.Run, Ring.Reply, Ring.WellFormed, MayWake, Sensible;
    var s' := Next(s, step);
    if u != step.thread {
      assert s'.returned[u] == s.returned[u] && InFlight(s'.threads[u], u) == InFlight(s.threads[u], u);
    }
  }

  lemma {:induction false} NoSleepAfterShutdownKept(s: State, step: Step, c: Cond)
    requires Locks(s) && Enabled(s, step) && NoSleepAfterShutdown(s, c)
    ensures NoSleepAfterShutdown(Next(s, step), c)
  {
  }

  lemma {:induction false} NotifyRouses(s: State, step: Step, c: Cond)
    requires Locks(s) && Enabled(s, step) && step.action.Notify?
    ensures Sum(s.threads, RousedOn(c)) <= Sum(Next(s, step).threads, RousedOn(c))
    ensures PendingSignal(s, c) && SomeoneAsleep(s, c) ==>
              Sum(s.threads, RousedOn(c)) < Sum(Next(s, step).threads, RousedOn(c))
  {
    var before, after, w := s.threads, Next(s, step).threads, RousedOn(c);
    forall i | 0 <= i < |before|
      ensures w(before[i]) <= w(after[i])
    {
    }
    SumMonotone(before, after, w, 0);
    if PendingSignal(s, c) && SomeoneAsleep(s, c) {
      var k :| k in step.action.woken;
      SumStrict(before, after, w, k);
    }
  }

  lemma {:induction false} NoLostWakeupKept(s: State, step: Step, c: Cond)
    requires Locks(s) && Enabled(s, step) && NoLostWakeup(s, c) && NoSleepAfterShutdown(s, c)
    ensures NoLostWakeup(Next(s, step), c)
  {
    hide Sum;
    var t, s' := step.thread, Next(s, step);
    if step.action.Notify? {
      NotifyRouses(s, step, c);
      if SomeoneAsleep(s', c) {
        var k :| 0 <= k < |s'.threads| && SleepsOn(s'.threads[k], c);
        assert SleepsOn(s.threads[k], c);
      }
    } else {
      SumUpdate(s.threads, t, s'.threads[t], RousedOn(c));
    }
  }

  lemma {:induction false} InvKept(s: State, step: Step)
    requires Inv(s) && Enabled(s, step)
    ensures Inv(Next(s, step)) && |Next(s, step).ring.data| == |s.ring.data|
    ensures |Next(s, step).threads| == |s.threads|
  {
    LocksKept(s, step);
    LinearizedKept(s, step);
    forall c: Cond
      ensures NoLostWakeup(Next(s, step), c) && NoSleepAfterShutdown(Next(s, step), c)
    {
      NoLostWakeupKept(s, step, c);
      NoSleepAfterShutdownKept(s, step, c);
    }
  }

  /** The environment is free: any idle thread may make any call, any sleeper may wake for no
      reason, whoever wants the free mutex may take it, whether woken or new, and a signal
      may wake any sleepers of its condition, or none if there are none. */
  lemma {:induction false} EnvironmentIsFree(s: State, t: nat)
    requires Inv(s) && t < |s.threads|
    ensures s.threads[t].Idle? ==> forall op :: Enabled(s, Step(t, Call(op)))
    ensures s.threads[t].Asleep? ==> Enabled(s, Step(t, WakeSpuriously))
    ensures (s.threads[t].Locking? || s.threads[t].Woken?) && s.owner == None ==> Enabled(s, Step(t, Lock))
    ensures s.threads[t].Signalling? && (s.threads[t].op.Push? || s.threads[t].op.Pop?) ==>
              forall woken: set<nat> ::
                && (forall i :: i in woken ==>
                      i < |s.threads| && s.threads[i].Asleep? && s.threads[i].op.Pop? == s.threads[t].op.Push?)
                && (woken == {} ==>
                      forall i :: 0 <= i < |s.threads| && s.threads[i].Asleep? ==>
                        s.threads[i].op.Pop? != s.threads[t].op.Push?)
                ==> Enabled(s, Step(t, Notify(woken)))
  {
    forall i | 0 <= i < |s.threads|
      ensures Sensible(s.threads[i])
    {
    }
    hide Linearized, NoLostWakeup, NoSleepAfterShutdown;
  }

  /** A run may begin with any number of threads, and whatever the array holds. */
  lemma {:induction false} RunsBegin(data: seq<VehicleData>, n: nat)
    ensures IsRun([State(Ring(data, 0, 0, 0, false), None, seq(n, _ => Idle), [], seq(n, _ => []))], [], |data|)
  {
  }

  /** Every state of every run keeps the invariant. */
  lemma {:induction false} RunInv(states: seq<State>, steps: seq<Step>, capacity: nat, i: nat)
    requires IsRun(states, steps, capacity) && i < |states|
    ensures Inv(states[i]) && |states[i].ring.data| == capacity && |states[i].threads| == |states[0].threads|
  {
    if i == 0 {
      InitInv(states[0], capacity);
    } else {
      RunInv(states, steps, capacity, i - 1);
      InvKept(states[i - 1], steps[i - 1]);
    }
  }
}
