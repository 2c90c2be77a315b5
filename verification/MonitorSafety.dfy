/** What the callers of the blocking buffer may rely on, over every run. */
module MonitorSafety {
  import opened Records
  import opened BoundedQueue
  import opened Rings
  import opened Monitor
  import Totals

  lemma {:induction false} ByIsInLog(log: seq<Event>, t: nat, e: Event)
    requires e in By(log, t)
    ensures e in log && e.thread == t
  {
    if log[|log| - 1].thread != t || e != log[|log| - 1] {
      ByIsInLog(log[..|log| - 1], t, e);
    }
  }

  lemma {:induction false} LogOnlyGrows(states: seq<State>, steps: seq<Step>, capacity: nat, i: nat, j: nat)
    requires IsRun(states, steps, capacity) && i <= j < |states|
    ensures states[i].log <= states[j].log
  {
    if i < j {
      LogOnlyGrows(states, steps, capacity, i, j - 1);
    }
  }

  /** At most one thread is inside the critical section. */
  lemma {:induction false} MutualExclusion(states: seq<State>, steps: seq<Step>, capacity: nat, i: nat, t: nat, u: nat)
    requires IsRun(states, steps, capacity) && i < |states|
    requires t < |states[i].threads| && Holds(states[i].threads[t])
    requires u < |states[i].threads| && Holds(states[i].threads[u])
    ensures t == u
  {
    RunInv(states, steps, capacity, i);
  }

  /** Every run is linearizable: the log is a legal history of the bounded queue, it ends in
      the queue the array holds now, and projected to a thread it is what that thread's
      calls returned, plus the one it has decided but not yet returned. */
  lemma {:induction false} Linearizability(states: seq<State>, steps: seq<Step>, capacity: nat, i: nat)
    requires IsRun(states, steps, capacity) && i < |states|
    ensures var s := states[i];
            && s.ring.WellFormed()
            && Legal(s.log, capacity) && Replay(s.log) == s.ring.Queued()
            && |s.returned| == |s.threads|
            && forall t :: 0 <= t < |s.threads| ==> By(s.log, t) == s.returned[t] + InFlight(s.threads[t], t)
  {
    RunInv(states, steps, capacity, i);
  }

  /** First in, first out, with backpressure: what was accepted is what was delivered followed
      by what the array holds from the tail, and that never exceeds the capacity. */
  lemma {:induction false} FifoWithBackpressure(states: seq<State>, steps: seq<Step>, capacity: nat, i: nat)
    requires IsRun(states, steps, capacity) && i < |states|
    ensures var s := states[i];
            && s.ring.WellFormed()
            && Accepted(s.log) == Delivered(s.log) + s.ring.Contents()
            && 0 <= |Accepted(s.log)| - |Delivered(s.log)| == s.ring.count <= capacity
  {
    RunInv(states, steps, capacity, i);
    LegalIsFifo(states[i].log, capacity);
  }

  /** Where in the log the n-th event of a thread stands. */
  lemma {:induction false} NthEvent(log: seq<Event>, t: nat, n: nat) returns (p: nat)
    requires n < |By(log, t)|
    ensures p < |log| && log[p] == By(log, t)[n] && By(log[..p], t) == By(log, t)[..n]
  {
    var rest := log[..|log| - 1];
    if n < |By(rest, t)| {
      p := NthEvent(rest, t, n);
      assert rest[..p] == log[..p];
    } else {
      p := |log| - 1;
    }
  }

  /** The order of the log respects real time: a call that returned before another one began
      took effect before it. The event of the first call is the one in the log that has
      before it, of the thread's own events, just those of its earlier calls; it is there
      before the later call takes effect. */
  lemma {:induction false} RealTimeOrder(states: seq<State>, steps: seq<Step>, capacity: nat, i: nat, j: nat, k: nat)
    requires IsRun(states, steps, capacity)
    requires i < j < k < |steps|
    requires steps[i].action.Return? && steps[j].action.Call? && steps[k].action.Decide?
    requires steps[j].thread == steps[k].thread
    ensures var t, pc := steps[i].thread, states[i].threads[steps[i].thread];
            && pc.Returning? && t < |states[i].returned| == |states[i + 1].returned|
            && states[i + 1].returned[t] == states[i].returned[t] + [Event(t, pc.op, pc.result)]
            && (exists p :: 0 <= p < |states[k].log| && states[k].log[p] == Event(t, pc.op, pc.result)
                            && By(states[k].log[..p], t) == states[i].returned[t])
    ensures |states[k].log| < |states[k + 1].log| && states[k].log <= states[k + 1].log
    ensures states[k + 1].log[|states[k].log|].thread == steps[j].thread
  {
    var t := steps[i].thread;
    RunInv(states, steps, capacity, i);
    LogOnlyGrows(states, steps, capacity, i, k);
    hide By, Legal, Replay;
    var s, log := states[i], states[k].log;
    assert By(s.log, t) == s.returned[t] + InFlight(s.threads[t], t);
    var p := NthEvent(s.log, t, |s.returned[t]|);
    assert log[p] == s.log[p] && log[..p] == s.log[..p];
  }

  /** No lost wakeup, whatever barges in and however many spurious wakeups there are: while a
      thread sleeps on a condition, everything available to it is matched by a thread
      woken and not yet decided, or by a signal the mutex holder has still to send. */
  lemma {:induction false} WakeupsAreNotLost(states: seq<State>, steps: seq<Step>, capacity: nat, i: nat, t: nat)
    requires IsRun(states, steps, capacity) && i < |states|
    requires t < |states[i].threads| && states[i].threads[t].Asleep?
    ensures var c := if states[i].threads[t].op.Pop? then NotEmpty else NotFull;
            Available(states[i].ring, c) <=
            Totals.Sum(states[i].threads, RousedOn(c)) + (if PendingSignal(states[i], c) then 1 else 0)
  {
    RunInv(states, steps, capacity, i);
    var c := if states[i].threads[t].op.Pop? then NotEmpty else NotFull;
    assert SleepsOn(states[i].threads[t], c);
    assert NoLostWakeup(states[i], c);
  }

  // ---------------------------------------------------------------------------
  // Deadlock
  // ---------------------------------------------------------------------------

  /** A step some thread can take by itself: not a new call and not a spurious wakeup. */
  predicate Advances(s: State, step: Step) {
    Enabled(s, step) && !step.action.Call? && !step.action.WakeSpuriously?
  }

  ghost predicate CanAdvance(s: State) {
    exists step :: Advances(s, step)
  }

  predicate Quiescent(s: State) {
    forall t :: 0 <= t < |s.threads| ==> s.threads[t].Idle? || s.threads[t].Asleep?
  }

  function Sleepers(threads: seq<PC>, c: Cond): (sleepers: set<nat>)
    ensures forall broadcast :: MayWake(threads, c, sleepers, broadcast)
  {
    var sleepers := set i: nat | i < |threads| && SleepsOn(threads[i], c);
    assert forall i: nat :: i < |threads| && SleepsOn(threads[i], c) ==> i in sleepers;
    sleepers
  }

  lemma {:induction false} HolderAdvances(s: State, t: nat)
    requires Inv(s) && t < |s.threads| && Holds(s.threads[t])
    ensures CanAdvance(s)
  {
    assert Sensible(s.threads[t]) && s.owner == Some(t);
    hide Linearized, NoLostWakeup, NoSleepAfterShutdown, Ring.Contents;
    var pc := s.threads[t];
    var action :=
      match pc
      case Testing(op, _) => if s.ring.MustWait(op) then Wait else Decide
      case Signalling(op, _) => Notify(Sleepers(s.threads, if op.Pop? then NotFull else NotEmpty))
      case HalfBroadcast(_, _) => Notify(Sleepers(s.threads, NotFull))
      case _ => Unlock;
    assert Advances(s, Step(t, action));
  }

  /** The system stands still only when every thread is outside the buffer or asleep. */
  lemma {:induction false} StandsStillOnlyAsleep(s: State)
    requires Inv(s)
    ensures CanAdvance(s) <==> !Quiescent(s)
  {
    if !Quiescent(s) {
      var t :| 0 <= t < |s.threads| && !(s.threads[t].Idle? || s.threads[t].Asleep?);
      if s.owner.Some? {
        HolderAdvances(s, s.owner.value);
      } else {
        assert Advances(s, Step(t, if s.threads[t].Returning? then Return else Lock));
      }
    }
  }

  predicate InPush(pc: PC) { !pc.Idle? && pc.op.Push? }
  predicate InPop(pc: PC) { !pc.Idle? && pc.op.Pop? }

  lemma {:induction false} QuiescentSleepers(s: State, c: Cond)
    requires Inv(s) && Quiescent(s) && SomeoneAsleep(s, c)
    ensures Available(s.ring, c) == 0 && !s.ring.shutdown
  {
    assert NoLostWakeup(s, c) && NoSleepAfterShutdown(s, c);
    Totals.SumZero(s.threads, RousedOn(c));
  }

  /** With room for at least one record the buffer cannot deadlock: when nothing can move,
      all calls in progress are pops on an empty buffer, or all are pushes on a full one. */
  lemma {:induction false} DeadlockFreedom(states: seq<State>, steps: seq<Step>, capacity: nat, i: nat)
    requires IsRun(states, steps, capacity) && i < |states| && capacity >= 1
    ensures var s := states[i];
            !CanAdvance(s) ==>
              || (forall t :: 0 <= t < |s.threads| ==> s.threads[t].Idle?)
              || (s.ring.count == 0 && !s.ring.shutdown &&
                  forall t :: 0 <= t < |s.threads| ==> s.threads[t].Idle? || InPop(s.threads[t]))
              || (s.ring.count == capacity && !s.ring.shutdown &&
                  forall t :: 0 <= t < |s.threads| ==> s.threads[t].Idle? || InPush(s.threads[t]))
    ensures (exists t, u :: 0 <= t < |states[i].threads| && 0 <= u < |states[i].threads|
                            && InPush(states[i].threads[t]) && InPop(states[i].threads[u])) ==> CanAdvance(states[i])
  {
    var s := states[i];
    RunInv(states, steps, capacity, i);
    StandsStillOnlyAsleep(s);
    if !CanAdvance(s) {
      forall t | 0 <= t < |s.threads| && !s.threads[t].Idle?
        ensures SleepsOn(s.threads[t], if s.threads[t].op.Pop? then NotEmpty else NotFull)
      {
        assert Sensible(s.threads[t]);
      }
      if SomeoneAsleep(s, NotEmpty) { QuiescentSleepers(s, NotEmpty); }
      if SomeoneAsleep(s, NotFull) { QuiescentSleepers(s, NotFull); }
    }
  }

  /** The capacity check missing from buffer_init matters: with capacity 0 a push and a pop
      can both be in progress with nothing left to move. */
  lemma {:induction false} ZeroCapacityDeadlocks(item: VehicleData) returns (states: seq<State>, steps: seq<Step>)
    ensures IsRun(states, steps, 0)
    ensures var s := states[|states| - 1];
            |s.threads| == 2 && InPush(s.threads[0]) && InPop(s.threads[1]) && !CanAdvance(s)
  {
    var s0 := State(Ring([], 0, 0, 0, false), None, [Idle, Idle], [], [[], []]);
    steps := [Step(0, Call(Push(item))), Step(0, Lock), Step(0, Wait),
              Step(1, Call(Pop)), Step(1, Lock), Step(1, Wait)];
    var s1 := Next(s0, steps[0]);
    var s2 := Next(s1, steps[1]);
    var s3 := Next(s2, steps[2]);
    var s4 := Next(s3, steps[3]);
    var s5 := Next(s4, steps[4]);
    var s6 := Next(s5, steps[5]);
    states := [s0, s1, s2, s3, s4, s5, s6];
    assert s6.threads == [Asleep(Push(item)), Asleep(Pop)];
    AsleepCannotAdvance(s6);
  }

  lemma {:induction false} AsleepCannotAdvance(s: State)
    requires Quiescent(s)
    ensures !CanAdvance(s)
  {
  }

  // ---------------------------------------------------------------------------
  // Shutdown
  // ---------------------------------------------------------------------------

  /** The flag is set and the thread that set it has finished its broadcasts. */
  predicate ShutDown(s: State) {
    s.ring.shutdown && !PendingBroadcast(s, NotFull)
  }

  predicate NobodyAsleep(s: State) {
    forall t :: 0 <= t < |s.threads| ==> !s.threads[t].Asleep?
  }

  lemma {:induction false} StaysAwake(states: seq<State>, steps: seq<Step>, capacity: nat, i: nat, j: nat)
    requires IsRun(states, steps, capacity) && i <= j < |states|
    requires states[i].ring.shutdown && NobodyAsleep(states[i])
    ensures states[j].ring.shutdown && NobodyAsleep(states[j])
  {
    if i < j {
      StaysAwake(states, steps, capacity, i, j - 1);
      assert Enabled(states[j - 1], steps[j - 1]);
    }
  }

  /** Shutdown releases everyone: once its broadcasts are out nobody is asleep, and nobody
      ever falls asleep again. */
  lemma {:induction false} ShutdownReleases(states: seq<State>, steps: seq<Step>, capacity: nat, i: nat, j: nat)
    requires IsRun(states, steps, capacity) && i <= j < |states|
    requires ShutDown(states[i])
    ensures states[j].ring.shutdown && NobodyAsleep(states[j])
  {
    RunInv(states, steps, capacity, i);
    var s := states[i];
    assert NoSleepAfterShutdown(s, NotEmpty) && NoSleepAfterShutdown(s, NotFull);
    forall t | 0 <= t < |s.threads|
      ensures !s.threads[t].Asleep?
    {
      assert Sensible(s.threads[t]);
      assert !SleepsOn(s.threads[t], NotEmpty) && !SleepsOn(s.threads[t], NotFull);
    }
    StaysAwake(states, steps, capacity, i, j);
  }

  lemma {:induction false} ShutdownInLog(log: seq<Event>, e: Event)
    requires e in log && e.op == Shutdown
    ensures Replay(log).shutdown
  {
    if e != log[|log| - 1] {
      ShutdownInLog(log[..|log| - 1], e);
    }
  }

  /** In particular once a thread that has signalled the shutdown releases the mutex: from then
      on the flag is set and nobody is asleep. */
  lemma {:induction false} ShutdownTakesHold(states: seq<State>, steps: seq<Step>, capacity: nat, i: nat, j: nat)
    requires IsRun(states, steps, capacity) && i < j < |states|
    requires steps[i].action == Unlock && states[i].threads[steps[i].thread].op == Shutdown
    ensures states[j].ring.shutdown
    ensures forall t :: 0 <= t < |states[j].threads| ==> !states[j].threads[t].Asleep?
  {
    RunInv(states, steps, capacity, i);
    var s, t := states[i], steps[i].thread;
    var e := Event(t, Shutdown, s.threads[t].result);
    assert e in By(s.log, t);
    ByIsInLog(s.log, t, e);
    ShutdownInLog(s.log, e);
    assert s.ring.Queued().shutdown;
    assert states[i + 1] == Next(s, steps[i]);
    ShutdownReleases(states, steps, capacity, i + 1, j);
  }

  /** Shutdown drains, seen from the threads: from the moment the flag is set no push is
      accepted, and what the array held then goes out in order to the pops that follow,
      one each until it is exhausted. */
  lemma {:induction false} ShutdownDrainsRun(states: seq<State>, steps: seq<Step>, capacity: nat, i: nat, j: nat)
    requires IsRun(states, steps, capacity) && i <= j < |states|
    requires states[i].ring.shutdown
    ensures states[i].ring.WellFormed() && states[i].log <= states[j].log
    ensures Accepted(states[j].log) == Accepted(states[i].log)
    ensures var queued := states[i].ring.Contents();
            var pops := Pops(states[j].log[|states[i].log|..]);
            Delivered(states[j].log) == Delivered(states[i].log) + queued[..Min(pops, |queued|)]
    ensures forall k :: |states[i].log| <= k < |states[j].log| && states[j].log[k].op.Push? ==>
              states[j].log[k].result == Pushed(false)
    ensures forall k :: |states[i].log| <= k < |states[j].log| && states[j].log[k].op.Pop? ==>
              (states[j].log[k].result == Popped(None) <==>
               Pops(states[j].log[|states[i].log|..k]) >= states[i].ring.count)
  {
    RunInv(states, steps, capacity, i);
    RunInv(states, steps, capacity, j);
    LogOnlyGrows(states, steps, capacity, i, j);
    hide Legal, Replay, Accepted, Delivered, Pops;
    DrainsFrom(states[i].log, states[j].log, capacity);
  }

  /** How many steps a call still needs when nobody sleeps. */
  function StepsLeft(pc: PC): nat {
    match pc
    case Idle => 0
    case Returning(_, _) => 1
    case Unlocking(_, _) => 2
    case HalfBroadcast(_, _) => 3
    case Signalling(_, _) => 4
    case Testing(_, _) => 5
    case Locking(_) => 6
    case Woken(_) => 6
    case Asleep(_) => 7
  }

  /** After shutdown every step but a new call brings the calls in progress closer to their
      return, for any number of threads; and while any call is in progress there is a step. */
  lemma {:induction false} ShutdownCompletes(states: seq<State>, steps: seq<Step>, capacity: nat, i: nat)
    requires IsRun(states, steps, capacity) && i < |steps|
    requires states[i].ring.shutdown && NobodyAsleep(states[i]) && !steps[i].action.Call?
    ensures Totals.Sum(states[i + 1].threads, StepsLeft) < Totals.Sum(states[i].threads, StepsLeft)
  {
    hide Totals.Sum, Linearized;
    var s, step := states[i], steps[i];
    RunInv(states, steps, capacity, i);
    if step.action.Notify? {
      assert Wake(s.threads, step.action.woken) == s.threads;
    }
    Totals.SumUpdate(s.threads, step.thread, states[i + 1].threads[step.thread], StepsLeft);
  }

  lemma {:induction false} StepsLeftBoundsRun(states: seq<State>, steps: seq<Step>, capacity: nat, i: nat, j: nat)
    requires IsRun(states, steps, capacity) && i <= j < |states|
    requires states[i].ring.shutdown && NobodyAsleep(states[i])
    requires forall k :: i <= k < j ==> !steps[k].action.Call?
    ensures j - i + Totals.Sum(states[j].threads, StepsLeft) <= Totals.Sum(states[i].threads, StepsLeft)
  {
    if i < j {
      StepsLeftBoundsRun(states, steps, capacity, i, j - 1);
      StaysAwake(states, steps, capacity, i, j - 1);
      ShutdownCompletes(states, steps, capacity, j - 1);
    }
  }

  lemma {:induction false} SixStepsEach(threads: seq<PC>)
    requires forall t :: 0 <= t < |threads| ==> !threads[t].Asleep?
    ensures Totals.Sum(threads, StepsLeft) <= 6 * |threads|
  {
    if threads != [] {
      SixStepsEach(threads[1..]);
    }
  }

  /** Hence every blocked push and pop returns after shutdown: with no new calls, at most
      six more steps per thread can be taken, and when no step is left every call has
      returned. */
  lemma {:induction false} ShutdownTerminates(states: seq<State>, steps: seq<Step>, capacity: nat, i: nat, j: nat)
    requires IsRun(states, steps, capacity) && i <= j < |states|
    requires ShutDown(states[i]) && forall k :: i <= k < j ==> !steps[k].action.Call?
    ensures j - i <= 6 * |states[0].threads|
    ensures !CanAdvance(states[j]) ==> forall t :: 0 <= t < |states[j].threads| ==> states[j].threads[t].Idle?
  {
    RunInv(states, steps, capacity, i);
    RunInv(states, steps, capacity, j);
    ShutdownReleases(states, steps, capacity, i, i);
    ShutdownReleases(states, steps, capacity, i, j);
    StepsLeftBoundsRun(states, steps, capacity, i, j);
    SixStepsEach(states[i].threads);
    StandsStillOnlyAsleep(states[j]);
  }
}
