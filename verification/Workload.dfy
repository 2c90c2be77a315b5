/** Threads with a fixed list of calls to make, as in the throughput benchmark: how long they
    can run, and what they have achieved when they stop. */
module Workload {
  import opened Records
  import opened BoundedQueue
  import opened Rings
  import opened Monitor
  import opened MonitorSafety
  import opened Totals

  /** The calls each thread has still to make. */
  type Scripts = seq<seq<Op>>

  /** Steps of scripted threads: a thread calls what comes next in its script, and nobody
      wakes without being signalled. */
  predicate Follows(s: State, scripts: Scripts, step: Step) {
    && Enabled(s, step) && !step.action.WakeSpuriously?
    && |scripts| == |s.threads|
    && (step.action.Call? ==> scripts[step.thread] != [] && scripts[step.thread][0] == step.action.op)
  }

  function Rest(scripts: Scripts, step: Step): Scripts
    requires step.action.Call? ==> step.thread < |scripts| && scripts[step.thread] != []
  {
    if step.action.Call? then scripts[step.thread := scripts[step.thread][1..]] else scripts
  }

  ghost predicate IsScriptedRun(states: seq<State>, scripts: seq<Scripts>, steps: seq<Step>, capacity: nat) {
    && IsRun(states, steps, capacity)
    && |scripts| == |states| && |scripts[0]| == |states[0].threads|
    && forall i :: 0 <= i < |steps| ==>
         Follows(states[i], scripts[i], steps[i]) && scripts[i + 1] == Rest(scripts[i], steps[i])
  }

  // ---------------------------------------------------------------------------
  // Termination
  // ---------------------------------------------------------------------------

  /** Steps a thread may still take for its current call, where n threads may each be woken
      by any signal only to go back to sleep. */
  function Cost(n: nat): PC -> nat {
    (pc: PC) =>
      match pc
      case Idle => 0
      case Returning(_, _) => 1
      case Unlocking(_, _) => 2
      case HalfBroadcast(_, _) => 2 * n + 3
      case Signalling(op, _) => if op.Shutdown? then 4 * n + 4 else 2 * n + 3
      case Asleep(_) => 4 * n + 4
      case Testing(_, _) => 4 * n + 5
      case Woken(_) => 4 * n + 6
      case Locking(_) => 4 * n + 6
  }

  function ScriptCost(n: nat): seq<Op> -> nat {
    (script: seq<Op>) => (4 * n + 7) * |script|
  }

  function Measure(s: State, scripts: Scripts): nat {
    Sum(s.threads, Cost(|s.threads|)) + Sum(scripts, ScriptCost(|s.threads|))
  }

  lemma {:induction false} NotifyCosts(s: State, step: Step)
    requires Locks(s) && Enabled(s, step) && step.action.Notify?
    ensures Sum(Next(s, step).threads, Cost(|s.threads|)) < Sum(s.threads, Cost(|s.threads|))
  {
    var n, t, cost, woke := |s.threads|, step.thread, Cost(|s.threads|), Wake(s.threads, step.action.woken);
    var pc' := Next(s, step).threads[t];
    SumMonotone(woke, s.threads, cost, 2);
    SumUpdate(woke, t, pc', cost);
    assert woke[t] == s.threads[t];
    assert cost(pc') + 2 * n < cost(woke[t]);
  }

  lemma {:induction false} CallCosts(scripts: Scripts, t: nat, n: nat)
    requires t < |scripts| && scripts[t] != []
    ensures Sum(scripts[t := scripts[t][1..]], ScriptCost(n)) + 4 * n + 7 == Sum(scripts, ScriptCost(n))
  {
    SumUpdate(scripts, t, scripts[t][1..], ScriptCost(n));
    var k, rest := 4 * n + 7, |scripts[t]| - 1;
    assert k * (rest + 1) == k * rest + k;
  }

  lemma {:induction false} OwnStepCosts(s: State, step: Step)
    requires Enabled(s, step) && !step.action.Notify? && !step.action.WakeSpuriously?
    ensures var n, pc, pc' := |s.threads|, s.threads[step.thread], Next(s, step).threads[step.thread];
            && Cost(n)(pc') < Cost(n)(pc) + (if step.action.Call? then 4 * n + 7 else 0)
            && Next(s, step).threads == s.threads[step.thread := pc']
  {
  }

  /** Whatever the scripts, shutdowns included, and whichever sleepers each signal wakes,
      every step uses up some of the measure. */
  lemma {:induction false} MeasureDrops(s: State, scripts: Scripts, step: Step)
    requires Locks(s) && Follows(s, scripts, step)
    ensures Measure(Next(s, step), Rest(scripts, step)) < Measure(s, scripts)
    ensures |Rest(scripts, step)| == |scripts| == |Next(s, step).threads|
  {
    var t, pc' := step.thread, Next(s, step).threads[step.thread];
    if step.action.Notify? {
      NotifyCosts(s, step);
    } else {
      SumUpdate(s.threads, t, pc', Cost(|s.threads|));
      OwnStepCosts(s, step);
      hide Cost;
      if step.action.Call? {
        CallCosts(scripts, t, |s.threads|);
      }
    }
  }

  lemma {:induction false} MeasureBoundsRun(
    states: seq<State>, scripts: seq<Scripts>, steps: seq<Step>, capacity: nat, i: nat)
    requires IsScriptedRun(states, scripts, steps, capacity) && i < |states|
    ensures |scripts[i]| == |states[i].threads|
    ensures i + Measure(states[i], scripts[i]) <= Measure(states[0], scripts[0])
  {
    hide Measure, Locks, Linearized, NoLostWakeup, NoSleepAfterShutdown, Init, Next, Rest, Enabled;
    if i > 0 {
      MeasureBoundsRun(states, scripts, steps, capacity, i - 1);
      RunInv(states, steps, capacity, i - 1);
      MeasureDrops(states[i - 1], scripts[i - 1], steps[i - 1]);
    }
  }

  function Length(script: seq<Op>): nat { |script| }

  lemma {:induction false} ScriptCostIsLinear(scripts: Scripts, n: nat)
    ensures Sum(scripts, ScriptCost(n)) == (4 * n + 7) * Sum(scripts, Length)
  {
    if scripts != [] {
      ScriptCostIsLinear(scripts[1..], n);
      var k, a, b := 4 * n + 7, |scripts[0]|, Sum(scripts[1..], Length);
      assert k * (a + b) == k * a + k * b;
    }
  }

  /** Every scripted run is finite: n threads making m calls in all take at most (4n + 7)m
      steps, however the calls are mixed and however the steps interleave. */
  lemma {:induction false} ScriptedRunsTerminate(
    states: seq<State>, scripts: seq<Scripts>, steps: seq<Step>, capacity: nat)
    requires IsScriptedRun(states, scripts, steps, capacity)
    ensures |steps| <= (4 * |states[0].threads| + 7) * Sum(scripts[0], Length)
  {
    var n := |states[0].threads|;
    MeasureBoundsRun(states, scripts, steps, capacity, |steps|);
    SumZero(states[0].threads, Cost(n));
    ScriptCostIsLinear(scripts[0], n);
  }

  // ---------------------------------------------------------------------------
  // Producers and consumers that balance
  // ---------------------------------------------------------------------------

  function Ops(events: seq<Event>): seq<Op> {
    seq(|events|, i requires 0 <= i < |events| => events[i].op)
  }

  function Current(pc: PC): seq<Op> {
    if pc.Idle? then [] else [pc.op]
  }

  predicate Has(op: Op, c: Cond) {
    if c == NotFull then op.Push? else op.Pop?
  }

  /** The calls of one kind in a script. */
  function Calls(c: Cond): seq<Op> -> nat {
    (script: seq<Op>) => CallsIn(script, c)
  }

  function CallsIn(script: seq<Op>, c: Cond): nat {
    if script == [] then 0 else (if Has(script[0], c) then 1 else 0) + CallsIn(script[1..], c)
  }

  function Undecided(c: Cond): PC -> nat {
    (pc: PC) =>
      if (pc.Locking? || pc.Testing? || pc.Asleep? || pc.Woken?) && Has(pc.op, c) then 1 else 0
  }

  predicate PushesAndPops(scripts: Scripts) {
    forall t, i :: 0 <= t < |scripts| && 0 <= i < |scripts[t]| ==> scripts[t][i].Push? || scripts[t][i].Pop?
  }

  /** In no script does a call of kind d come after one of kind c. */
  predicate NoneAfter(scripts: Scripts, c: Cond, d: Cond) {
    forall t, i, j :: 0 <= t < |scripts| && 0 <= i < j < |scripts[t]| ==>
      Has(scripts[t][i], c) ==> !Has(scripts[t][j], d)
  }

  /** No thread pushes after it has popped; and no thread pops after it has pushed, unless
      all the pushes fit into the buffer at once. */
  predicate Orderly(scripts: Scripts, capacity: nat) {
    && PushesAndPops(scripts)
    && NoneAfter(scripts, NotEmpty, NotFull)
    && (NoneAfter(scripts, NotFull, NotEmpty) || Sum(scripts, Calls(NotFull)) <= capacity)
  }

  /** Each thread only pushes or only pops. */
  predicate OneRoleEach(scripts: Scripts) {
    forall t :: 0 <= t < |scripts| ==>
      || (forall i :: 0 <= i < |scripts[t]| ==> scripts[t][i].Push?)
      || (forall i :: 0 <= i < |scripts[t]| ==> scripts[t][i].Pop?)
  }

  lemma {:induction false} OneRoleIsOrderly(scripts: Scripts, capacity: nat)
    requires OneRoleEach(scripts)
    ensures Orderly(scripts, capacity)
  {
  }

  /** Calls of one kind that have still to take effect. */
  function Outstanding(s: State, scripts: Scripts, c: Cond): nat {
    Sum(s.threads, Undecided(c)) + Sum(scripts, Calls(c))
  }

  /** Every thread is where its original script says, and nobody has shut the buffer down. */
  predicate OnScript(s: State, scripts: Scripts, original: Scripts) {
    && |scripts| == |original| == |s.threads| == |s.returned|
    && !s.ring.shutdown
    && forall t :: 0 <= t < |original| ==>
         Ops(s.returned[t]) + Current(s.threads[t]) + scripts[t] == original[t]
  }

  lemma {:induction false} OnScriptMembers(s: State, scripts: Scripts, original: Scripts, t: nat)
    requires OnScript(s, scripts, original) && t < |original|
    ensures !s.threads[t].Idle? ==> s.threads[t].op in original[t]
    ensures forall op :: op in scripts[t] ==> op in original[t]
  {
    assert original[t] == Ops(s.returned[t]) + Current(s.threads[t]) + scripts[t];
    if !s.threads[t].Idle? {
      assert s.threads[t].op in Current(s.threads[t]);
    }
  }

  lemma {:induction false} OnScriptKept(s: State, scripts: Scripts, original: Scripts, step: Step)
    requires Inv(s) && OnScript(s, scripts, original) && Follows(s, scripts, step) && PushesAndPops(original)
    ensures OnScript(Next(s, step), Rest(scripts, step), original)
  {
    var s', scripts' := Next(s, step), Rest(scripts, step);
    OnScriptMembers(s, scripts, original, step.thread);
    assert !s'.ring.shutdown && |scripts'| == |original| == |s'.threads| == |s'.returned|;
    hide Next, Inv, Rest, Follows, Ops, Current;
    forall t | 0 <= t < |original|
      ensures Ops(s'.returned[t]) + Current(s'.threads[t]) + scripts'[t] == original[t]
    {
      ThreadOnScript(s, scripts, step, t);
    }
  }

  /** What a thread has done, is doing and has to do stays the same together. */
  lemma {:induction false} ThreadOnScript(s: State, scripts: Scripts, step: Step, t: nat)
    requires Follows(s, scripts, step) && t < |s.threads|
    ensures var s', scripts' := Next(s, step), Rest(scripts, step);
            Ops(s'.returned[t]) + Current(s'.threads[t]) + scripts'[t] ==
            Ops(s.returned[t]) + Current(s.threads[t]) + scripts[t]
  {
    var s', scripts' := Next(s, step), Rest(scripts, step);
    if t == step.thread && step.action.Call? {
      assert scripts[t] == [scripts[t][0]] + scripts[t][1..];
      assert Current(s.threads[t]) == [];
    } else if t == step.thread && step.action.Return? {
      assert Ops(s'.returned[t]) == Ops(s.returned[t]) + Current(s.threads[t]);
      assert Current(s'.threads[t]) == [];
    } else {
      assert Current(s'.threads[t]) == Current(s.threads[t]);
    }
  }

  function Effective(log: seq<Event>, c: Cond): nat {
    if c == NotFull then |Accepted(log)| else |Delivered(log)|
  }

  lemma {:induction false} DecideSettles(s: State, step: Step, c: Cond)
    requires Enabled(s, step) && step.action == Decide && !s.ring.shutdown
    requires s.threads[step.thread].op.Push? || s.threads[step.thread].op.Pop?
    ensures Effective(Next(s, step).log, c) + Undecided(c)(Next(s, step).threads[step.thread]) ==
            Effective(s.log, c) + Undecided(c)(s.threads[step.thread])
  {
    var t, pc := step.thread, s.threads[step.thread];
    Append(s.log, Event(t, pc.op, s.ring.Reply(pc.op)));
  }

  lemma {:induction false} NotifySettlesNothing(s: State, step: Step, c: Cond)
    requires Locks(s) && Enabled(s, step) && step.action.Notify?
    ensures Sum(Next(s, step).threads, Undecided(c)) == Sum(s.threads, Undecided(c))
  {
    var t, woke := step.thread, Wake(s.threads, step.action.woken);
    SumMonotone(woke, s.threads, Undecided(c), 0);
    SumMonotone(s.threads, woke, Undecided(c), 0);
    assert woke[t] == s.threads[t];
    SumUpdate(woke, t, Next(s, step).threads[t], Undecided(c));
  }

  lemma {:induction false} OtherStepSettlesNothing(s: State, step: Step, c: Cond)
    requires Enabled(s, step) && !step.action.Call? && !step.action.Decide? && !step.action.Notify?
    ensures Undecided(c)(Next(s, step).threads[step.thread]) == Undecided(c)(s.threads[step.thread])
  {
  }

  /** Only calls and decisions change the log and the number of calls in progress. */
  lemma {:induction false} ThreadsSettle(s: State, step: Step, c: Cond)
    requires Locks(s) && Enabled(s, step) && !s.ring.shutdown
    requires step.action == Decide ==> s.threads[step.thread].op.Push? || s.threads[step.thread].op.Pop?
    ensures var s' := Next(s, step);
            Effective(s'.log, c) + Sum(s'.threads, Undecided(c)) ==
            Effective(s.log, c) + Sum(s.threads, Undecided(c))
            + (if step.action.Call? && Has(step.action.op, c) then 1 else 0)
  {
    var t, s' := step.thread, Next(s, step);
    if step.action.Notify? {
      NotifySettlesNothing(s, step, c);
    } else {
      assert s'.threads == s.threads[t := s'.threads[t]];
      SumUpdate(s.threads, t, s'.threads[t], Undecided(c));
      if step.action.Decide? {
        DecideSettles(s, step, c);
      } else if !step.action.Call? {
        OtherStepSettlesNothing(s, step, c);
      }
    }
  }

  /** A call is outstanding until it takes effect. */
  lemma {:induction false} OutstandingKept(s: State, scripts: Scripts, original: Scripts, step: Step, c: Cond)
    requires Inv(s) && OnScript(s, scripts, original) && Follows(s, scripts, step) && PushesAndPops(original)
    ensures Effective(Next(s, step).log, c) + Outstanding(Next(s, step), Rest(scripts, step), c) ==
            Effective(s.log, c) + Outstanding(s, scripts, c)
  {
    var t := step.thread;
    OnScriptMembers(s, scripts, original, t);
    hide Next, OnScript, Effective, Undecided;
    assert step.action == Decide ==> s.threads[t].op in original[t];
    ThreadsSettle(s, step, c);
    if step.action.Call? {
      SumUpdate(scripts, t, scripts[t][1..], Calls(c));
    }
  }

  ghost predicate Balance(s: State, scripts: Scripts, original: Scripts) {
    forall c :: Effective(s.log, c) + Outstanding(s, scripts, c) == Sum(original, Calls(c))
  }

  lemma {:induction false} BalanceInit(s: State, scripts: Scripts, capacity: nat)
    requires Init(s, capacity)
    ensures |scripts| == |s.threads| ==> OnScript(s, scripts, scripts)
    ensures Balance(s, scripts, scripts)
  {
    forall c: Cond
      ensures Effective(s.log, c) + Outstanding(s, scripts, c) == Sum(scripts, Calls(c))
    {
      SumZero(s.threads, Undecided(c));
    }
  }

  lemma {:induction false} BalanceKept(s: State, scripts: Scripts, original: Scripts, step: Step)
    requires Inv(s) && OnScript(s, scripts, original) && Follows(s, scripts, step) && PushesAndPops(original)
    requires Balance(s, scripts, original)
    ensures OnScript(Next(s, step), Rest(scripts, step), original)
    ensures Balance(Next(s, step), Rest(scripts, step), original)
  {
    OnScriptKept(s, scripts, original, step);
    forall c: Cond
      ensures Effective(Next(s, step).log, c) + Outstanding(Next(s, step), Rest(scripts, step), c)
              == Sum(original, Calls(c))
    {
      OutstandingKept(s, scripts, original, step, c);
    }
  }

  lemma {:induction false} ScriptedRunInv(
    states: seq<State>, scripts: seq<Scripts>, steps: seq<Step>, capacity: nat, i: nat)
    requires IsScriptedRun(states, scripts, steps, capacity) && i < |states| && PushesAndPops(scripts[0])
    ensures OnScript(states[i], scripts[i], scripts[0])
    ensures Balance(states[i], scripts[i], scripts[0])
  {
    hide Inv, OnScript, Balance, Next, Init, Rest, PushesAndPops;
    if i == 0 {
      BalanceInit(states[0], scripts[0], capacity);
    } else {
      RunInv(states, steps, capacity, i - 1);
      ScriptedRunInv(states, scripts, steps, capacity, i - 1);
      BalanceKept(states[i - 1], scripts[i - 1], scripts[0], steps[i - 1]);
    }
  }

  lemma {:induction false} NoCalls(script: seq<Op>, c: Cond)
    requires forall i :: 0 <= i < |script| ==> !Has(script[i], c)
    ensures CallsIn(script, c) == 0
  {
    if script != [] {
      NoCalls(script[1..], c);
    }
  }

  ghost predicate CanFollow(s: State, scripts: Scripts) {
    exists step :: Follows(s, scripts, step)
  }

  lemma {:induction false} StoppedThreads(s: State, scripts: Scripts)
    requires Inv(s) && |scripts| == |s.threads| && !CanFollow(s, scripts)
    ensures Quiescent(s)
    ensures forall t :: 0 <= t < |s.threads| && s.threads[t].Idle? ==> scripts[t] == []
  {
    StandsStillOnlyAsleep(s);
    if CanAdvance(s) {
      var step :| Advances(s, step);
      assert Follows(s, scripts, step);
    }
    forall t | 0 <= t < |s.threads| && s.threads[t].Idle?
      ensures scripts[t] == []
    {
      if scripts[t] != [] {
        assert Follows(s, scripts, Step(t, Call(scripts[t][0])));
      }
    }
  }

  /** If everyone asleep waits on c, and no call that would help them comes later in a script
      than one like theirs, none is outstanding. */
  lemma {:induction false} NoHelpOutstanding(s: State, scripts: Scripts, original: Scripts, c: Cond, help: Cond)
    requires Inv(s) && OnScript(s, scripts, original) && !CanFollow(s, scripts)
    requires c != help && !SomeoneAsleep(s, help) && NoneAfter(original, c, help)
    ensures Outstanding(s, scripts, help) == 0
  {
    StoppedThreads(s, scripts);
    forall t | 0 <= t < |s.threads|
      ensures Undecided(help)(s.threads[t]) == 0 && Calls(help)(scripts[t]) == 0
    {
      if s.threads[t].Asleep? {
        assert Sensible(s.threads[t]) && !SleepsOn(s.threads[t], help);
        assert Has(s.threads[t].op, c);
        NothingAfter(s, scripts, original, t, c, help);
      }
      NoCalls(scripts[t], help);
    }
    SumZero(s.threads, Undecided(help));
    SumZero(scripts, Calls(help));
  }

  lemma {:induction false} NothingAfter(s: State, scripts: Scripts, original: Scripts, t: nat, c: Cond, help: Cond)
    requires OnScript(s, scripts, original) && t < |s.threads| && NoneAfter(original, c, help)
    requires !s.threads[t].Idle? && Has(s.threads[t].op, c)
    ensures forall i :: 0 <= i < |scripts[t]| ==> !Has(scripts[t][i], help)
  {
    var now := |s.returned[t]|;
    assert original[t] == Ops(s.returned[t]) + [s.threads[t].op] + scripts[t];
    assert original[t][now] == s.threads[t].op;
    forall i | 0 <= i < |scripts[t]|
      ensures !Has(scripts[t][i], help)
    {
      assert original[t][now + 1 + i] == scripts[t][i];
    }
  }

  lemma {:induction false} NobodyLeftAsleep(s: State, scripts: Scripts, original: Scripts, c: Cond)
    requires Inv(s) && OnScript(s, scripts, original) && !CanFollow(s, scripts)
    requires |s.ring.data| >= 1 && Orderly(original, |s.ring.data|)
    requires Sum(original, Calls(NotFull)) == Sum(original, Calls(NotEmpty))
    requires Balance(s, scripts, original)
    ensures !SomeoneAsleep(s, c)
  {
    if SomeoneAsleep(s, c) {
      var other := if c == NotEmpty then NotFull else NotEmpty;
      StoppedThreads(s, scripts);
      QuiescentSleepers(s, c);
      if SomeoneAsleep(s, other) {
        QuiescentSleepers(s, other);
      }
      LegalIsFifo(s.log, |s.ring.data|);
      var t :| 0 <= t < |s.threads| && SleepsOn(s.threads[t], c);
      SumAtLeast(s.threads, t, Undecided(c));
      if NoneAfter(original, c, other) {
        NoHelpOutstanding(s, scripts, original, c, other);
      }
    }
  }

  lemma {:induction false} OpenLogSucceeds(log: seq<Event>, capacity: nat, i: nat)
    requires Legal(log, capacity) && !Replay(log).shutdown && i < |log|
    ensures log[i].op.Push? ==> log[i].result == Pushed(true)
    ensures log[i].op.Pop? ==> log[i].result.Popped? && log[i].result.item.Some?
    decreases |log|
  {
    if i < |log| - 1 {
      OpenLogSucceeds(log[..|log| - 1], capacity, i);
    }
  }

  /** When as many pops as pushes are scripted, in an orderly way, as by threads that do only
      one of the two, and the buffer has room for at least one record, every run that has
      stopped has done it all: every call has returned, in script order and successfully,
      and the buffer is empty. */
  lemma {:induction false} BalancedWorkloadCompletes(
    states: seq<State>, scripts: seq<Scripts>, steps: seq<Step>, capacity: nat)
    requires IsScriptedRun(states, scripts, steps, capacity) && capacity >= 1
    requires Orderly(scripts[0], capacity) && Sum(scripts[0], Calls(NotFull)) == Sum(scripts[0], Calls(NotEmpty))
    requires !CanFollow(states[|steps|], scripts[|steps|])
    ensures var s := states[|steps|];
            && |s.threads| == |s.returned| == |scripts[0]|
            && (forall t :: 0 <= t < |s.threads| ==> s.threads[t].Idle? && Ops(s.returned[t]) == scripts[0][t])
            && (forall t, k :: 0 <= t < |s.threads| && 0 <= k < |s.returned[t]| ==>
                  var result := s.returned[t][k].result;
                  result == Pushed(true) || (result.Popped? && result.item.Some?))
            && s.ring.count == 0
            && |Accepted(s.log)| == |Delivered(s.log)| == Sum(scripts[0], Calls(NotFull))
  {
    var s, rest, original := states[|steps|], scripts[|steps|], scripts[0];
    RunInv(states, steps, capacity, |steps|);
    ScriptedRunInv(states, scripts, steps, capacity, |steps|);
    StoppedThreads(s, rest);
    NobodyLeftAsleep(s, rest, original, NotEmpty);
    NobodyLeftAsleep(s, rest, original, NotFull);
    forall t | 0 <= t < |s.threads|
      ensures s.threads[t].Idle? && rest[t] == [] && Ops(s.returned[t]) == original[t]
    {
      assert Sensible(s.threads[t]);
      assert !SleepsOn(s.threads[t], NotEmpty) && !SleepsOn(s.threads[t], NotFull);
      assert Ops(s.returned[t]) + Current(s.threads[t]) + rest[t] == original[t];
    }
    forall c: Cond
      ensures Effective(s.log, c) == Sum(original, Calls(c))
    {
      SumZero(s.threads, Undecided(c));
      SumZero(rest, Calls(c));
    }
    LegalIsFifo(s.log, capacity);
    forall t, k | 0 <= t < |s.threads| && 0 <= k < |s.returned[t]|
      ensures s.returned[t][k].result == Pushed(true)
              || (s.returned[t][k].result.Popped? && s.returned[t][k].result.item.Some?)
    {
      var e := s.returned[t][k];
      assert By(s.log, t) == s.returned[t] + InFlight(s.threads[t], t);
      ByIsInLog(s.log, t, e);
      var i :| 0 <= i < |s.log| && s.log[i] == e;
      OpenLogSucceeds(s.log, capacity, i);
      assert Ops(s.returned[t])[k] == e.op && e.op == original[t][k];
    }
  }

  /** Balance alone is not enough: one thread that pops before it pushes balances its calls and
      still sleeps for ever. */
  lemma {:induction false} MixedRolesCanStop(item: VehicleData)
    returns (states: seq<State>, scripts: seq<Scripts>, steps: seq<Step>)
    ensures IsScriptedRun(states, scripts, steps, 1)
    ensures Sum(scripts[0], Calls(NotFull)) == Sum(scripts[0], Calls(NotEmpty)) == 1
    ensures !CanFollow(states[|steps|], scripts[|steps|]) && states[|steps|].threads == [Asleep(Pop)]
  {
    hide Sum, CallsIn;
    BalancedScript(item);
    var s0 := State(Ring([item], 0, 0, 0, false), None, [Idle], [], [[]]);
    var scripts0: Scripts := [[Pop, Push(item)]];
    steps := [Step(0, Call(Pop)), Step(0, Lock), Step(0, Wait)];
    var s1 := Next(s0, steps[0]);
    var s2 := Next(s1, steps[1]);
    var s3 := Next(s2, steps[2]);
    var scripts1 := Rest(scripts0, steps[0]);
    states := [s0, s1, s2, s3];
    scripts := [scripts0, scripts1, scripts1, scripts1];
    assert s3.threads == [Asleep(Pop)];
    NobodyCanFollow(s3, scripts1);
  }

  lemma {:induction false} NobodyCanFollow(s: State, scripts: Scripts)
    requires forall t :: 0 <= t < |s.threads| ==> s.threads[t].Asleep?
    ensures !CanFollow(s, scripts)
  {
  }

  lemma {:induction false} BalancedScript(item: VehicleData)
    ensures Sum([[Pop, Push(item)]], Calls(NotFull)) == Sum([[Pop, Push(item)]], Calls(NotEmpty)) == 1
  {
    var script := [Pop, Push(item)];
    assert script[1..] == [Push(item)] && script[1..][1..] == [];
    assert CallsIn([Push(item)], NotFull) == 1 && CallsIn([Push(item)], NotEmpty) == 0;
    assert CallsIn(script, NotFull) == 1 && CallsIn(script, NotEmpty) == 1;
  }
}
