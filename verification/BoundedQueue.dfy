/** What the blocking buffer promises its callers, without arrays, locks or threads:
    a bounded first-in first-out queue that can be shut down. Operations are logged
    at the moment they take effect; a log is legal when every answer in it is the
    one the queue gives at that point. */
module BoundedQueue {
  import opened Records

  datatype Op = Push(item: VehicleData) | Pop | Shutdown | IsShutdown

  datatype Result =
    | Pushed(ok: bool)
    | Popped(item: Option<VehicleData>)
    | ShutdownDone
    | Flag(on: bool)

  datatype Event = Event(thread: nat, op: Op, result: Result)

  datatype Queue = Queue(items: seq<VehicleData>, shutdown: bool)

  /** The operation has to wait. */
  predicate Blocked(q: Queue, capacity: nat, op: Op) {
    !q.shutdown && ((op.Push? && |q.items| == capacity) || (op.Pop? && |q.items| == 0))
  }

  /** Shut down and empty, so that nothing can change any more. */
  predicate Drained(q: Queue) {
    q.shutdown && q.items == []
  }

  function Effect(q: Queue, op: Op): Queue {
    match op
    case Push(item) => if q.shutdown then q else q.(items := q.items + [item])
    case Pop => if q.items == [] then q else q.(items := q.items[1..])
    case Shutdown => q.(shutdown := true)
    case IsShutdown => q
  }

  function Answer(q: Queue, op: Op): Result {
    match op
    case Push(_) => Pushed(!q.shutdown)
    case Pop => Popped(if q.items == [] then None else Some(q.items[0]))
    case Shutdown => ShutdownDone
    case IsShutdown => Flag(q.shutdown)
  }

  function Replay(log: seq<Event>): Queue {
    if log == [] then Queue([], false)
    else Effect(Replay(log[..|log| - 1]), log[|log| - 1].op)
  }

  ghost predicate Legal(log: seq<Event>, capacity: nat) {
    log == [] ||
    var before, last := log[..|log| - 1], log[|log| - 1];
    && Legal(before, capacity)
    && !Blocked(Replay(before), capacity, last.op)
    && last.result == Answer(Replay(before), last.op)
  }

  /** The events of one thread, in log order. */
  function By(log: seq<Event>, t: nat): seq<Event> {
    if log == [] then []
    else By(log[..|log| - 1], t) + (if log[|log| - 1].thread == t then [log[|log| - 1]] else [])
  }

  /** Records of the successful pushes, in log order. */
  function Accepted(log: seq<Event>): seq<VehicleData> {
    if log == [] then []
    else
      var e := log[|log| - 1];
      Accepted(log[..|log| - 1]) + (if e.op.Push? && e.result == Pushed(true) then [e.op.item] else [])
  }

  /** Records handed out by the successful pops, in log order. */
  function Delivered(log: seq<Event>): seq<VehicleData> {
    if log == [] then []
    else
      var e := log[|log| - 1];
      Delivered(log[..|log| - 1]) + (if e.result.Popped? && e.result.item.Some? then [e.result.item.value] else [])
  }

  function Pops(log: seq<Event>): nat {
    if log == [] then 0 else Pops(log[..|log| - 1]) + (if log[|log| - 1].op.Pop? then 1 else 0)
  }

  lemma {:induction false} Append(log: seq<Event>, e: Event)
    ensures Replay(log + [e]) == Effect(Replay(log), e.op)
    ensures forall capacity :: Legal(log + [e], capacity) <==>
              Legal(log, capacity) && !Blocked(Replay(log), capacity, e.op) && e.result == Answer(Replay(log), e.op)
    ensures forall t :: By(log + [e], t) == By(log, t) + (if e.thread == t then [e] else [])
    ensures Accepted(log + [e]) == Accepted(log) + (if e.op.Push? && e.result == Pushed(true) then [e.op.item] else [])
    ensures Delivered(log + [e]) ==
            Delivered(log) + (if e.result.Popped? && e.result.item.Some? then [e.result.item.value] else [])
    ensures Pops(log + [e]) == Pops(log) + (if e.op.Pop? then 1 else 0)
  {
    assert (log + [e])[..|log| + 1 - 1] == log;
  }

  /** First in, first out, and never more than the capacity: what went in is what came
      out followed by what is still queued. */
  lemma {:induction false} LegalIsFifo(log: seq<Event>, capacity: nat)
    requires Legal(log, capacity)
    ensures Accepted(log) == Delivered(log) + Replay(log).items
    ensures |Accepted(log)| - |Delivered(log)| == |Replay(log).items| <= capacity
  {
    if log != [] {
      var before, last := log[..|log| - 1], log[|log| - 1];
      LegalIsFifo(before, capacity);
      var q := Replay(before);
      if last.op.Pop? && q.items != [] {
        assert q.items == [q.items[0]] + q.items[1..];
      }
    }
  }

  /** A legal log stays legal when cut short. */
  lemma {:induction false} LegalPrefix(log: seq<Event>, n: nat, capacity: nat)
    requires n <= |log| && Legal(log, capacity)
    ensures Legal(log[..n], capacity)
    decreases |log|
  {
    if n < |log| {
      LegalPrefix(log[..|log| - 1], n, capacity);
      assert log[..|log| - 1][..n] == log[..n];
    } else {
      assert log[..n] == log;
    }
  }

  /** The k-th successful pop hands out the k-th accepted record. */
  lemma {:induction false} KthPopIsKthPush(log: seq<Event>, capacity: nat, k: nat)
    requires Legal(log, capacity) && k < |Delivered(log)|
    ensures k < |Accepted(log)| && Delivered(log)[k] == Accepted(log)[k]
  {
    LegalIsFifo(log, capacity);
  }

  function Min(a: nat, b: nat): nat {
    if a < b then a else b
  }

  /** Once the flag is set every push is refused, even with room left. */
  lemma {:induction false} ShutdownRefusesPushes(before: seq<Event>, after: seq<Event>, capacity: nat)
    requires Legal(before + after, capacity) && Replay(before).shutdown
    ensures Replay(before + after).shutdown
    ensures Accepted(before + after) == Accepted(before)
    ensures forall i :: 0 <= i < |after| && after[i].op.Push? ==> after[i].result == Pushed(false)
  {
    if after == [] {
      assert before + after == before;
    } else {
      var rest, last := after[..|after| - 1], after[|after| - 1];
      assert before + after == (before + rest) + [last];
      Append(before + rest, last);
      ShutdownRefusesPushes(before, rest, capacity);
    }
  }

  /** Once the flag is set the queued records still go out, in order, to the pops that
      follow; after exactly that many every pop comes back empty-handed. */
  lemma {:induction false} ShutdownDrains(before: seq<Event>, after: seq<Event>, capacity: nat)
    requires Legal(before + after, capacity) && Replay(before).shutdown
    ensures var queued := Replay(before).items;
            var served := Min(Pops(after), |queued|);
            && Delivered(before + after) == Delivered(before) + queued[..served]
            && Replay(before + after).items == queued[served..]
  {
    hide Accepted, By, Legal;
    if after == [] {
      assert before + after == before;
    } else {
      var rest, last := after[..|after| - 1], after[|after| - 1];
      var queued, n := Replay(before).items, |Replay(before).items|;
      assert before + after == (before + rest) + [last] && after == rest + [last];
      Append(before + rest, last);
      Append(rest, last);
      ShutdownRefusesPushes(before, rest, capacity);
      ShutdownDrains(before, rest, capacity);
      hide Replay, Delivered, Pops, Effect, Answer;
      DrainOne(Replay(before + rest), queued, Min(Pops(rest), n), last);
    }
  }

  lemma {:induction false} DrainOne(q: Queue, queued: seq<VehicleData>, served: nat, last: Event)
    requires q.shutdown && served <= |queued| && q.items == queued[served..] && last.result == Answer(q, last.op)
    ensures var served' := if last.op.Pop? && served < |queued| then served + 1 else served;
            && Effect(q, last.op).items == queued[served'..]
            && queued[..served'] == queued[..served]
                 + (if last.result.Popped? && last.result.item.Some? then [last.result.item.value] else [])
  {
    if last.op.Pop? && served < |queued| {
      assert queued[..served + 1] == queued[..served] + [queued[served]];
      assert queued[served..][1..] == queued[served + 1..];
    }
  }

  /** After shutdown a pop fails exactly when the pops since the flag was set have
      already taken everything that was queued then. */
  lemma {:induction false} PopAfterShutdown(before: seq<Event>, after: seq<Event>, capacity: nat, i: nat)
    requires Legal(before + after, capacity) && Replay(before).shutdown
    requires i < |after| && after[i].op.Pop?
    ensures after[i].result == Popped(None) <==> Pops(after[..i]) >= |Replay(before).items|
  {
    var upTo := before + after[..i];
    assert (before + after)[..|before| + i] == upTo;
    assert (before + after)[..|before| + i + 1] == upTo + [after[i]];
    LegalPrefix(before + after, |before| + i + 1, capacity);
    LegalPrefix(before + after, |before| + i, capacity);
    Append(upTo, after[i]);
    ShutdownDrains(before, after[..i], capacity);
  }

  /** The same for a log that extends another: refused pushes, and one queued record for each
      pop until they are used up. */
  lemma {:induction false} DrainsFrom(before: seq<Event>, log: seq<Event>, capacity: nat)
    requires before <= log && Legal(log, capacity) && Replay(before).shutdown
    ensures Accepted(log) == Accepted(before)
    ensures var queued := Replay(before).items;
            Delivered(log) == Delivered(before) + queued[..Min(Pops(log[|before|..]), |queued|)]
    ensures forall k :: |before| <= k < |log| && log[k].op.Push? ==> log[k].result == Pushed(false)
    ensures forall k :: |before| <= k < |log| && log[k].op.Pop? ==>
              (log[k].result == Popped(None) <==> Pops(log[|before|..k]) >= |Replay(before).items|)
  {
    hide Replay, Legal, Pops, Accepted, Delivered;
    var after := log[|before|..];
    assert before + after == log;
    ShutdownRefusesPushes(before, after, capacity);
    ShutdownDrains(before, after, capacity);
    forall k | |before| <= k < |log| && log[k].op.Push?
      ensures log[k].result == Pushed(false)
    {
      assert log[k] == after[k - |before|];
    }
    forall k | |before| <= k < |log| && log[k].op.Pop?
      ensures log[k].result == Popped(None) <==> Pops(log[|before|..k]) >= |Replay(before).items|
    {
      assert log[k] == after[k - |before|] && log[|before|..k] == after[..k - |before|];
      PopAfterShutdown(before, after, capacity, k - |before|);
    }
  }
}
