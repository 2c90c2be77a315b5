/** The circular array behind the blocking buffer: its index arithmetic as values, and the
    class that updates it in place. Both are shown to be the bounded queue. */
module Rings {
  import opened Records
  import opened BoundedQueue

  /** The buffer's fields. Slots outside the queued stretch hold whatever was there. */
  datatype Ring = Ring(data: seq<VehicleData>, head: nat, tail: nat, count: nat, shutdown: bool) {

    predicate WellFormed() {
      && count <= |data|
      && (|data| == 0 ==> head == 0 && tail == 0)
      && (|data| > 0 ==> tail < |data| && head == (tail + count) % |data|)
    }

    /** The queued records, read from the tail. */
    function Contents(): (items: seq<VehicleData>)
      requires WellFormed()
      ensures |items| == count
    {
      seq(count, i requires 0 <= i < count => data[(tail + i) % |data|])
    }

    function Queued(): Queue
      requires WellFormed()
    {
      Queue(Contents(), shutdown)
    }

    /** The conditions of the two wait loops. */
    predicate MustWait(op: Op) {
      match op
      case Push(_) => count == |data| && !shutdown
      case Pop => count == 0 && !shutdown
      case Shutdown => false
      case IsShutdown => false
    }

    /** What is left of the critical section once the wait loop has been passed. */
    function Run(op: Op): Ring
      requires WellFormed() && !MustWait(op)
    {
      match op
      case Push(item) =>
        if shutdown then this
        else Ring(data[head := item], (head + 1) % |data|, tail, count + 1, shutdown)
      case Pop =>
        if shutdown && count == 0 then this
        else Ring(data, head, (tail + 1) % |data|, count - 1, shutdown)
      case Shutdown => this.(shutdown := true)
      case IsShutdown => this
    }

    function Reply(op: Op): Result
      requires WellFormed() && !MustWait(op)
    {
      match op
      case Push(_) => Pushed(!shutdown)
      case Pop => Popped(if shutdown && count == 0 then None else Some(data[tail]))
      case Shutdown => ShutdownDone
      case IsShutdown => Flag(shutdown)
    }
  }

  lemma {:induction false} Wrap(x: nat, n: nat)
    requires 0 < n && x < 2 * n
    ensures x % n == if x < n then x else x - n
  {
    if x >= n {
      assert (x - n) % n == x - n;
      assert x == n * 1 + (x - n);
    }
  }

  lemma {:induction false} SlotsAreDistinct(tail: nat, i: nat, j: nat, n: nat)
    requires tail < n && i < n && j < n && i != j
    ensures (tail + i) % n != (tail + j) % n
  {
    Wrap(tail + i, n);
    Wrap(tail + j, n);
  }

  lemma {:induction false} PushStores(r: Ring, item: VehicleData)
    requires r.WellFormed() && r.count < |r.data| && !r.shutdown
    ensures r.Run(Push(item)).WellFormed()
    ensures r.Run(Push(item)).Contents() == r.Contents() + [item]
  {
    var n, r' := |r.data|, r.Run(Push(item));
    Wrap(r.tail + r.count, n);
    Wrap(r.head + 1, n);
    Wrap(r.tail + r.count + 1, n);
    assert r'.WellFormed();
    forall i | 0 <= i < r.count + 1
      ensures r'.Contents()[i] == (r.Contents() + [item])[i]
    {
      Wrap(r.tail + i, n);
      if i < r.count {
        SlotsAreDistinct(r.tail, i, r.count, n);
      }
    }
  }

  lemma {:induction false} PopTakes(r: Ring)
    requires r.WellFormed() && r.count > 0
    ensures r.Run(Pop).WellFormed()
    ensures [r.data[r.tail]] + r.Run(Pop).Contents() == r.Contents()
  {
    var n, r' := |r.data|, r.Run(Pop);
    Wrap(r.tail, n);
    Wrap(r.tail + 1, n);
    Wrap(r.tail + r.count, n);
    Wrap(r'.tail + r'.count, n);
    forall i | 0 <= i < r'.count
      ensures r'.Contents()[i] == r.Contents()[i + 1]
    {
      Wrap(r'.tail + i, n);
      Wrap(r.tail + i + 1, n);
    }
  }

  /** Every critical section on the circular array is the queue operation of the same
      name: same waiting condition, same effect, same answer. */
  lemma {:induction false} RingIsQueue(r: Ring, op: Op)
    requires r.WellFormed()
    ensures r.MustWait(op) <==> Blocked(r.Queued(), |r.data|, op)
    ensures !r.MustWait(op) ==>
              && r.Run(op).WellFormed()
              && |r.Run(op).data| == |r.data|
              && r.Run(op).Queued() == Effect(r.Queued(), op)
              && r.Reply(op) == Answer(r.Queued(), op)
  {
    if !r.MustWait(op) {
      match op
      case Push(item) =>
        if !r.shutdown { PushStores(r, item); }
      case Pop =>
        if r.count > 0 {
          PopTakes(r);
          assert r.Contents()[0] == r.data[r.tail];
          assert r.Contents()[1..] == r.Run(Pop).Contents();
        }
      case Shutdown =>
        assert r.Run(Shutdown).Contents() == r.Contents();
      case IsShutdown =>
    }
  }

  /** A newly initialised buffer, whatever the allocated memory held. */
  predicate Fresh(r: Ring, capacity: nat) {
    |r.data| == capacity && r.head == 0 && r.tail == 0 && r.count == 0 && !r.shutdown
  }

  lemma {:induction false} FreshIsEmptyQueue(r: Ring, capacity: nat)
    requires Fresh(r, capacity)
    ensures r.WellFormed() && r.Queued() == Replay([])
  {
  }

  // ---------------------------------------------------------------------------
  // The same structure updated in place
  // ---------------------------------------------------------------------------

  /** The critical sections other threads attempt between two moments at which the current
      thread holds the mutex: who runs, and which operation. */
  type Turn = seq<(nat, Op)>

  ghost predicate ByOthers(turn: Turn, me: nat) {
    forall i :: 0 <= i < |turn| ==> turn[i].0 != me
  }

  ghost predicate AllByOthers(turns: seq<Turn>, me: nat) {
    forall k :: 0 <= k < |turns| ==> ByOthers(turns[k], me)
  }

  /** The log after one more attempt. One that has to wait leaves no trace, because its
      thread goes to sleep. */
  ghost function AfterOne(log: seq<Event>, t: nat, op: Op, capacity: nat): seq<Event> {
    if Blocked(Replay(log), capacity, op) then log else log + [Event(t, op, Answer(Replay(log), op))]
  }

  ghost function AfterTurn(log: seq<Event>, turn: Turn, capacity: nat): seq<Event> {
    if turn == [] then log
    else
      var last := turn[|turn| - 1];
      AfterOne(AfterTurn(log, turn[..|turn| - 1], capacity), last.0, last.1, capacity)
  }

  /** The log after the turns from start up to, but not including, k. */
  ghost function AfterTurns(log: seq<Event>, turns: seq<Turn>, start: nat, k: nat, capacity: nat): seq<Event>
    requires start <= k <= |turns|
    decreases k
  {
    if k == start then log else AfterTurn(AfterTurns(log, turns, start, k - 1, capacity), turns[k - 1], capacity)
  }

  /** What other threads do leaves a thread's own events alone and never undoes a shutdown. */
  lemma {:induction false} AfterTurnKeeps(log: seq<Event>, turn: Turn, capacity: nat, me: nat)
    requires ByOthers(turn, me)
    ensures var log' := AfterTurn(log, turn, capacity);
            && log <= log' && By(log', me) == By(log, me)
            && (Replay(log).shutdown ==> Replay(log').shutdown)
            && (Drained(Replay(log)) ==> Drained(Replay(log')))
  {
    if turn != [] {
      var last := turn[|turn| - 1];
      AfterTurnKeeps(log, turn[..|turn| - 1], capacity, me);
      var sofar := AfterTurn(log, turn[..|turn| - 1], capacity);
      Append(sofar, Event(last.0, last.1, Answer(Replay(sofar), last.1)));
    }
  }

  lemma {:induction false} AfterTurnsKeep(log: seq<Event>, turns: seq<Turn>, start: nat, k: nat, capacity: nat, me: nat)
    requires AllByOthers(turns, me) && start <= k <= |turns|
    ensures var log' := AfterTurns(log, turns, start, k, capacity);
            && log <= log' && By(log', me) == By(log, me)
            && (Replay(log).shutdown ==> Replay(log').shutdown)
            && (Drained(Replay(log)) ==> Drained(Replay(log')))
    decreases k
  {
    if k > start {
      AfterTurnsKeep(log, turns, start, k - 1, capacity, me);
      AfterTurnKeeps(AfterTurns(log, turns, start, k - 1, capacity), turns[k - 1], capacity, me);
    }
  }

  /** A call starting at turn start ends, when k turns have passed, with this log: the first
      time it holds the mutex without having to wait, if there is one among the given turns. */
  ghost predicate Settles(
    before: seq<Event>, log: seq<Event>, turns: seq<Turn>, start: nat, k: nat, me: nat, op: Op, decided: bool,
    capacity: nat)
    requires start <= k <= |turns|
  {
    var after := AfterTurns(before, turns, start, k, capacity);
    && (k == start ==> start == |turns|)
    && (forall j :: start < j < k ==> Blocked(Replay(AfterTurns(before, turns, start, j, capacity)), capacity, op))
    && (if decided then
          !Blocked(Replay(after), capacity, op) && log == after + [Event(me, op, Answer(Replay(after), op))]
        else
          k == |turns| && Blocked(Replay(after), capacity, op) && log == after)
  }

  /** What a settled call means for the thread itself. */
  lemma {:induction false} SettledCall(
    before: seq<Event>, log: seq<Event>, turns: seq<Turn>, start: nat, k: nat, me: nat, op: Op, decided: bool,
    capacity: nat)
    requires start <= k <= |turns| && AllByOthers(turns, me)
    requires Settles(before, log, turns, start, k, me, op, decided, capacity)
    ensures before <= log && (Replay(before).shutdown ==> Replay(log).shutdown)
    ensures Drained(Replay(before)) ==> Drained(Replay(log))
    ensures decided ==> log != [] && By(log, me) == By(before, me) + [log[|log| - 1]]
    ensures decided && log[|log| - 1].result == Pushed(false) ==> Replay(log).shutdown
    ensures decided && log[|log| - 1].result == Popped(None) ==> Drained(Replay(log))
    ensures !decided ==> By(log, me) == By(before, me) && Blocked(Replay(log), capacity, op)
  {
    AfterTurnsKeep(before, turns, start, k, capacity, me);
    var after := AfterTurns(before, turns, start, k, capacity);
    Append(after, Event(me, op, Answer(Replay(after), op)));
  }

  class RingBuffer {
    const capacity: Int32
    const data: array<VehicleData>
    var head: Int32
    var tail: Int32
    var count: Int32
    var shutdown: bool
    /** Every critical section completed so far. */
    ghost var log: seq<Event>

    ghost function AsRing(): Ring
      requires 0 <= head && 0 <= tail && 0 <= count
      reads this, data
    {
      Ring(data[..], head as nat, tail as nat, count as nat, shutdown)
    }

    /** The fields are a well-formed ring holding exactly what the log leaves behind, and
        the log is one the bounded queue could have produced. */
    ghost predicate Valid()
      reads this, data
    {
      && 0 <= capacity && data.Length == capacity as int
      && 0 <= head && 0 <= tail && 0 <= count
      && AsRing().WellFormed()
      && Legal(log, data.Length)
      && AsRing().Queued() == Replay(log)
    }

    /** buffer_init, for any capacity an array can have. */
    constructor (capacity: Int32)
      requires 0 <= capacity
      ensures Valid() && fresh(data) && this.capacity == capacity
      ensures log == [] && Fresh(AsRing(), capacity as nat)
    {
      this.capacity := capacity;
      data := new VehicleData[capacity];
      head, tail, count, shutdown := 0, 0, 0, false;
      log := [];
      new;
      FreshIsEmptyQueue(AsRing(), capacity as nat);
    }

    /** The part of buffer_push after its wait loop. */
    method CompletePush(ghost me: nat, item: VehicleData) returns (ok: bool)
      requires Valid() && !AsRing().MustWait(Push(item))
      modifies this, data
      ensures Valid()
      ensures AsRing() == old(AsRing()).Run(Push(item))
      ensures log == old(log) + [Event(me, Push(item), Pushed(ok))]
      ensures Pushed(ok) == Answer(Replay(old(log)), Push(item))
    {
      ghost var before := AsRing();
      RingIsQueue(before, Push(item));
      Append(log, Event(me, Push(item), before.Reply(Push(item))));
      log := log + [Event(me, Push(item), before.Reply(Push(item)))];
      if shutdown {
        return false;
      }
      assert before.count < |before.data|;
      Wrap(before.tail + before.count, |before.data|);
      data[head] := item;
      head := (head + 1) % capacity;
      count := count + 1;
      assert AsRing() == before.Run(Push(item));
      return true;
    }

    /** The part of buffer_pop after its wait loop. */
    method CompletePop(ghost me: nat) returns (item: Option<VehicleData>)
      requires Valid() && !AsRing().MustWait(Pop)
      modifies this
      ensures Valid()
      ensures AsRing() == old(AsRing()).Run(Pop)
      ensures log == old(log) + [Event(me, Pop, Popped(item))]
      ensures Popped(item) == Answer(Replay(old(log)), Pop)
    {
      ghost var before := AsRing();
      RingIsQueue(before, Pop);
      Append(log, Event(me, Pop, before.Reply(Pop)));
      log := log + [Event(me, Pop, before.Reply(Pop))];
      if shutdown && count == 0 {
        return None;
      }
      item := Some(data[tail]);
      tail := (tail + 1) % capacity;
      count := count - 1;
      assert AsRing() == before.Run(Pop);
    }

    /** buffer_signal_shutdown. */
    method SignalShutdown(ghost me: nat)
      requires Valid()
      modifies this
      ensures Valid()
      ensures AsRing() == old(AsRing()).(shutdown := true)
      ensures log == old(log) + [Event(me, Shutdown, ShutdownDone)]
    {
      hide Legal, Replay;
      ghost var before := AsRing();
      RingIsQueue(before, Shutdown);
      Append(log, Event(me, Shutdown, ShutdownDone));
      shutdown := true;
      log := log + [Event(me, Shutdown, ShutdownDone)];
      assert AsRing() == before.Run(Shutdown);
    }

    /** buffer_is_shutdown. */
    method QueryShutdown(ghost me: nat) returns (state: bool)
      requires Valid()
      modifies this`log
      ensures Valid() && state == shutdown
      ensures log == old(log) + [Event(me, IsShutdown, Flag(state))]
      ensures Flag(state) == Answer(Replay(old(log)), IsShutdown)
    {
      RingIsQueue(AsRing(), IsShutdown);
      Append(log, Event(me, IsShutdown, Flag(shutdown)));
      state := shutdown;
      log := log + [Event(me, IsShutdown, Flag(state))];
    }

    /** One attempt of another thread. */
    method LetOneRun(other: nat, op: Op)
      requires Valid()
      modifies this, data
      ensures Valid()
      ensures log == AfterOne(old(log), other, op, data.Length)
    {
      hide Legal, Replay;
      RingIsQueue(AsRing(), op);
      match op {
        case Push(item) =>
          if count != capacity || shutdown {
            var ok := CompletePush(other, item);
          }
        case Pop =>
          if count != 0 || shutdown {
            var item := CompletePop(other);
          }
        case Shutdown =>
          SignalShutdown(other);
        case IsShutdown =>
          var state := QueryShutdown(other);
      }
    }

    /** Let the other threads use the buffer while the current one does not hold it. */
    method LetOthersRun(turn: Turn)
      requires Valid()
      modifies this, data
      ensures Valid()
      ensures log == AfterTurn(old(log), turn, data.Length)
    {
      hide Valid, AfterOne;
      for k := 0 to |turn|
        invariant Valid()
        invariant log == AfterTurn(old(log), turn[..k], data.Length)
      {
        assert turn[..k + 1][..k] == turn[..k];
        LetOneRun(turn[k].0, turn[k].1);
      }
      assert turn[..|turn|] == turn;
    }

    /** buffer_push: take the mutex, wait for room or for shutdown, then decide. Each time
        the mutex is taken, by the first lock or on leaving pthread_cond_wait, one more
        turn of other threads' work has gone by, beginning with turns[start]; when the
        turns run out the others do nothing more. No result means that the thread sleeps
        on: the buffer is full and nobody is left to change that. */
    method BlockingPush(
      ghost me: nat, item: VehicleData, turns: seq<Turn>, start: nat)
      returns (result: Option<bool>, used: nat)
      requires Valid() && start <= |turns|
      modifies this, data
      ensures Valid() && start <= used <= |turns|
      ensures AsRing().WellFormed() && AsRing().Queued() == Replay(log) && Legal(log, data.Length)
      ensures Settles(old(log), log, turns, start, used, me, Push(item), result.Some?, data.Length)
      ensures result.Some? ==> log[|log| - 1] == Event(me, Push(item), Pushed(result.value))
    {
      hide Legal, Replay, AfterTurn, Answer, Ring.Contents, Ring.Run;
      used := start;
      if used < |turns| {
        LetOthersRun(turns[used]);
        used := used + 1;
      }
      while count == capacity && !shutdown
        invariant Valid() && start <= used <= |turns| && (used == start ==> start == |turns|)
        invariant log == AfterTurns(old(log), turns, start, used, data.Length)
        invariant forall j :: start < j < used ==>
                    Blocked(Replay(AfterTurns(old(log), turns, start, j, data.Length)), data.Length, Push(item))
        decreases |turns| - used
      {
        RingIsQueue(AsRing(), Push(item));
        if used == |turns| {
          return None, used;
        }
        LetOthersRun(turns[used]);
        used := used + 1;
      }
      RingIsQueue(AsRing(), Push(item));
      var ok := CompletePush(me, item);
      result := Some(ok);
    }

    /** buffer_pop, with the same reading of turns; here no result means that the buffer is
        empty and nobody is left to fill it. */
    method BlockingPop(
      ghost me: nat, turns: seq<Turn>, start: nat)
      returns (result: Option<Option<VehicleData>>, used: nat)
      requires Valid() && start <= |turns|
      modifies this, data
      ensures Valid() && start <= used <= |turns|
      ensures AsRing().WellFormed() && AsRing().Queued() == Replay(log) && Legal(log, data.Length)
      ensures Settles(old(log), log, turns, start, used, me, Pop, result.Some?, data.Length)
      ensures result.Some? ==> log[|log| - 1] == Event(me, Pop, Popped(result.value))
    {
      hide Legal, Replay, AfterTurn, Answer, Ring.Contents, Ring.Run;
      used := start;
      if used < |turns| {
        LetOthersRun(turns[used]);
        used := used + 1;
      }
      while count == 0 && !shutdown
        invariant Valid() && start <= used <= |turns| && (used == start ==> start == |turns|)
        invariant log == AfterTurns(old(log), turns, start, used, data.Length)
        invariant forall j :: start < j < used ==>
                    Blocked(Replay(AfterTurns(old(log), turns, start, j, data.Length)), data.Length, Pop)
        decreases |turns| - used
      {
        RingIsQueue(AsRing(), Pop);
        if used == |turns| {
          return None, used;
        }
        LetOthersRun(turns[used]);
        used := used + 1;
      }
      RingIsQueue(AsRing(), Pop);
      var item := CompletePop(me);
      result := Some(item);
    }
  }
}
