/** The arena as its writers run it: any number of them, interleaved at single field
    accesses, each taking the lock of its bucket by test-and-set. */
module Spinlock {
  import opened Arena

  /** Where a writer stands in its update. Those inside the lock name the access to come. */
  datatype Writer =
    | Idle
    | Spinning(s: Sample)
    | Comparing(s: Sample)                 // h3_index against the new cell
    | ClearingTimestamps(s: Sample)
    | ClearingSpeeds(s: Sample)
    | ClearingHead(s: Sample)
    | Claiming(s: Sample)                  // h3_index := cell
    | ReadingHead(s: Sample)
    | WritingSpeed(s: Sample, head: nat)
    | WritingTimestamp(s: Sample, head: nat)
    | Advancing(s: Sample, head: nat)      // head := (head + 1) % 60
    | Releasing(s: Sample)

  /** An update, from the moment its writer got the lock. */
  datatype Entry = Entry(writer: nat, s: Sample)

  /** Shared memory, the lock flags, the writers, and the updates in the order in which
      their writers got the lock. */
  datatype State = State(mem: seq<HexBucket>, locked: seq<bool>, writers: seq<Writer>, log: seq<Entry>)

  function Samples(log: seq<Entry>): (samples: seq<Sample>)
    ensures |samples| == |log|
    ensures forall k :: 0 <= k < |log| ==> samples[k] == log[k].s
  {
    seq(|log|, k requires 0 <= k < |log| => log[k].s)
  }

  lemma {:induction false} SamplesAppend(log: seq<Entry>, e: Entry)
    ensures Samples(log + [e]) == Samples(log) + [e.s]
  {
  }

  datatype Step = Begin(writer: nat, s: Sample) | Advance(writer: nat)

  predicate Inside(w: Writer) {
    !w.Idle? && !w.Spinning?
  }

  function Bucket(w: Writer): (b: nat)
    requires !w.Idle?
    ensures b < BUCKET_COUNT
  {
    RouteIsModulo(w.s.cell);
    Route(w.s.cell)
  }

  predicate Enabled(st: State, step: Step) {
    && SizedArena(st.mem) && |st.locked| == BUCKET_COUNT
    && step.writer < |st.writers|
    && var w := st.writers[step.writer];
       && (step.Begin? <==> w.Idle?)
       && (w.WritingSpeed? || w.WritingTimestamp? || w.Advancing? ==> w.head < WINDOW)
  }

  /** The next field access of a writer that holds the lock of bucket b. */
  function Access(b: HexBucket, w: Writer): (r: (HexBucket, Writer))
    requires Inside(w) && Sized(b)
    requires w.WritingSpeed? || w.WritingTimestamp? || w.Advancing? ==> w.head < WINDOW
    ensures Sized(r.0)
    ensures if w.Releasing? then r.1 == Idle else Inside(r.1) && r.1.s == w.s
  {
    var s, win := w.s, b.window;
    match w
    case Comparing(_) => (b, if b.h3Index != 0 && b.h3Index != s.cell then ClearingTimestamps(s) else Claiming(s))
    case ClearingTimestamps(_) => (b.(window := win.(timestamps := EmptyWindow().timestamps)), ClearingSpeeds(s))
    case ClearingSpeeds(_) => (b.(window := win.(speeds := EmptyWindow().speeds)), ClearingHead(s))
    case ClearingHead(_) => (b.(window := win.(head := EmptyWindow().head)), Claiming(s))
    case Claiming(_) => (b.(h3Index := s.cell), ReadingHead(s))
    case ReadingHead(_) => (b, WritingSpeed(s, win.head))
    case WritingSpeed(_, head) => (b.(window := win.(speeds := win.speeds[head := s.speed])), WritingTimestamp(s, head))
    case WritingTimestamp(_, head) =>
      (b.(window := win.(timestamps := win.timestamps[head := Truncated(s.timestamp)])), Advancing(s, head))
    case Advancing(_, head) => (b.(window := win.(head := (head + 1) % WINDOW)), Releasing(s))
    case Releasing(_) => (b, Idle)
  }

  function Next(st: State, step: Step): State
    requires Enabled(st, step)
  {
    var i := step.writer;
    match step
    case Begin(_, s) => st.(writers := st.writers[i := Spinning(s)])
    case Advance(_) =>
      var w := st.writers[i];
      var b := Bucket(w);
      if w.Spinning? then
        if st.locked[b] then st
        else st.(locked := st.locked[b := true], writers := st.writers[i := Comparing(w.s)],
                 log := st.log + [Entry(i, w.s)])
      else
        var (bucket, w') := Access(st.mem[b], w);
        State(st.mem[b := bucket], if w.Releasing? then st.locked[b := false] else st.locked,
              st.writers[i := w'], st.log)
  }

  predicate Init(st: State) {
    && st.mem == ReplayArena([])
    && |st.locked| == BUCKET_COUNT && (forall b :: 0 <= b < BUCKET_COUNT ==> !st.locked[b])
    && (forall i :: 0 <= i < |st.writers| ==> st.writers[i] == Idle)
    && st.log == []
  }

  ghost predicate IsRun(states: seq<State>, steps: seq<Step>) {
    && |states| == |steps| + 1
    && Init(states[0])
    && forall i :: 0 <= i < |steps| ==> Enabled(states[i], steps[i]) && states[i + 1] == Next(states[i], steps[i])
  }

  /** A bucket as its lock holder has left it so far, given what it was on locking. */
  ghost predicate PartWritten(b: HexBucket, base: HexBucket, w: Writer)
    requires Sized(base) && Inside(w)
  {
    var s := w.s;
    var stale := base.h3Index != 0 && base.h3Index != s.cell;
    var window := if stale then EmptyWindow() else base.window;
    match w
    case Comparing(_) => b == base
    case ClearingTimestamps(_) => stale && b == base
    case ClearingSpeeds(_) => stale && b == base.(window := base.window.(timestamps := EmptyWindow().timestamps))
    case ClearingHead(_) => stale && b == base.(window := EmptyWindow().(head := base.window.head))
    case Claiming(_) => b == base.(window := window)
    case ReadingHead(_) => b == HexBucket(s.cell, window)
    case WritingSpeed(_, head) => head == window.head && b == HexBucket(s.cell, window)
    case WritingTimestamp(_, head) =>
      head == window.head && b == HexBucket(s.cell, window.(speeds := window.speeds[head := s.speed]))
    case Advancing(_, head) =>
      head == window.head && b == Write(base, s).(window := Write(base, s).window.(head := head))
    case Releasing(_) => b == Write(base, s)
  }

  /** Each access takes the holder one step along the sequential update. */
  lemma {:induction false} AccessProgresses(b: HexBucket, base: HexBucket, w: Writer)
    requires Sized(b) && Sized(base) && Inside(w) && PartWritten(b, base, w)
    ensures w.WritingSpeed? || w.WritingTimestamp? || w.Advancing? ==> w.head < WINDOW && w.head == b.window.head
    ensures var (b', w') := Access(b, w);
            if w.Releasing? then b' == Write(base, w.s) else Inside(w') && w'.s == w.s && PartWritten(b', base, w')
  {
  }

  /** Writer i holds the lock of bucket b. */
  predicate Holds(st: State, i: int, b: int) {
    0 <= i < |st.writers| && Inside(st.writers[i]) && Bucket(st.writers[i]) == b
  }

  /** A lock is set exactly while one writer is inside. */
  ghost predicate Exclusive(st: State) {
    && |st.locked| == BUCKET_COUNT
    && (forall i, b :: Holds(st, i, b) ==> st.locked[b])
    && (forall i, j, b :: Holds(st, i, b) && Holds(st, j, b) ==> i == j)
    && (forall b :: 0 <= b < BUCKET_COUNT && st.locked[b] ==> exists i :: Holds(st, i, b))
  }

  /** A free bucket is the replay of its samples in lock order; a held one is that replay up
      to the holder's own sample, which the holder has written in part. */
  ghost predicate BucketInv(st: State, b: nat)
    requires SizedArena(st.mem) && |st.locked| == BUCKET_COUNT && b < BUCKET_COUNT
  {
    var sublog := Routed(Samples(st.log), b);
    && (!st.locked[b] ==> st.mem[b] == ReplayBucket(sublog))
    && (forall i :: Holds(st, i, b) ==>
          && sublog != [] && sublog[|sublog| - 1] == st.writers[i].s
          && PartWritten(st.mem[b], ReplayBucket(sublog[..|sublog| - 1]), st.writers[i]))
  }

  ghost predicate Inv(st: State) {
    && SizedArena(st.mem)
    && Exclusive(st)
    && forall b :: 0 <= b < BUCKET_COUNT ==> BucketInv(st, b)
  }

  predicate Acquires(st: State, step: Step)
    requires Enabled(st, step)
  {
    var w := st.writers[step.writer];
    w.Spinning? && !st.locked[Bucket(w)]
  }

  /** A step changes who holds what only by acquiring or releasing one lock. */
  lemma {:induction false} HoldsAfter(st: State, step: Step, j: int, b: int)
    requires Enabled(st, step)
    ensures var i := step.writer;
            var w := st.writers[i];
            Holds(Next(st, step), j, b) <==>
              if j == i && Acquires(st, step) then b == Bucket(w)
              else Holds(st, j, b) && !(j == i && w.Releasing?)
  {
  }

  lemma {:induction false} ExclusiveKept(st: State, step: Step)
    requires SizedArena(st.mem) && Exclusive(st) && Enabled(st, step)
    ensures Exclusive(Next(st, step))
  {
    var i, st' := step.writer, Next(st, step);
    var w := st.writers[i];
    forall j, b | Holds(st', j, b)
      ensures st'.locked[b]
    {
      HoldsAfter(st, step, j, b);
      if w.Releasing? && b == Bucket(w) {
        assert Holds(st, i, b);
      }
    }
    forall j, k, b | Holds(st', j, b) && Holds(st', k, b)
      ensures j == k
    {
      HoldsAfter(st, step, j, b);
      HoldsAfter(st, step, k, b);
    }
    forall b | 0 <= b < BUCKET_COUNT && st'.locked[b]
      ensures exists j :: Holds(st', j, b)
    {
      if st.locked[b] {
        var j :| Holds(st, j, b);
        HoldsAfter(st, step, j, b);
        assert Holds(st', j, b);
      } else {
        HoldsAfter(st, step, i, b);
        assert Holds(st', i, b);
      }
    }
  }

  lemma {:induction false} OtherSublogKept(st: State, step: Step, b: nat)
    requires Enabled(st, step) && b < BUCKET_COUNT
    requires !st.writers[step.writer].Idle? ==> b != Bucket(st.writers[step.writer])
    ensures Routed(Samples(Next(st, step).log), b) == Routed(Samples(st.log), b)
  {
    hide Routed, Access;
    var w := st.writers[step.writer];
    if !w.Idle? {
      SamplesAppend(st.log, Entry(step.writer, w.s));
      ReplayAppend(Samples(st.log), w.s);
    }
  }

  /** A step of one writer leaves every other bucket alone. */
  lemma {:induction false} OtherBucketKept(st: State, step: Step, b: nat)
    requires Inv(st) && Enabled(st, step) && b < BUCKET_COUNT
    requires !st.writers[step.writer].Idle? ==> b != Bucket(st.writers[step.writer])
    ensures SizedArena(Next(st, step).mem) && |Next(st, step).locked| == BUCKET_COUNT
    ensures BucketInv(Next(st, step), b)
  {
    hide PartWritten, ReplayBucket, Routed, Access;
    var i, st' := step.writer, Next(st, step);
    OtherSublogKept(st, step, b);
    hide Samples;
    assert BucketInv(st, b);
    forall j | Holds(st', j, b)
      ensures Holds(st, j, b) && st'.writers[j] == st.writers[j]
    {
      HoldsAfter(st, step, j, b);
    }
  }

  lemma {:induction false} AcquireKept(st: State, i: nat)
    requires Inv(st) && Enabled(st, Advance(i)) && st.writers[i].Spinning? && !st.locked[Bucket(st.writers[i])]
    ensures BucketInv(Next(st, Advance(i)), Bucket(st.writers[i]))
  {
    var w, st' := st.writers[i], Next(st, Advance(i));
    var b := Bucket(w);
    var sublog := Routed(Samples(st.log), b);
    AcquireExtends(st, i);
    assert BucketInv(st, b);
    assert st'.mem[b] == ReplayBucket(sublog) && (sublog + [w.s])[..|sublog|] == sublog;
    forall j | Holds(st', j, b)
      ensures j == i
    {
      HoldsAfter(st, Advance(i), j, b);
    }
    hide Access, Write, Routed, Samples, ReplayBucket, Bucket;
  }

  lemma {:induction false} AcquireExtends(st: State, i: nat)
    requires Enabled(st, Advance(i)) && st.writers[i].Spinning? && !st.locked[Bucket(st.writers[i])]
    ensures var s, b := st.writers[i].s, Bucket(st.writers[i]);
            Routed(Samples(Next(st, Advance(i)).log), b) == Routed(Samples(st.log), b) + [s]
  {
    hide Routed, Access;
    SamplesAppend(st.log, Entry(i, st.writers[i].s));
    ReplayAppend(Samples(st.log), st.writers[i].s);
  }

  lemma {:induction false} AccessKept(st: State, i: nat)
    requires Inv(st) && Enabled(st, Advance(i)) && Inside(st.writers[i])
    ensures BucketInv(Next(st, Advance(i)), Bucket(st.writers[i]))
  {
    var w, st' := st.writers[i], Next(st, Advance(i));
    var b := Bucket(w);
    var sublog := Routed(Samples(st.log), b);
    assert BucketInv(st, b) && Holds(st, i, b);
    var base := ReplayBucket(sublog[..|sublog| - 1]);
    AccessProgresses(st.mem[b], base, w);
    assert ReplayBucket(sublog) == Write(base, w.s);
    forall j | Holds(st', j, b)
      ensures j == i
    {
      HoldsAfter(st, Advance(i), j, b);
    }
  }

  lemma {:induction false} InvKept(st: State, step: Step)
    requires Inv(st) && Enabled(st, step)
    ensures Inv(Next(st, step))
  {
    var i, st' := step.writer, Next(st, step);
    ExclusiveKept(st, step);
    forall b | 0 <= b < BUCKET_COUNT
      ensures SizedArena(st'.mem) && BucketInv(st', b)
    {
      if st.writers[i].Idle? || b != Bucket(st.writers[i]) {
        OtherBucketKept(st, step, b);
      } else if Inside(st.writers[i]) {
        AccessKept(st, i);
      } else if !st.locked[b] {
        AcquireKept(st, i);
      } else {
        assert BucketInv(st, b);
        assert st' == st;
      }
    }
  }

  lemma {:induction false} RunInv(states: seq<State>, steps: seq<Step>, k: nat)
    requires IsRun(states, steps) && k < |states|
    ensures Inv(states[k])
  {
    if k == 0 {
      forall b | 0 <= b < BUCKET_COUNT
        ensures states[0].mem[b] == ReplayBucket(Routed([], b))
      {
        BucketsAreIndependent([], b);
      }
    } else {
      RunInv(states, steps, k - 1);
      InvKept(states[k - 1], steps[k - 1]);
    }
  }

  /** However the writers interleave: at most one is inside the lock of a bucket, and a
      bucket whose lock is clear is the sequential replay of its samples in the order in
      which the lock was acquired. */
  lemma {:induction false} SpinlockRefinesReplay(states: seq<State>, steps: seq<Step>, k: nat, b: nat)
    requires IsRun(states, steps) && k < |states| && b < BUCKET_COUNT
    ensures |states[k].mem| == |states[k].locked| == BUCKET_COUNT
    ensures forall i, j :: Holds(states[k], i, b) && Holds(states[k], j, b) ==> i == j
    ensures states[k].locked[b] <==> exists i :: Holds(states[k], i, b)
    ensures !states[k].locked[b] ==> states[k].mem[b] == ReplayBucket(Routed(Samples(states[k].log), b))
  {
    RunInv(states, steps, k);
    assert BucketInv(states[k], b);
  }

  /** The head a writer has read stays the bucket's head until that writer advances it, and
      no writer that has begun is ever stuck for want of an enabled access. */
  lemma {:induction false} HeadStaysCurrent(states: seq<State>, steps: seq<Step>, k: nat, i: nat)
    requires IsRun(states, steps) && k < |states|
    requires i < |states[k].writers| && !states[k].writers[i].Idle?
    ensures Enabled(states[k], Advance(i))
    ensures var w := states[k].writers[i];
            w.WritingSpeed? || w.WritingTimestamp? || w.Advancing? ==>
              w.head == states[k].mem[Bucket(w)].window.head
  {
    RunInv(states, steps, k);
    var w := states[k].writers[i];
    var b := Bucket(w);
    assert BucketInv(states[k], b);
    if Inside(w) {
      assert Holds(states[k], i, b);
      var sublog := Routed(Samples(states[k].log), b);
      AccessProgresses(states[k].mem[b], ReplayBucket(sublog[..|sublog| - 1]), w);
    }
  }

  lemma {:induction false} WritersStay(states: seq<State>, steps: seq<Step>, k: nat)
    requires IsRun(states, steps) && k < |states|
    ensures |states[k].writers| == |states[0].writers|
  {
    if k > 0 {
      WritersStay(states, steps, k - 1);
      assert states[k] == Next(states[k - 1], steps[k - 1]);
    }
  }

  /** When no update is in progress the whole arena is the sequential replay of the log, and the
      log holds the updates begun, each writer's in order. */
  lemma {:induction false} QuietArenaIsReplay(states: seq<State>, steps: seq<Step>, k: nat)
    requires IsRun(states, steps) && k < |states|
    requires forall i :: 0 <= i < |states[k].writers| ==> !Inside(states[k].writers[i])
    ensures states[k].mem == ReplayArena(Samples(states[k].log))
    ensures forall i :: 0 <= i < |states[k].writers| ==>
              Begun(steps[..k], i) == LoggedBy(states[k].log, i) + Waiting(states[k].writers[i])
  {
    forall i | 0 <= i < |states[0].writers|
      ensures |states[k].writers| == |states[0].writers|
      ensures Begun(steps[..k], i) == LoggedBy(states[k].log, i) + Waiting(states[k].writers[i])
    {
      LogIsUpdates(states, steps, k, i);
    }
    WritersStay(states, steps, k);
    RunInv(states, steps, k);
    forall b | 0 <= b < BUCKET_COUNT
      ensures states[k].mem[b] == ReplayArena(Samples(states[k].log))[b]
    {
      SpinlockRefinesReplay(states, steps, k, b);
      BucketsAreIndependent(Samples(states[k].log), b);
    }
  }

  // ---------------------------------------------------------------------------
  // The log is that of the updates
  // ---------------------------------------------------------------------------

  /** The samples a writer has begun to store, in order. */
  function Begun(steps: seq<Step>, i: nat): seq<Sample> {
    if steps == [] then []
    else
      var last := steps[|steps| - 1];
      Begun(steps[..|steps| - 1], i) + (if last.Begin? && last.writer == i then [last.s] else [])
  }

  /** The samples a writer has got the lock for, in order. */
  function LoggedBy(log: seq<Entry>, i: nat): seq<Sample> {
    if log == [] then []
    else
      var last := log[|log| - 1];
      LoggedBy(log[..|log| - 1], i) + (if last.writer == i then [last.s] else [])
  }

  function Waiting(w: Writer): seq<Sample> {
    if w.Spinning? then [w.s] else []
  }

  lemma {:induction false} LoggedAfter(st: State, step: Step, i: nat)
    requires Enabled(st, step) && i < |st.writers|
    ensures var st' := Next(st, step);
            && |st'.writers| == |st.writers|
            && LoggedBy(st'.log, i) + Waiting(st'.writers[i]) ==
               LoggedBy(st.log, i) + Waiting(st.writers[i])
               + (if step.Begin? && step.writer == i then [step.s] else [])
  {
    hide LoggedBy, Access;
    var w, st' := st.writers[step.writer], Next(st, step);
    if step.Advance? && w.Spinning? {
      LoggedAppend(st.log, Entry(step.writer, w.s), i);
    } else {
      assert st'.log == st.log;
    }
    if step.writer != i {
      assert st'.writers[i] == st.writers[i];
    }
  }

  lemma {:induction false} LoggedAppend(log: seq<Entry>, e: Entry, i: nat)
    ensures LoggedBy(log + [e], i) == LoggedBy(log, i) + (if e.writer == i then [e.s] else [])
  {
    assert (log + [e])[..|log|] == log;
  }

  /** In every run the log holds, writer by writer, exactly the samples of the updates begun, in
      order and each once, but for the one whose writer is still spinning. */
  lemma {:induction false} LogIsUpdates(states: seq<State>, steps: seq<Step>, k: nat, i: nat)
    requires IsRun(states, steps) && k < |states| && i < |states[0].writers|
    ensures |states[k].writers| == |states[0].writers|
    ensures Begun(steps[..k], i) == LoggedBy(states[k].log, i) + Waiting(states[k].writers[i])
  {
    if k > 0 {
      LogIsUpdates(states, steps, k - 1, i);
      assert steps[..k][..k - 1] == steps[..k - 1];
      hide LoggedBy, Waiting, Next, Enabled;
      LoggedAfter(states[k - 1], steps[k - 1], i);
    }
  }

  lemma {:induction false} SpinsOrIsLogged(states: seq<State>, steps: seq<Step>, m: nat, k: nat)
    requires IsRun(states, steps) && m < k < |states| && steps[m].Begin?
    ensures var i, s := steps[m].writer, steps[m].s;
            && |states[m].log| <= |states[k].log| && i < |states[k].writers|
            && (|| states[k].writers[i] == Spinning(s)
                || exists p :: |states[m].log| <= p < |states[k].log| && states[k].log[p] == Entry(i, s))
  {
    var i, s := steps[m].writer, steps[m].s;
    if m < k - 1 {
      SpinsOrIsLogged(states, steps, m, k - 1);
      var st, st' := states[k - 1], states[k];
      assert Enabled(st, steps[k - 1]) && st' == Next(st, steps[k - 1]);
      if st.writers[i] == Spinning(s) {
        assert st'.writers[i] != Spinning(s) ==> st'.log[|st.log|] == Entry(i, s);
      } else {
        var p :| |states[m].log| <= p < |st.log| && st.log[p] == Entry(i, s);
        assert st'.log[p] == st.log[p];
      }
    }
  }

  /** An update that was begun and is over is in the log with its own sample, after all that
      was in the log when it began. */
  lemma {:induction false} UpdateIsLogged(states: seq<State>, steps: seq<Step>, m: nat, k: nat)
    requires IsRun(states, steps) && m < k < |states| && steps[m].Begin?
    requires steps[m].writer < |states[k].writers| && !states[k].writers[steps[m].writer].Spinning?
    ensures exists p :: |states[m].log| <= p < |states[k].log|
                        && states[k].log[p] == Entry(steps[m].writer, steps[m].s)
  {
    SpinsOrIsLogged(states, steps, m, k);
  }

  predicate BeginsNoOther(steps: seq<Step>, m: nat, k: nat)
    requires m < k <= |steps|
  {
    forall n :: m < n < k ==> !(steps[n].Begin? && steps[n].writer == steps[m].writer)
  }

  lemma {:induction false} KeepsSample(states: seq<State>, steps: seq<Step>, m: nat, k: nat)
    requires IsRun(states, steps) && m < k <= |steps| && steps[m].Begin? && BeginsNoOther(steps, m, k)
    ensures var i := steps[m].writer;
            i < |states[k].writers| && (states[k].writers[i].Idle? || states[k].writers[i].s == steps[m].s)
  {
    if m < k - 1 {
      KeepsSample(states, steps, m, k - 1);
      assert Enabled(states[k - 1], steps[k - 1]);
    }
  }

  /** When an update is about to release its lock, the bucket its cell is masked to shows that
      cell and, in the slot before the head, the speed and timestamp the update was begun with. */
  lemma {:induction false} ReleaseShowsUpdate(states: seq<State>, steps: seq<Step>, m: nat, k: nat)
    requires IsRun(states, steps) && m < k <= |steps| && steps[m].Begin? && BeginsNoOther(steps, m, k)
    requires steps[m].writer < |states[k].writers| && states[k].writers[steps[m].writer].Releasing?
    ensures |states[k].mem| == 131072
    ensures var s := steps[m].s;
            Newest(states[k].mem[s.cell % 131072], s.cell, s.speed, s.timestamp)
  {
    KeepsSample(states, steps, m, k);
    RunInv(states, steps, k);
    var st, i := states[k], steps[m].writer;
    var b := Bucket(st.writers[i]);
    RouteIsModulo(st.writers[i].s.cell);
    assert BucketInv(st, b) && Holds(st, i, b);
    hide IsRun, ReplayBucket, Route;
  }

  // ---------------------------------------------------------------------------
  // Updates come to an end
  // ---------------------------------------------------------------------------

  /** Field accesses a lock holder has still to make, the release included. */
  function AccessesLeft(w: Writer): nat {
    match w
    case Idle => 0
    case Spinning(_) => 11
    case Comparing(_) => 10
    case ClearingTimestamps(_) => 9
    case ClearingSpeeds(_) => 8
    case ClearingHead(_) => 7
    case Claiming(_) => 6
    case ReadingHead(_) => 5
    case WritingSpeed(_, _) => 4
    case WritingTimestamp(_, _) => 3
    case Advancing(_, _) => 2
    case Releasing(_) => 1
  }

  /** A writer always has its next step to take, and anyone idle may begin any update. A step
      under way brings its update closer to its end, unless it finds the lock held by
      another; the last one clears the lock. */
  lemma {:induction false} UpdatesAdvance(states: seq<State>, steps: seq<Step>, k: nat, i: nat)
    requires IsRun(states, steps) && k < |states| && i < |states[k].writers|
    ensures var st, w := states[k], states[k].writers[i];
            && (w.Idle? ==> forall s :: Enabled(st, Begin(i, s)))
            && (!w.Idle? ==>
                  && Enabled(st, Advance(i)) && |st.locked| == BUCKET_COUNT
                  && var st' := Next(st, Advance(i));
                     && |st'.locked| == BUCKET_COUNT && |st'.writers| == |st.writers|
                     && (w.Spinning? && st.locked[Bucket(w)] ==>
                           st' == st && exists j :: j != i && Holds(st, j, Bucket(w)))
                     && (!(w.Spinning? && st.locked[Bucket(w)]) ==> AccessesLeft(st'.writers[i]) < AccessesLeft(w))
                     && (st'.writers[i].Idle? ==> !st'.locked[Bucket(w)]))
  {
    RunInv(states, steps, k);
    var st, w := states[k], states[k].writers[i];
    if !w.Idle? {
      HeadStaysCurrent(states, steps, k, i);
      var b := Bucket(w);
      assert BucketInv(st, b);
      if Inside(w) {
        assert Holds(st, i, b);
        AccessProgresses(st.mem[b], ReplayBucket(Routed(Samples(st.log), b)[..|Routed(Samples(st.log), b)| - 1]), w);
      } else if st.locked[b] {
        var j :| Holds(st, j, b);
      }
    }
  }

  /** Any number of writers may start, and any run may go on with any enabled step. */
  lemma {:induction false} RunsExist(n: nat)
    ensures IsRun([State(ReplayArena([]), seq(BUCKET_COUNT, _ => false), seq(n, _ => Idle), [])], [])
  {
  }

  lemma {:induction false} RunsGoOn(states: seq<State>, steps: seq<Step>, step: Step)
    requires IsRun(states, steps) && Enabled(states[|steps|], step)
    ensures IsRun(states + [Next(states[|steps|], step)], steps + [step])
  {
  }
}
