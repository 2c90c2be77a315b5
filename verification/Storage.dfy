/** The arena updated in place, by one writer among others. */
module Storage {
  import opened Records
  import opened Arena

  /** H3's latLngToCell at the arena's resolution: a cell id, or nothing when the
      coordinates are rejected. */
  type CellOf = (Float, Float) -> Option<Uint64>

  /** What another writer does: try the lock of its sample's bucket, or, if it has the lock
      of that bucket, write its sample and clear the lock. */
  datatype Move = TryLock(s: Sample) | Finish(bucket: nat)

  /** Moves between two attempts of the current writer to take its lock. */
  type Burst = seq<Move>

  /** The samples written so far, and those whose writers hold the lock of a bucket. */
  datatype Writers = Writers(log: seq<Sample>, held: map<nat, Sample>)

  function AfterMove(w: Writers, move: Move): Writers {
    match move
    case TryLock(s) => if Route(s.cell) in w.held then w else w.(held := w.held[Route(s.cell) := s])
    case Finish(b) => if b in w.held then Writers(w.log + [w.held[b]], w.held - {b}) else w
  }

  function AfterBurst(w: Writers, burst: Burst): Writers {
    if burst == [] then w else AfterMove(AfterBurst(w, burst[..|burst| - 1]), burst[|burst| - 1])
  }

  /** After the first k bursts. */
  function AfterBursts(w: Writers, bursts: seq<Burst>, k: nat): Writers
    requires k <= |bursts|
  {
    if k == 0 then w else AfterBurst(AfterBursts(w, bursts, k - 1), bursts[k - 1])
  }

  /** An update of this sample ends after so many bursts: the first attempt that finds the
      lock clear writes the sample; without one it spins on. */
  ghost predicate Lands(before: Writers, after: Writers, bursts: seq<Burst>, used: nat, s: Sample, landed: bool)
    requires used <= |bursts|
  {
    var b, now := Route(s.cell), AfterBursts(before, bursts, used);
    && (used == 0 ==> bursts == [])
    && (forall j :: 0 < j < used ==> b in AfterBursts(before, bursts, j).held)
    && (if landed then b !in now.held && after == now.(log := now.log + [s])
        else used == |bursts| && b in now.held && after == now)
  }

  class SpatialArena {
    const cellOf: CellOf
    const buckets: array<HexBucket>
    const locks: array<bool>
    /** The samples of the other writers that hold a lock. */
    var held: map<nat, Sample>
    /** Every sample that was written, in order. */
    ghost var log: seq<Sample>

    ghost function Now(): Writers
      reads this
    {
      Writers(log, held)
    }

    /** The buckets are the replay of the log, and the locks that are set are those of the
        other writers that hold one, and the current writer's own if it does. */
    ghost predicate Consistent(own: Option<nat>)
      reads this, buckets, locks
    {
      && locks.Length == BUCKET_COUNT
      && (forall b :: 0 <= b < BUCKET_COUNT ==> (locks[b] <==> b in held || own == Some(b)))
      && (own.Some? ==> own.value < BUCKET_COUNT && own.value !in held)
      && (forall b :: b in held ==> b < BUCKET_COUNT && Route(held[b].cell) == b)
      && buckets[..] == ReplayArena(log)
    }

    ghost predicate Valid()
      reads this, buckets, locks
    {
      Consistent(None)
    }

    /** Nobody else is at work on the arena. */
    ghost predicate Quiet()
      reads this, buckets, locks
    {
      Valid() && held == map[]
    }

    lemma {:induction false} QuietIsReplay()
      requires Quiet()
      ensures buckets[..] == ReplayArena(log)
    {
    }

    constructor (cellOf: CellOf)
      ensures Valid() && fresh(buckets) && fresh(locks)
      ensures this.cellOf == cellOf && Now() == Writers([], map[])
      ensures buckets.Length == locks.Length == 131072
    {
      this.cellOf := cellOf;
      buckets := new HexBucket[BUCKET_COUNT](_ => EmptyBucket());
      locks := new bool[BUCKET_COUNT](_ => false);
      held, log := map[], [];
      new;
      assert buckets[..] == ReplayArena([]);
    }

    /** The critical section of update: field by field, the sequential write of one sample. */
    method WriteSample(index: nat, s: Sample)
      requires index < buckets.Length && Sized(buckets[index])
      modifies buckets
      ensures buckets[..] == old(buckets[..])[index := Write(old(buckets[index]), s)]
    {
      if buckets[index].h3Index != 0 && buckets[index].h3Index != s.cell {
        buckets[index] := buckets[index].(window := EmptyWindow());
      }
      buckets[index] := buckets[index].(h3Index := s.cell);
      var head := buckets[index].window.head;
      var speeds := buckets[index].window.speeds[head := s.speed];
      buckets[index] := buckets[index].(window := buckets[index].window.(speeds := speeds));
      var timestamps := buckets[index].window.timestamps[head := Truncated(s.timestamp)];
      buckets[index] := buckets[index].(window := buckets[index].window.(timestamps := timestamps));
      buckets[index] := buckets[index].(window := buckets[index].window.(head := (head + 1) % WINDOW));
    }

    /** Write a sample under the lock of its bucket and clear the lock. */
    method WriteAndClear(index: nat, s: Sample)
      requires Consistent(Some(index)) && index == Route(s.cell)
      modifies this`log, buckets, locks
      ensures Valid() && log == old(log) + [s]
    {
      hide ReplayArena, Route, Write;
      ReplayAppend(log, s);
      WriteSample(index, s);
      locks[index] := false;
      log := log + [s];
    }

    /** std::atomic_flag's test_and_set: it takes the lock unless another writer has it. */
    method TestAndSet(index: nat) returns (was: bool)
      requires Valid() && index < BUCKET_COUNT
      modifies locks
      ensures |old(locks[..])| == BUCKET_COUNT && locks[..] == old(locks[..])[index := true]
      ensures (was <==> index in held) && Consistent(if was then None else Some(index))
    {
      hide ReplayArena;
      was := locks[index];
      locks[index] := true;
    }

    method LetOneMove(move: Move)
      requires Valid()
      modifies this`log, this`held, buckets, locks
      ensures Valid() && Now() == AfterMove(old(Now()), move)
    {
      hide ReplayArena, Route;
      match move {
        case TryLock(s) =>
          RouteIsModulo(s.cell);
          var was := TestAndSet(Route(s.cell));
          if !was {
            held := held[Route(s.cell) := s];
          }
        case Finish(b) =>
          if b in held {
            var s := held[b];
            held := held - {b};
            WriteAndClear(b, s);
          }
      }
    }

    method LetOthersMove(burst: Burst)
      requires Valid()
      modifies this`log, this`held, buckets, locks
      ensures Valid() && Now() == AfterBurst(old(Now()), burst)
    {
      hide Valid, AfterMove;
      for k := 0 to |burst|
        invariant Valid() && Now() == AfterBurst(old(Now()), burst[..k])
      {
        assert burst[..k + 1][..k] == burst[..k];
        LetOneMove(burst[k]);
      }
      assert burst[..|burst|] == burst;
    }

    /** The spin loop: one burst of other writers' moves goes by before each attempt at the
        lock; when the bursts run out the others do nothing more. */
    method Spin(index: nat, bursts: seq<Burst>) returns (taken: bool, used: nat)
      requires Valid() && index < BUCKET_COUNT
      modifies this`log, this`held, buckets, locks
      ensures Consistent(if taken then Some(index) else None) && used <= |bursts|
      ensures Now() == AfterBursts(old(Now()), bursts, used) && (used == 0 ==> bursts == [])
      ensures forall j :: 0 < j < used ==> index in AfterBursts(old(Now()), bursts, j).held
      ensures if taken then index !in held else index in held && used == |bursts|
    {
      hide Consistent, AfterBurst;
      used := 0;
      if used < |bursts| {
        LetOthersMove(bursts[used]);
        used := used + 1;
      }
      var was := TestAndSet(index);
      while was
        invariant used <= |bursts| && (used == 0 ==> bursts == [])
        invariant Consistent(if was then None else Some(index)) && (was <==> index in held)
        invariant Now() == AfterBursts(old(Now()), bursts, used)
        invariant forall j :: 0 < j < used ==> index in AfterBursts(old(Now()), bursts, j).held
        decreases |bursts| - used, was
      {
        if used == |bursts| {
          return false, used;
        }
        LetOthersMove(bursts[used]);
        used := used + 1;
        was := TestAndSet(index);
      }
      taken := true;
    }

    /** SpatialArena::update: find the cell, spin until the lock of its bucket is found clear,
        write. No result means that the lock is never cleared. */
    method Update(lat: Float, lon: Float, speed: Float, timestamp: Uint64, bursts: seq<Burst>)
      returns (result: Option<bool>, used: nat)
      requires Valid()
      modifies this`log, this`held, buckets, locks
      ensures Valid() && used <= |bursts| && buckets[..] == ReplayArena(log)
      ensures cellOf(lat, lon) == None ==> result == Some(false) && Now() == old(Now())
      ensures cellOf(lat, lon).Some? ==>
                && result != Some(false)
                && var s := Sample(cellOf(lat, lon).value, speed, timestamp);
                   Lands(old(Now()), Now(), bursts, used, s, result.Some?)
    {
      var converted := cellOf(lat, lon);
      if converted == None {
        return Some(false), 0;
      }
      var s := Sample(converted.value, speed, timestamp);
      RouteIsModulo(s.cell);
      hide Route, AfterBursts, Consistent;
      var index, taken := Route(s.cell), false;
      taken, used := Spin(index, bursts);
      if taken {
        WriteAndClear(index, s);
        result := Some(true);
      } else {
        result := None;
      }
    }
  }

  /** With nobody else at work an update lands at once: its sample joins the log, unless the
      coordinates have no cell. */
  lemma {:induction false} AloneLands(before: Writers, after: Writers, used: nat, s: Sample, landed: bool)
    requires before.held == map[] && used == 0 && Lands(before, after, [], used, s, landed)
    ensures landed && after == Writers(before.log + [s], map[])
  {
  }

  /** However long it spun, an update that landed loses nobody's sample, and its bucket shows
      its cell, its own sample newest. */
  lemma {:induction false} LandedIsNewest(before: Writers, after: Writers, bursts: seq<Burst>, used: nat, s: Sample)
    requires used <= |bursts| && Lands(before, after, bursts, used, s, true)
    ensures before.log < after.log && Route(s.cell) < BUCKET_COUNT
    ensures Newest(ReplayArena(after.log)[Route(s.cell)], s.cell, s.speed, s.timestamp)
  {
    hide ReplayArena, Route, Write, Newest, AfterBursts;
    var log := AfterBursts(before, bursts, used).log;
    BurstsOnlyAdd(before, bursts, used);
    RouteIsModulo(s.cell);
    ReplayAppend(log, s);
    StoreAt(ReplayArena(log), s, Route(s.cell));
    WriteIsNewest(ReplayArena(log)[Route(s.cell)], s);
  }

  lemma {:induction false} BurstsOnlyAdd(w: Writers, bursts: seq<Burst>, k: nat)
    requires k <= |bursts|
    ensures w.log <= AfterBursts(w, bursts, k).log
  {
    if k > 0 {
      BurstsOnlyAdd(w, bursts, k - 1);
      BurstOnlyAdds(AfterBursts(w, bursts, k - 1), bursts[k - 1]);
    }
  }

  lemma {:induction false} BurstOnlyAdds(w: Writers, burst: Burst)
    ensures w.log <= AfterBurst(w, burst).log
  {
    if burst != [] {
      BurstOnlyAdds(w, burst[..|burst| - 1]);
    }
  }
}
