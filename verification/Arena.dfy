/** The spatial arena: buckets addressed by masking a cell id, each holding the cell that
    last claimed it and a circular window of samples. */
module Arena {
  import opened Records
  import opened Bits
  import opened Totals

  const BUCKET_COUNT: nat := 131072
  const WINDOW: nat := 60

  datatype TimeWindow = TimeWindow(timestamps: seq<Uint32>, speeds: seq<Float>, head: nat)

  /** A bucket's data; its lock is kept apart. */
  datatype HexBucket = HexBucket(h3Index: Uint64, window: TimeWindow)

  function EmptyWindow(): TimeWindow {
    TimeWindow(seq(WINDOW, _ => 0), seq(WINDOW, _ => ZERO), 0)
  }

  function EmptyBucket(): HexBucket {
    HexBucket(0, EmptyWindow())
  }

  /** One update whose coordinates fall into a cell. */
  datatype Sample = Sample(cell: Uint64, speed: Float, timestamp: Uint64)

  predicate Sized(b: HexBucket) {
    |b.window.timestamps| == WINDOW && |b.window.speeds| == WINDOW && b.window.head < WINDOW
  }

  function Truncated(timestamp: Uint64): Uint32 {
    timestamp % 0x1_0000_0000
  }

  /** What the critical section of update does to the bucket. */
  function Write(b: HexBucket, s: Sample): (b': HexBucket)
    requires Sized(b)
    ensures Sized(b')
  {
    var w := if b.h3Index != 0 && b.h3Index != s.cell then EmptyWindow() else b.window;
    HexBucket(s.cell, TimeWindow(w.timestamps[w.head := Truncated(s.timestamp)],
                                 w.speeds[w.head := s.speed],
                                 (w.head + 1) % WINDOW))
  }

  /** The bucket is claimed by the cell, and the slot before its head has this speed and the
      low 32 bits of this timestamp. */
  predicate Newest(b: HexBucket, cell: Uint64, speed: Float, timestamp: Uint64) {
    && Sized(b) && b.h3Index == cell
    && b.window.speeds[(b.window.head + 59) % 60] == speed
    && b.window.timestamps[(b.window.head + 59) % 60] == timestamp % 0x1_0000_0000
  }

  lemma {:induction false} WriteIsNewest(b: HexBucket, s: Sample)
    requires Sized(b)
    ensures Newest(Write(b, s), s.cell, s.speed, s.timestamp)
  {
  }

  function Route(cell: Uint64): nat {
    BitAnd(cell, BUCKET_COUNT - 1)
  }

  /** The mask picks one of the buckets, and is reduction modulo their number. */
  lemma {:induction false} RouteIsModulo(cell: Uint64)
    ensures Route(cell) == cell % BUCKET_COUNT < BUCKET_COUNT == 131072
  {
    Pow2Values();
    LowMask(cell, 17);
  }

  // ---------------------------------------------------------------------------
  // Specification: the arena is the replay of a log of samples
  // ---------------------------------------------------------------------------

  function ReplayBucket(log: seq<Sample>): (b: HexBucket)
    ensures Sized(b)
  {
    if log == [] then EmptyBucket() else Write(ReplayBucket(log[..|log| - 1]), log[|log| - 1])
  }

  /** The samples that go to bucket b, in order. */
  function Routed(log: seq<Sample>, b: nat): seq<Sample> {
    if log == [] then []
    else Routed(log[..|log| - 1], b) + (if Route(log[|log| - 1].cell) == b then [log[|log| - 1]] else [])
  }

  /** They are the samples whose id is b modulo 131072, all of them and no others. */
  lemma {:induction false} RoutedSelects(log: seq<Sample>, b: nat) returns (at: seq<nat>)
    ensures Increasing(at) && |at| == |Routed(log, b)|
    ensures forall n :: 0 <= n < |at| ==>
              at[n] < |log| && log[at[n]].cell % 131072 == b && Routed(log, b)[n] == log[at[n]]
    ensures forall i :: 0 <= i < |log| && log[i].cell % 131072 == b ==> i in at
  {
    at := [];
    if log != [] {
      var last := |log| - 1;
      at := RoutedSelects(log[..last], b);
      RouteIsModulo(log[last].cell);
      if Route(log[last].cell) == b {
        at := at + [last];
      }
    }
  }

  predicate SizedArena(arena: seq<HexBucket>) {
    |arena| == BUCKET_COUNT && forall b :: 0 <= b < |arena| ==> Sized(arena[b])
  }

  /** The whole arena after one more update. */
  function Store(arena: seq<HexBucket>, s: Sample): (arena': seq<HexBucket>)
    requires SizedArena(arena)
    ensures SizedArena(arena')
  {
    RouteIsModulo(s.cell);
    arena[Route(s.cell) := Write(arena[Route(s.cell)], s)]
  }

  function ReplayArena(log: seq<Sample>): (arena: seq<HexBucket>)
    ensures SizedArena(arena)
  {
    if log == [] then seq(BUCKET_COUNT, _ => EmptyBucket())
    else Store(ReplayArena(log[..|log| - 1]), log[|log| - 1])
  }

  lemma {:induction false} ReplayAppend(log: seq<Sample>, s: Sample)
    ensures ReplayArena(log + [s]) == Store(ReplayArena(log), s)
    ensures ReplayBucket(log + [s]) == Write(ReplayBucket(log), s)
    ensures forall b :: Routed(log + [s], b) == Routed(log, b) + (if Route(s.cell) == b then [s] else [])
  {
    assert (log + [s])[..|log| + 1 - 1] == log;
  }

  lemma {:induction false} StoreAt(arena: seq<HexBucket>, s: Sample, b: nat)
    requires SizedArena(arena) && b < BUCKET_COUNT
    ensures Store(arena, s)[b] == if Route(s.cell) == b then Write(arena[b], s) else arena[b]
  {
    RouteIsModulo(s.cell);
  }

  lemma {:induction false} StoreRouted(arena: seq<HexBucket>, sublog: seq<Sample>, s: Sample, b: nat)
    requires SizedArena(arena) && b < BUCKET_COUNT && arena[b] == ReplayBucket(sublog)
    ensures Store(arena, s)[b] == ReplayBucket(sublog + (if Route(s.cell) == b then [s] else []))
  {
    StoreAt(arena, s, b);
    if Route(s.cell) == b {
      assert (sublog + [s])[..|sublog|] == sublog;
    } else {
      assert sublog + [] == sublog;
    }
  }

  /** Buckets are independent: each is the replay of the samples routed to it. */
  lemma {:induction false} BucketsAreIndependent(log: seq<Sample>, b: nat)
    requires b < BUCKET_COUNT
    ensures ReplayArena(log)[b] == ReplayBucket(Routed(log, b))
  {
    if log != [] {
      var rest, last := log[..|log| - 1], log[|log| - 1];
      BucketsAreIndependent(rest, b);
      StoreRouted(ReplayArena(rest), Routed(rest, b), last, b);
    }
  }

  lemma {:induction false} NothingRouted(log: seq<Sample>, b: nat)
    requires forall i :: 0 <= i < |log| ==> log[i].cell % 131072 != b
    ensures Routed(log, b) == []
  {
    if log != [] {
      NothingRouted(log[..|log| - 1], b);
      RouteIsModulo(log[|log| - 1].cell);
    }
  }

  /** A bucket to which nothing was routed has no cell, a clear window and its head at 0. */
  lemma {:induction false} UntouchedIsClear(log: seq<Sample>, b: nat)
    requires b < 131072 && forall i :: 0 <= i < |log| ==> log[i].cell % 131072 != b
    ensures |ReplayArena(log)| == 131072
    ensures var bucket := ReplayArena(log)[b];
            && bucket.h3Index == 0 && bucket.window.head == 0
            && |bucket.window.speeds| == |bucket.window.timestamps| == 60
            && forall j :: 0 <= j < 60 ==> bucket.window.speeds[j] == Float(0) && bucket.window.timestamps[j] == 0
  {
    NothingRouted(log, b);
    BucketsAreIndependent(log, b);
  }

  /** Reordering a log without reordering any bucket's samples changes nothing. */
  lemma {:induction false} OnlyPerBucketOrderMatters(log: seq<Sample>, log': seq<Sample>)
    requires forall b: nat :: b < BUCKET_COUNT ==> Routed(log, b) == Routed(log', b)
    ensures ReplayArena(log) == ReplayArena(log')
  {
    forall b | 0 <= b < BUCKET_COUNT
      ensures ReplayArena(log)[b] == ReplayArena(log')[b]
    {
      BucketsAreIndependent(log, b);
      BucketsAreIndependent(log', b);
    }
  }

  // ---------------------------------------------------------------------------
  // What a bucket shows
  // ---------------------------------------------------------------------------

  /** Update i found the bucket claimed by another cell. A bucket whose id is 0 counts as
      unclaimed. */
  predicate ChangesCell(log: seq<Sample>, i: nat) {
    0 < i < |log| && log[i - 1].cell != 0 && log[i - 1].cell != log[i].cell
  }

  /** The last k updates of the log are its longest tail without a change of cell inside. */
  predicate LastVisit(log: seq<Sample>, k: nat) {
    && 1 <= k <= |log|
    && (forall i :: |log| - k < i < |log| ==> !ChangesCell(log, i))
    && (k < |log| ==> ChangesCell(log, |log| - k))
  }

  /** Sample i of a visit is in its slot. */
  predicate InSlot(w: TimeWindow, visit: seq<Sample>, i: nat)
    requires |w.timestamps| == WINDOW && |w.speeds| == WINDOW && i < |visit|
  {
    && w.speeds[i % 60] == visit[i].speed
    && w.timestamps[i % 60] == visit[i].timestamp % 0x1_0000_0000
  }

  /** The bucket shows exactly the last 60 samples of a visit: sample i in slot i mod 60,
      all other slots still zero, and the next slot to write after the last one. */
  ghost predicate Shows(b: HexBucket, visit: seq<Sample>) {
    && Sized(b) && visit != []
    && b.h3Index == visit[|visit| - 1].cell
    && b.window.head == |visit| % 60
    && (forall i :: 0 <= i < |visit| && |visit| - 60 <= i ==> InSlot(b.window, visit, i))
    && (forall j :: |visit| <= j < 60 ==> b.window.speeds[j] == Float(0) && b.window.timestamps[j] == 0)
  }

  lemma {:induction false} SlotOwner(n: nat, j: nat) returns (i: nat)
    requires j < n && j < WINDOW
    ensures i < n && n - WINDOW <= i && i % WINDOW == j
  {
    i := n - 1 - (n - 1 - j) % WINDOW;
  }

  /** Shows says everything there is to say about a bucket. */
  lemma {:induction false} ShowsDetermines(b: HexBucket, b': HexBucket, visit: seq<Sample>)
    requires Shows(b, visit) && Shows(b', visit)
    ensures b == b'
  {
    var w, w' := b.window, b'.window;
    forall j | 0 <= j < WINDOW
      ensures w.speeds[j] == w'.speeds[j] && w.timestamps[j] == w'.timestamps[j]
    {
      if j < |visit| {
        var i := SlotOwner(|visit|, j);
        assert InSlot(w, visit, i) && InSlot(w', visit, i);
      }
    }
    assert w.speeds == w'.speeds && w.timestamps == w'.timestamps;
  }

  lemma {:induction false} WriteStartsVisit(b: HexBucket, s: Sample)
    requires Sized(b) && (b == EmptyBucket() || (b.h3Index != 0 && b.h3Index != s.cell))
    ensures Shows(Write(b, s), [s])
  {
  }

  lemma {:induction false} OtherSlot(i: nat, n: nat)
    requires i < n < i + WINDOW
    ensures i % WINDOW != n % WINDOW
  {
  }

  lemma {:induction false} WriteExtendsVisit(b: HexBucket, visit: seq<Sample>, s: Sample)
    requires Shows(b, visit) && (b.h3Index == 0 || b.h3Index == s.cell)
    ensures Shows(Write(b, s), visit + [s])
  {
    forall i | 0 <= i < |visit| + 1 && |visit| + 1 - WINDOW <= i
      ensures InSlot(Write(b, s).window, visit + [s], i)
    {
      WriteKeepsSlot(b, visit, s, i);
    }
    hide InSlot;
    NextSlot(|visit|);
  }

  lemma {:induction false} WriteKeepsSlot(b: HexBucket, visit: seq<Sample>, s: Sample, i: nat)
    requires Sized(b) && (b.h3Index == 0 || b.h3Index == s.cell) && b.window.head == |visit| % WINDOW
    requires |visit| + 1 - WINDOW <= i <= |visit|
    requires i < |visit| ==> InSlot(b.window, visit, i)
    ensures InSlot(Write(b, s).window, visit + [s], i)
  {
    if i < |visit| {
      OtherSlot(i, |visit|);
    }
  }

  lemma {:induction false} NextSlot(n: nat)
    ensures (n % WINDOW + 1) % WINDOW == (n + 1) % WINDOW
    ensures n < WINDOW ==> n % WINDOW == n
  {
  }

  lemma {:induction false} LastVisitOfRest(log: seq<Sample>, k: nat)
    requires LastVisit(log, k) && |log| > 1
    ensures k == 1 <==> ChangesCell(log, |log| - 1)
    ensures k > 1 ==> LastVisit(log[..|log| - 1], k - 1)
  {
    var rest := log[..|log| - 1];
    assert forall i :: 0 <= i < |rest| ==> ChangesCell(rest, i) == ChangesCell(log, i);
  }

  lemma {:induction false} LastCell(log: seq<Sample>)
    requires log != []
    ensures ReplayBucket(log).h3Index == log[|log| - 1].cell
  {
  }

  lemma {:induction false} VisitStarts(rest: seq<Sample>, last: Sample)
    requires LastVisit(rest + [last], 1)
    ensures Shows(ReplayBucket(rest + [last]), [last])
  {
    hide Shows, Write;
    ReplayAppend(rest, last);
    if rest != [] {
      LastVisitOfRest(rest + [last], 1);
      LastCell(rest);
    }
    WriteStartsVisit(ReplayBucket(rest), last);
  }

  lemma {:induction false} VisitGoesOn(rest: seq<Sample>, last: Sample, k: nat)
    requires k > 0 && LastVisit(rest + [last], k + 1)
    ensures LastVisit(rest, k)
    ensures ReplayBucket(rest).h3Index == 0 || ReplayBucket(rest).h3Index == last.cell
  {
    LastVisitOfRest(rest + [last], k + 1);
    assert (rest + [last])[..|rest|] == rest;
    LastCell(rest);
  }

  /** A bucket that has received samples shows the last of them up to the last change of
      cell, and nothing else. */
  lemma {:induction false} BucketShowsLastVisit(log: seq<Sample>, k: nat)
    requires LastVisit(log, k)
    ensures Shows(ReplayBucket(log), log[|log| - k..])
  {
    var rest, last := log[..|log| - 1], log[|log| - 1];
    assert log == rest + [last];
    if k == 1 {
      VisitStarts(rest, last);
      assert log[|log| - k..] == [last];
    } else {
      VisitGoesOn(rest, last, k - 1);
      BucketShowsLastVisit(rest, k - 1);
      hide Shows, Write, LastVisit, ReplayBucket;
      ReplayAppend(rest, last);
      WriteExtendsVisit(ReplayBucket(rest), rest[|rest| - (k - 1)..], last);
      TailOfAppend(rest, last, |rest| - (k - 1));
    }
  }

  lemma {:induction false} TailOfAppend<T>(rest: seq<T>, last: T, from: nat)
    requires from <= |rest|
    ensures (rest + [last])[from..] == rest[from..] + [last]
  {
  }

  /** Every log that is not empty has exactly one last visit. */
  lemma {:induction false} LastVisitExists(log: seq<Sample>) returns (k: nat)
    requires log != []
    ensures LastVisit(log, k)
    ensures forall k' :: LastVisit(log, k') ==> k' == k
  {
    k := 1;
    while k < |log| && !ChangesCell(log, |log| - k)
      invariant 1 <= k <= |log|
      invariant forall i :: |log| - k < i < |log| ==> !ChangesCell(log, i)
    {
      k := k + 1;
    }
  }

  /** The longest tail of updates with the same cell. */
  predicate LongestSameCellTail(log: seq<Sample>, k: nat) {
    && 1 <= k <= |log|
    && (forall i :: |log| - k <= i < |log| ==> log[i].cell == log[|log| - 1].cell)
    && (k < |log| ==> log[|log| - k - 1].cell != log[|log| - 1].cell)
  }

  /** Cell ids are never 0, so a visit is a stretch of one cell, and a bucket never mixes
      samples of two cells. */
  lemma {:induction false} VisitIsOneCell(log: seq<Sample>, k: nat)
    requires forall i :: 0 <= i < |log| ==> log[i].cell != 0
    ensures LastVisit(log, k) <==> LongestSameCellTail(log, k)
    ensures LastVisit(log, k) ==> Shows(ReplayBucket(log), log[|log| - k..])
  {
    if LastVisit(log, k) {
      SameCell(log, |log| - k);
      BucketShowsLastVisit(log, k);
    }
  }

  lemma {:induction false} SameCell(log: seq<Sample>, from: nat)
    requires from < |log| && forall i :: 0 <= i < |log| ==> log[i].cell != 0
    requires forall i :: from < i < |log| ==> !ChangesCell(log, i)
    ensures forall i :: from <= i < |log| ==> log[i].cell == log[|log| - 1].cell
    decreases |log| - from
  {
    if from < |log| - 1 {
      SameCell(log, from + 1);
      assert !ChangesCell(log, from + 1);
    }
  }

  /** For arbitrary ids: a visit is the longest tail of one cell exactly when it does not lead
      from id 0, which counts as no cell, to another one. */
  lemma {:induction false} VisitIsOneCellIff(log: seq<Sample>, k: nat)
    requires LastVisit(log, k)
    ensures LongestSameCellTail(log, k) <==> log[|log| - k].cell != 0 || log[|log| - 1].cell == 0
  {
    if log[|log| - 1].cell == 0 {
      ZeroBefore(log, |log| - k);
    } else if log[|log| - k].cell != 0 {
      CellLasts(log, |log| - k, |log| - 1);
      forall i | |log| - k <= i < |log|
        ensures log[i].cell == log[|log| - k].cell
      {
        CellLasts(log, |log| - k, i);
      }
    }
  }

  lemma {:induction false} CellLasts(log: seq<Sample>, from: nat, to: nat)
    requires from <= to < |log| && log[from].cell != 0
    requires forall i :: from < i < |log| ==> !ChangesCell(log, i)
    ensures log[to].cell == log[from].cell
  {
    if from < to {
      CellLasts(log, from, to - 1);
      assert !ChangesCell(log, to);
    }
  }

  lemma {:induction false} ZeroBefore(log: seq<Sample>, from: nat)
    requires from < |log| && log[|log| - 1].cell == 0
    requires forall i :: from < i < |log| ==> !ChangesCell(log, i)
    ensures forall i :: from <= i < |log| ==> log[i].cell == 0
  {
    forall i | from <= i < |log|
      ensures log[i].cell == 0
    {
      if log[i].cell != 0 {
        CellLasts(log, i, |log| - 1);
      }
    }
  }

  /** The window of every bucket of the arena: in its initial state if no sample was routed
      to it, else showing the longest tail of one cell among those that were. */
  lemma {:induction false} ArenaShowsLastCell(log: seq<Sample>, b: nat)
    requires b < BUCKET_COUNT && forall i :: 0 <= i < |log| ==> log[i].cell != 0
    ensures var sublog := Routed(log, b);
            if sublog == [] then ReplayArena(log)[b] == EmptyBucket()
            else exists k :: LongestSameCellTail(sublog, k) && Shows(ReplayArena(log)[b], sublog[|sublog| - k..])
  {
    hide Shows, LastVisit, LongestSameCellTail, ReplayArena;
    var sublog := Routed(log, b);
    BucketsAreIndependent(log, b);
    if sublog != [] {
      RoutedIsNonZero(log, b);
      var k := LastVisitExists(sublog);
      VisitIsOneCell(sublog, k);
    }
  }

  lemma {:induction false} RoutedIsNonZero(log: seq<Sample>, b: nat)
    requires forall i :: 0 <= i < |log| ==> log[i].cell != 0
    ensures forall i :: 0 <= i < |Routed(log, b)| ==> Routed(log, b)[i].cell != 0
  {
    if log != [] {
      RoutedIsNonZero(log[..|log| - 1], b);
    }
  }

  /** The non-zero test is needed: after a sample with id 0 another cell's sample would join
      the same window. */
  lemma {:induction false} ZeroIdWouldMix(a: Sample, b: Sample)
    requires a.cell == 0 && b.cell != 0
    ensures !LongestSameCellTail([a, b], 2) && Shows(ReplayBucket([a, b]), [a, b])
  {
    var log := [a, b];
    assert log[|log| - 2].cell != log[|log| - 1].cell;
    assert LastVisit(log, 2);
    BucketShowsLastVisit(log, 2);
    assert log[|log| - 2..] == log;
  }

  // ---------------------------------------------------------------------------
  // Where the cells of one resolution go
  // ---------------------------------------------------------------------------

  const H3_RESOLUTION: nat := 9
  const H3_MAX_RESOLUTION: nat := 15

  function Pow8(k: nat): (p: nat)
    ensures p > 0
  {
    if k == 0 then 1 else 8 * Pow8(k - 1)
  }

  function OctalDigit(x: nat, position: nat): nat {
    if position == 0 then x % 8 else OctalDigit(x / 8, position - 1)
  }

  /** The digit of a cell id for a resolution, in H3's published cell index layout: three
      bits per resolution, the finest one lowest. */
  function Digit(cell: Uint64, resolution: nat): nat
    requires resolution <= H3_MAX_RESOLUTION
  {
    OctalDigit(cell, H3_MAX_RESOLUTION - resolution)
  }

  /** In that layout the digits finer than the cell's resolution are all 7. */
  predicate FinerDigitsUnused(cell: Uint64, resolution: nat) {
    forall r :: resolution < r <= H3_MAX_RESOLUTION ==> Digit(cell, r) == 7
  }

  lemma {:induction false} TrailingSevens(x: nat, d: nat) returns (q: nat)
    requires forall j :: 0 <= j < d ==> OctalDigit(x, j) == 7
    ensures x == Pow8(d) * q + Pow8(d) - 1
  {
    if d == 0 {
      q := x;
    } else {
      assert OctalDigit(x, 0) == 7;
      forall j | 0 <= j < d - 1
        ensures OctalDigit(x / 8, j) == 7
      {
        assert OctalDigit(x, j + 1) == 7;
      }
      q := TrailingSevens(x / 8, d - 1);
      assert x == 8 * (Pow8(d - 1) * q + Pow8(d - 1) - 1) + 7;
      assert Pow8(d) * q == 8 * (Pow8(d - 1) * q);
    }
  }

  /** At resolution 9, the one the arena uses, and at every coarser one, the mask keeps only
      unused digits: every cell goes to the last bucket. */
  lemma {:induction false} CoarseCellsCollide(cell: Uint64, resolution: nat)
    requires resolution <= H3_RESOLUTION && FinerDigitsUnused(cell, resolution)
    ensures BitAnd(cell, 262143) == 262143
    ensures Route(cell) == BUCKET_COUNT - 1
  {
    forall j | 0 <= j < 6
      ensures OctalDigit(cell, j) == 7
    {
      assert Digit(cell, 15 - j) == 7;
    }
    var q := TrailingSevens(cell, 6);
    assert Pow8(6) == 262144 by {
      assert Pow8(2) == 64 && Pow8(4) == 4096;
    }
    Remainder(cell, 262144, q, 262143);
    Remainder(cell, 131072, 2 * q + 1, 131071);
    Pow2Values();
    LowMask(cell, 18);
    RouteIsModulo(cell);
  }

  lemma {:induction false} EverythingRoutedToLast(log: seq<Sample>, b: nat)
    requires forall i :: 0 <= i < |log| ==> Route(log[i].cell) == BUCKET_COUNT - 1
    ensures Routed(log, b) == if b == BUCKET_COUNT - 1 then log else []
  {
    if log != [] {
      EverythingRoutedToLast(log[..|log| - 1], b);
      assert log == log[..|log| - 1] + [log[|log| - 1]];
    }
  }

  /** The spread over buckets fails: after any run of resolution-9 updates every bucket but
      the last is still in its initial state, and the last one shows the longest tail of one
      cell among all the updates together. */
  lemma {:induction false} Resolution9Collapse(log: seq<Sample>, b: nat)
    requires forall i :: 0 <= i < |log| ==> FinerDigitsUnused(log[i].cell, H3_RESOLUTION)
    requires b < BUCKET_COUNT
    ensures b != BUCKET_COUNT - 1 ==> ReplayArena(log)[b] == EmptyBucket()
    ensures b == BUCKET_COUNT - 1 && log != [] ==>
              exists k :: LongestSameCellTail(log, k) && Shows(ReplayArena(log)[b], log[|log| - k..])
  {
    forall i | 0 <= i < |log|
      ensures Route(log[i].cell) == BUCKET_COUNT - 1 && log[i].cell != 0
    {
      CoarseCellsCollide(log[i].cell, H3_RESOLUTION);
    }
    hide Shows, LongestSameCellTail, ReplayArena, FinerDigitsUnused;
    EverythingRoutedToLast(log, b);
    ArenaShowsLastCell(log, b);
  }

  // ---------------------------------------------------------------------------
  // Which resolutions collapse
  // ---------------------------------------------------------------------------

  /** What stands above the last n octal digits. */
  function Above(x: nat, n: nat): nat {
    if n == 0 then x else Above(x / 8, n - 1)
  }

  /** A cell id of this resolution, in the same layout: mode 1 and the resolution, one of 122
      base cells, a digit up to 6 for each resolution used, 7 for each finer one. */
  predicate IsCell(cell: Uint64, resolution: nat) {
    && resolution <= H3_MAX_RESOLUTION
    && Above(cell, H3_MAX_RESOLUTION) / 128 == 128 + resolution
    && Above(cell, H3_MAX_RESOLUTION) % 128 < 122
    && (forall r :: 1 <= r <= resolution ==> Digit(cell, r) <= 6)
    && FinerDigitsUnused(cell, resolution)
  }

  function Octal(head: nat, digits: seq<nat>): nat {
    if digits == [] then head else 8 * Octal(head, digits[..|digits| - 1]) + digits[|digits| - 1]
  }

  lemma {:induction false} OctalReadsBack(head: nat, digits: seq<nat>)
    requires forall i :: 0 <= i < |digits| ==> digits[i] < 8
    ensures Above(Octal(head, digits), |digits|) == head
    ensures forall j :: 0 <= j < |digits| ==> OctalDigit(Octal(head, digits), j) == digits[|digits| - 1 - j]
  {
    if digits != [] {
      var n, rest, last := |digits| - 1, digits[..|digits| - 1], digits[|digits| - 1];
      OctalReadsBack(head, rest);
      var x, y := Octal(head, digits), Octal(head, rest);
      assert x == 8 * y + last && x / 8 == y && x % 8 == last;
      forall j | 0 <= j < |digits|
        ensures OctalDigit(x, j) == digits[n - j]
      {
        if j > 0 {
          assert OctalDigit(x, j) == OctalDigit(y, j - 1);
        }
      }
    }
  }

  lemma {:induction false} OctalBound(head: nat, digits: seq<nat>)
    requires forall i :: 0 <= i < |digits| ==> digits[i] < 8
    ensures Octal(head, digits) < (head + 1) * Pow8(|digits|)
  {
    if digits != [] {
      var n := |digits| - 1;
      OctalBound(head, digits[..n]);
      assert (head + 1) * Pow8(|digits|) == 8 * ((head + 1) * Pow8(n));
    }
  }

  lemma {:induction false} Pow8Of15()
    ensures Pow8(15) == 0x2000_0000_0000
  {
    assert Pow8(3) == 512 && Pow8(6) == 262144 && Pow8(9) == 134217728;
  }

  /** The id of the given base cell and digits. */
  lemma {:induction false} MakeCell(resolution: nat, base: nat, digits: seq<nat>) returns (cell: Uint64)
    requires resolution <= H3_MAX_RESOLUTION && base < 122 && |digits| == H3_MAX_RESOLUTION
    requires forall i :: 0 <= i < |digits| ==> if i < resolution then digits[i] <= 6 else digits[i] == 7
    ensures IsCell(cell, resolution)
    ensures forall r :: 1 <= r <= H3_MAX_RESOLUTION ==> Digit(cell, r) == digits[r - 1]
  {
    var head := (128 + resolution) * 128 + base;
    OctalReadsBack(head, digits);
    OctalBound(head, digits);
    Pow8Of15();
    hide Octal, Above, OctalDigit, Pow8;
    assert head / 128 == 128 + resolution && head % 128 == base;
    assert head + 1 <= 0x8000;
    cell := Octal(head, digits);
  }

  lemma {:induction false} LowPart(x: nat, q: nat, r: nat)
    requires x == 32768 * q + r && r < 32768
    ensures x % 131072 / 32768 == q % 8 % 4
  {
    Remainder(x, 131072, q / 4, 32768 * (q % 4) + r);
  }

  /** The mask keeps two bits of the digit for resolution 10. */
  lemma {:induction false} RouteKeepsTenth(cell: Uint64)
    ensures Route(cell) / 32768 == Digit(cell, 10) % 4
  {
    RouteIsModulo(cell);
    hide Route;
    var c2, c4 := cell / 8 / 8, cell / 8 / 8 / 8 / 8;
    assert OctalDigit(cell, 5) == OctalDigit(c2, 3);
    assert OctalDigit(c2, 3) == OctalDigit(c4, 1);
    LowPart(cell, c4 / 8, cell - 32768 * (c4 / 8));
  }

  /** Two cells of any finer resolution that go to different buckets. */
  lemma {:induction false} FinerCellsSpread(resolution: nat) returns (a: Uint64, b: Uint64)
    requires H3_RESOLUTION < resolution <= H3_MAX_RESOLUTION
    ensures IsCell(a, resolution) && IsCell(b, resolution) && Route(a) != Route(b)
  {
    var digits := seq(H3_MAX_RESOLUTION, i => if i < resolution then 0 else 7);
    a := MakeCell(resolution, 0, digits);
    b := MakeCell(resolution, 0, digits[9 := 1]);
    RouteKeepsTenth(a);
    RouteKeepsTenth(b);
  }

  /** The collapse is exact: all cells of a resolution share a bucket if and only if the
      resolution is at most 9, whether the ids are cells in every respect or only have
      their finer digits unused. */
  lemma {:induction false} CollapseThreshold(resolution: nat)
    requires resolution <= H3_MAX_RESOLUTION
    ensures (forall a, b :: IsCell(a, resolution) && IsCell(b, resolution) ==> Route(a) == Route(b))
            <==> resolution <= H3_RESOLUTION
    ensures (forall a, b ::
               FinerDigitsUnused(a, resolution) && FinerDigitsUnused(b, resolution) ==> Route(a) == Route(b))
            <==> resolution <= H3_RESOLUTION
  {
    if resolution <= H3_RESOLUTION {
      forall a: Uint64 | FinerDigitsUnused(a, resolution)
        ensures Route(a) == BUCKET_COUNT - 1
      {
        CoarseCellsCollide(a, resolution);
      }
    } else {
      var a, b := FinerCellsSpread(resolution);
    }
  }

  /** Two cells of resolution 9 in one bucket: the second update clears the first one's
      sample, and the first one's cell is found nowhere any more. */
  lemma {:induction false} NeighboursCollide(first: Sample, second: Sample, b: nat)
    requires first.cell == 0x8928308280fffff && second.cell == 0x8928308280bffff && b < BUCKET_COUNT
    ensures IsCell(first.cell, H3_RESOLUTION) && IsCell(second.cell, H3_RESOLUTION)
    ensures b == BUCKET_COUNT - 1 ==> Shows(ReplayArena([first, second])[b], [second])
    ensures b != BUCKET_COUNT - 1 ==> ReplayArena([first, second])[b] == EmptyBucket()
  {
    NeighbourId(first.cell, 3);
    NeighbourId(second.cell, 2);
    var log := [first, second];
    Resolution9Collapse(log, b);
    if b == BUCKET_COUNT - 1 {
      var k :| LongestSameCellTail(log, k) && Shows(ReplayArena(log)[b], log[|log| - k..]);
      assert log[0].cell != log[1].cell;
      assert log[|log| - k..] == [second];
    }
  }

  lemma {:induction false} AboveNext(x: nat, n: nat)
    ensures OctalDigit(x, n) == Above(x, n) % 8 && Above(x, n + 1) == Above(x, n) / 8
  {
    if n > 0 {
      AboveNext(x / 8, n - 1);
    }
  }

  /** Ids that differ in the digit for resolution 9 only. */
  lemma {:induction false} NeighbourId(cell: Uint64, last: nat)
    requires last <= 6 && cell == 0x89283082803ffff + last * 0x40000
    ensures IsCell(cell, H3_RESOLUTION)
  {
    assert Above(cell, 0) == cell;
    hide Above, OctalDigit;
    forall n: nat | n < 15
      ensures OctalDigit(cell, n) == Above(cell, n) % 8 && Above(cell, n + 1) == Above(cell, n) / 8
    {
      AboveNext(cell, n);
    }
    assert Above(cell, 0 + 1) == 0x112506105007fff + last * 32768;
    assert Above(cell, 1 + 1) == 0x224a0c20a00fff + last * 4096;
    assert Above(cell, 2 + 1) == 0x44941841401ff + last * 512;
    assert Above(cell, 3 + 1) == 0x89283082803f + last * 64;
    assert Above(cell, 4 + 1) == 0x112506105007 + last * 8;
    assert Above(cell, 5 + 1) == 0x224a0c20a00 + last;
    assert Above(cell, 6 + 1) == 0x4494184140 && Above(cell, 7 + 1) == 0x892830828 && Above(cell, 8 + 1) == 0x112506105;
    assert Above(cell, 9 + 1) == 0x224a0c20 && Above(cell, 10 + 1) == 0x4494184 && Above(cell, 11 + 1) == 0x892830;
    assert Above(cell, 12 + 1) == 0x112506 && Above(cell, 13 + 1) == 0x224a0 && Above(cell, 14 + 1) == 0x4494;
  }
}
