/** The two loops of the program: the ingestion thread, which feeds the buffer, and the
    consumer, which empties it into the arena. */
module Engine {
  import opened Records
  import opened BoundedQueue
  import opened Rings
  import opened Parser
  import opened Arena
  import opened Storage
  import opened Totals

  // ---------------------------------------------------------------------------
  // What the loops have to achieve
  // ---------------------------------------------------------------------------

  function FeedRecords(feed: Feed): seq<VehicleData> {
    RecordsOf(Entities(feed))
  }

  /** All records of a sequence of feeds, flattened. */
  function Stream(feeds: seq<Feed>): seq<VehicleData> {
    if feeds == [] then [] else Stream(feeds[..|feeds| - 1]) + FeedRecords(feeds[|feeds| - 1])
  }

  /** What has been sent when the feeds so far contributed these shares, all but the last in full. */
  function Sent(feeds: seq<Feed>, shares: seq<nat>): seq<VehicleData>
    requires Shares(feeds, shares)
  {
    if shares == [] then []
    else
      var last := |shares| - 1;
      Stream(feeds[..last]) + FeedRecords(feeds[last])[..shares[last]]
  }

  predicate Shares(feeds: seq<Feed>, shares: seq<nat>) {
    && |shares| <= |feeds|
    && (forall k :: 0 <= k < |shares| - 1 ==> shares[k] == |FeedRecords(feeds[k])|)
    && (shares != [] ==> shares[|shares| - 1] <= |FeedRecords(feeds[|shares| - 1])|)
  }

  function Total(shares: seq<nat>): nat {
    if shares == [] then 0 else Total(shares[..|shares| - 1]) + shares[|shares| - 1]
  }

  lemma {:induction false} StreamPrefix(feeds: seq<Feed>, k: nat)
    requires k <= |feeds|
    ensures Stream(feeds[..k]) <= Stream(feeds)
    decreases |feeds| - k
  {
    if k < |feeds| {
      StreamPrefix(feeds, k + 1);
      assert feeds[..k + 1][..k] == feeds[..k];
    } else {
      assert feeds[..k] == feeds;
    }
  }

  /** Every record of every feed that was decoded has its place in the flattened records, after
      all those of the feeds before. */
  lemma {:induction false} RecordInStream(feeds: seq<Feed>, k: nat, n: nat)
    requires k < |feeds| && feeds[k].Some? && n < |RecordsOf(feeds[k].value)|
    ensures |Stream(feeds[..k])| + n < |Stream(feeds)|
    ensures Stream(feeds)[|Stream(feeds[..k])| + n] == RecordsOf(feeds[k].value)[n]
  {
    StreamPrefix(feeds, k + 1);
    assert feeds[..k + 1][..k] == feeds[..k];
    assert Stream(feeds[..k + 1]) == Stream(feeds[..k]) + RecordsOf(feeds[k].value);
  }

  function Share(feed: Feed): nat {
    if feed.Some? then |RecordsOf(feed.value)| else 0
  }

  /** And there are no others. */
  lemma {:induction false} StreamLength(feeds: seq<Feed>)
    ensures |Stream(feeds)| == Sum(feeds, Share)
  {
    if feeds != [] {
      var rest, last := feeds[..|feeds| - 1], feeds[|feeds| - 1];
      StreamLength(rest);
      SumAppend(rest, last, Share);
      assert feeds == rest + [last];
    }
  }

  lemma {:induction false} FullShares(feeds: seq<Feed>, shares: seq<nat>)
    requires |shares| <= |feeds|
    requires forall k :: 0 <= k < |shares| ==> shares[k] == |FeedRecords(feeds[k])|
    ensures Total(shares) == |Stream(feeds[..|shares|])|
  {
    if shares != [] {
      var last := |shares| - 1;
      FullShares(feeds, shares[..last]);
      assert feeds[..|shares|][..last] == feeds[..last];
    }
  }

  /** What has been sent is a prefix of all records, as long as the shares add up to. */
  lemma {:induction false} SentIsPrefix(feeds: seq<Feed>, shares: seq<nat>)
    requires Shares(feeds, shares)
    ensures Sent(feeds, shares) <= Stream(feeds) && |Sent(feeds, shares)| == Total(shares)
  {
    if shares != [] {
      var last := |shares| - 1;
      FullShares(feeds, shares[..last]);
      StreamPrefix(feeds, last + 1);
      assert feeds[..last + 1][..last] == feeds[..last];
    }
  }

  /** The sample a popped record contributes, if any: none for the sentinel id or for
      coordinates without a cell. */
  function Kept1(item: VehicleData, cellOf: CellOf): seq<Sample> {
    if IsSentinel(item) then []
    else
      match cellOf(item.lat, item.lon)
      case None => []
      case Some(cell) => [Sample(cell, item.speed, item.timestamp)]
  }

  function Kept(items: seq<VehicleData>, cellOf: CellOf): seq<Sample> {
    if items == [] then []
    else Kept(items[..|items| - 1], cellOf) + Kept1(items[|items| - 1], cellOf)
  }

  lemma {:induction false} KeptNext(items: seq<VehicleData>, item: VehicleData, cellOf: CellOf)
    ensures Kept(items + [item], cellOf) == Kept(items, cellOf) + Kept1(item, cellOf)
  {
    assert (items + [item])[..|items|] == items;
  }

  function Skipped(items: seq<VehicleData>): nat {
    if items == [] then 0
    else Skipped(items[..|items| - 1]) + (if IsSentinel(items[|items| - 1]) then 1 else 0)
  }

  function Rejected(items: seq<VehicleData>, cellOf: CellOf): nat {
    if items == [] then 0
    else
      var last := items[|items| - 1];
      Rejected(items[..|items| - 1], cellOf)
      + (if !IsSentinel(last) && cellOf(last.lat, last.lon) == None then 1 else 0)
  }

  /** Nothing popped goes missing: each record is skipped, rejected or stored. */
  lemma {:induction false} Conservation(items: seq<VehicleData>, cellOf: CellOf)
    ensures |items| == Skipped(items) + Rejected(items, cellOf) + |Kept(items, cellOf)|
    ensures Skipped(items) == |set i: nat | i < |items| && IsSentinel(items[i])|
    ensures Rejected(items, cellOf) ==
            |set i: nat | i < |items| && !IsSentinel(items[i]) && cellOf(items[i].lat, items[i].lon) == None|
  {
    NoneGoesMissing(items, cellOf);
    SkippedCounts(items);
    RejectedCounts(items, cellOf);
  }

  lemma {:induction false} NoneGoesMissing(items: seq<VehicleData>, cellOf: CellOf)
    ensures |items| == Skipped(items) + Rejected(items, cellOf) + |Kept(items, cellOf)|
  {
    if items != [] {
      NoneGoesMissing(items[..|items| - 1], cellOf);
    }
  }

  lemma {:induction false} SkippedCounts(items: seq<VehicleData>)
    ensures Skipped(items) == |set i: nat | i < |items| && IsSentinel(items[i])|
  {
    hide IsSentinel;
    if items != [] {
      var last := |items| - 1;
      var rest := items[..last];
      SkippedCounts(rest);
      OneMore((set i: nat | i < |rest| && IsSentinel(rest[i])),
              (set i: nat | i < |items| && IsSentinel(items[i])), last, IsSentinel(items[last]));
    }
  }

  lemma {:induction false} RejectedCounts(items: seq<VehicleData>, cellOf: CellOf)
    ensures Rejected(items, cellOf) ==
            |set i: nat | i < |items| && !IsSentinel(items[i]) && cellOf(items[i].lat, items[i].lon) == None|
  {
    hide IsSentinel;
    if items != [] {
      var last := |items| - 1;
      var rest, item := items[..last], items[last];
      RejectedCounts(rest, cellOf);
      OneMore((set i: nat | i < |rest| && !IsSentinel(rest[i]) && cellOf(rest[i].lat, rest[i].lon) == None),
              (set i: nat | i < |items| && !IsSentinel(items[i]) && cellOf(items[i].lat, items[i].lon) == None),
              last, !IsSentinel(item) && cellOf(item.lat, item.lon) == None);
    }
  }

  /** The n-th sample kept is that of record p. */
  ghost predicate Picks(items: seq<VehicleData>, cellOf: CellOf, n: nat, p: nat) {
    && n < |Kept(items, cellOf)| && p < |items|
    && Kept1(items[p], cellOf) == [Kept(items, cellOf)[n]]
  }

  lemma {:induction false} PicksNext(rest: seq<VehicleData>, item: VehicleData, cellOf: CellOf)
    ensures forall n, p :: Picks(rest, cellOf, n, p) ==> Picks(rest + [item], cellOf, n, p)
    ensures Kept1(item, cellOf) != [] ==> Picks(rest + [item], cellOf, |Kept(rest, cellOf)|, |rest|)
    ensures |Kept(rest + [item], cellOf)| == |Kept(rest, cellOf)| + (if Kept1(item, cellOf) == [] then 0 else 1)
  {
    KeptNext(rest, item, cellOf);
    assert |Kept1(item, cellOf)| <= 1;
    hide Kept, Kept1;
  }

  ghost predicate Selected(items: seq<VehicleData>, cellOf: CellOf, at: seq<nat>) {
    && Increasing(at) && |at| == |Kept(items, cellOf)|
    && (forall n :: 0 <= n < |at| ==> Picks(items, cellOf, n, at[n]))
    && (forall n :: 0 <= n < |at| ==> at[n] < |items|)
    && (forall i :: 0 <= i < |items| && Kept1(items[i], cellOf) != [] ==> i in at)
  }

  lemma {:induction false} SelectNext(rest: seq<VehicleData>, item: VehicleData, cellOf: CellOf, before: seq<nat>)
    requires Selected(rest, cellOf, before)
    ensures Selected(rest + [item], cellOf, before + (if Kept1(item, cellOf) == [] then [] else [|rest|]))
  {
    var items := rest + [item];
    var at := before + (if Kept1(item, cellOf) == [] then [] else [|rest|]);
    PicksNext(rest, item, cellOf);
    hide Kept, Kept1, Picks;
    forall i | 0 <= i < |items| && Kept1(items[i], cellOf) != []
      ensures i in at
    {
      assert if i < |rest| then i in before else at[|before|] == i;
    }
  }

  lemma {:induction false} SelectAll(items: seq<VehicleData>, cellOf: CellOf) returns (at: seq<nat>)
    ensures Selected(items, cellOf, at)
  {
    at := [];
    if items != [] {
      var rest, item := items[..|items| - 1], items[|items| - 1];
      at := SelectAll(rest, cellOf);
      hide Selected;
      SelectNext(rest, item, cellOf, at);
      assert items == rest + [item];
      at := at + (if Kept1(item, cellOf) == [] then [] else [|rest|]);
    }
  }

  /** The samples kept are the cell, speed and timestamp of the records that are not skipped
      and have a cell, all of them and no others, in order. */
  lemma {:induction false} KeptSelects(items: seq<VehicleData>, cellOf: CellOf) returns (at: seq<nat>)
    ensures Increasing(at) && |at| == |Kept(items, cellOf)|
    ensures forall n :: 0 <= n < |at| ==>
              && at[n] < |items|
              && var item := items[at[n]];
                 && !IsSentinel(item) && cellOf(item.lat, item.lon).Some?
                 && Kept(items, cellOf)[n] == Sample(cellOf(item.lat, item.lon).value, item.speed, item.timestamp)
    ensures forall i :: 0 <= i < |items| ==>
              !IsSentinel(items[i]) && cellOf(items[i].lat, items[i].lon).Some? ==> i in at
  {
    hide IsSentinel, Kept;
    at := SelectAll(items, cellOf);
    assert forall n :: 0 <= n < |at| ==> Picks(items, cellOf, n, at[n]);
  }

  // ---------------------------------------------------------------------------
  // The loops
  // ---------------------------------------------------------------------------

  /** How a loop's run came to its end: it saw the shutdown, it has done everything it was
      given, or it sleeps in the buffer and no other thread is left to wake it. */
  datatype Outcome = Stopped | Done | Waiting

  lemma {:induction false} AcceptedConcat(a: seq<Event>, b: seq<Event>)
    ensures Accepted(a + b) == Accepted(a) + Accepted(b)
    ensures Delivered(a + b) == Delivered(a) + Delivered(b)
  {
    hide Replay, Legal, By, Pops;
    assert Accepted([]) == [] && Delivered([]) == [];
    hide Accepted, Delivered;
    if b == [] {
      assert a + b == a;
    } else {
      var rest, last := b[..|b| - 1], b[|b| - 1];
      AcceptedConcat(a, rest);
      assert a + b == (a + rest) + [last];
      Append(a + rest, last);
      assert b == rest + [last];
      Append(rest, last);
    }
  }

  lemma {:induction false} AcceptedPushes(me: nat, items: seq<VehicleData>)
    ensures Accepted(Pushes(me, items)) == items
  {
    if items != [] {
      var rest, last := items[..|items| - 1], items[|items| - 1];
      AcceptedPushes(me, rest);
      hide Replay, Legal, By, Accepted, Delivered;
      assert Pushes(me, items) == Pushes(me, rest) + [Event(me, Push(last), Pushed(true))];
      Append(Pushes(me, rest), Event(me, Push(last), Pushed(true)));
    }
  }

  lemma {:induction false} AcceptedByParse(
    before: seq<Event>, log: seq<Event>, me: nat, records: seq<VehicleData>, pushed: nat, refused: bool)
    requires HasPushed(before, log, me, records, pushed, refused)
    ensures Accepted(By(log, me)) == Accepted(before) + records[..pushed]
  {
    var last := if refused then [Event(me, Push(records[pushed]), Pushed(false))] else [];
    AcceptedConcat(before + Pushes(me, records[..pushed]), last);
    AcceptedConcat(before, Pushes(me, records[..pushed]));
    AcceptedPushes(me, records[..pushed]);
    assert last == [] || last[..0] == [];
  }

  /** All shares so far are full unless the buffer has been shut down. */
  predicate FullUnlessShutdown(feeds: seq<Feed>, shares: seq<nat>, shutdown: bool)
    requires Shares(feeds, shares)
  {
    shutdown || shares == [] || shares[|shares| - 1] == |FeedRecords(feeds[|shares| - 1])|
  }

  lemma {:induction false} SentNext(feeds: seq<Feed>, shares: seq<nat>, pushed: nat)
    requires Shares(feeds, shares) && FullUnlessShutdown(feeds, shares, false)
    requires |shares| < |feeds| && pushed <= |FeedRecords(feeds[|shares|])|
    ensures Shares(feeds, shares + [pushed])
    ensures Sent(feeds, shares + [pushed]) == Sent(feeds, shares) + FeedRecords(feeds[|shares|])[..pushed]
  {
    if shares != [] {
      var last := |shares| - 1;
      assert FeedRecords(feeds[last])[..shares[last]] == FeedRecords(feeds[last]);
      assert feeds[..|shares|][..last] == feeds[..last];
    }
    assert (shares + [pushed])[|shares|] == pushed;
  }

  /** On top of what it had accepted before, a thread has accepted these shares of the feeds;
      full says whether the last share is complete too. */
  ghost predicate Ingested(
    before: seq<VehicleData>, accepted: seq<VehicleData>, feeds: seq<Feed>, shares: seq<nat>, full: bool) {
    && Shares(feeds, shares)
    && accepted == before + Sent(feeds, shares)
    && (full <==> FullUnlessShutdown(feeds, shares, false))
  }

  lemma {:induction false} IngestedNext(
    before: seq<VehicleData>, accepted: seq<VehicleData>, feeds: seq<Feed>, shares: seq<nat>, pushed: nat)
    requires Ingested(before, accepted, feeds, shares, true)
    requires |shares| < |feeds| && pushed <= |FeedRecords(feeds[|shares|])|
    ensures var records := FeedRecords(feeds[|shares|]);
            Ingested(before, accepted + records[..pushed], feeds, shares + [pushed], pushed == |records|)
  {
    SentNext(feeds, shares, pushed);
    hide Sent;
    var more := FeedRecords(feeds[|shares|])[..pushed];
    assert before + Sent(feeds, shares) + more == before + (Sent(feeds, shares) + more);
  }

  lemma {:induction false} IngestedSoFar(
    before: seq<VehicleData>, accepted: seq<VehicleData>, feeds: seq<Feed>, shares: seq<nat>, full: bool)
    ensures shares == [] && accepted == before && full ==> Ingested(before, accepted, feeds, shares, full)
    ensures Ingested(before, accepted, feeds, shares, full) ==>
              && Shares(feeds, shares) && accepted == before + Sent(feeds, shares)
              && forall shutdown :: FullUnlessShutdown(feeds, shares, shutdown) <==> shutdown || full
  {
  }

  /** The loop test of the ingestion thread. */
  method CheckShutdown(rb: RingBuffer, ghost me: nat, turns: seq<Turn>, start: nat) returns (state: bool, used: nat)
    requires rb.Valid() && AllByOthers(turns, me) && start <= |turns|
    modifies rb, rb.data
    ensures rb.Valid() && start <= used <= |turns|
    ensures state == rb.shutdown && (old(rb.shutdown) ==> state)
    ensures Accepted(By(rb.log, me)) == old(Accepted(By(rb.log, me)))
  {
    used := start;
    if used < |turns| {
      AfterTurnKeeps(rb.log, turns[used], rb.data.Length, me);
      rb.LetOthersRun(turns[used]);
      used := used + 1;
    }
    ghost var log := rb.log;
    state := rb.QueryShutdown(me);
    Append(log, Event(me, IsShutdown, Flag(state)));
    Append(By(log, me), Event(me, IsShutdown, Flag(state)));
  }

  /** One parse, seen through the records it adds. */
  method ParseNext(feed: Feed, rb: RingBuffer, ghost me: nat, turns: seq<Turn>, start: nat)
    returns (pushed: nat, parse: Parse, used: nat)
    requires rb.Valid() && AllByOthers(turns, me) && start <= |turns|
    modifies rb, rb.data
    ensures rb.Valid() && start <= used <= |turns| && pushed <= |FeedRecords(feed)|
    ensures Accepted(By(rb.log, me)) == old(Accepted(By(rb.log, me))) + FeedRecords(feed)[..pushed]
    ensures parse.Finished? <==> pushed == |FeedRecords(feed)|
    ensures parse.Refused? ==> rb.shutdown
    ensures parse.StillAsleep? ==> rb.count == rb.capacity && !rb.shutdown
  {
    ghost var mine := By(rb.log, me);
    pushed, parse, used := ParseAndQueue(feed, rb, me, turns, start);
    AcceptedByParse(mine, rb.log, me, FeedRecords(feed), pushed, parse.Refused?);
    assert rb.AsRing().Queued() == Replay(rb.log);
  }

  /** ingestion_thread over the given fetches: this thread's accepted records are the records
      of the feeds in order, each feed's share as counted by the parser. It ends with every
      share complete, or because the buffer was shut down, after which nothing more is
      fetched, or asleep on a full buffer. */
  method IngestionThread(feeds: seq<Feed>, rb: RingBuffer, ghost me: nat, turns: seq<Turn>)
    returns (shares: seq<nat>, outcome: Outcome)
    requires rb.Valid() && AllByOthers(turns, me)
    modifies rb, rb.data
    ensures rb.Valid()
    ensures Shares(feeds, shares)
    ensures Accepted(By(rb.log, me)) == old(Accepted(By(rb.log, me))) + Sent(feeds, shares)
    ensures outcome.Done? ==> |shares| == |feeds| && FullUnlessShutdown(feeds, shares, rb.shutdown)
    ensures outcome.Stopped? ==> |shares| < |feeds| && rb.shutdown
    ensures old(rb.shutdown) && feeds != [] ==> shares == [] && outcome.Stopped?
    ensures outcome.Waiting? ==>
              && !FullUnlessShutdown(feeds, shares, rb.shutdown)
              && rb.count == rb.capacity
  {
    shares := [];
    var used := 0;
    ghost var before := Accepted(By(rb.log, me));
    ghost var full := true;
    IngestedSoFar(before, before, feeds, [], full);
    hide RingBuffer.Valid, By, Accepted, FeedRecords, Ingested;
    while |shares| < |feeds|
      invariant rb.Valid() && used <= |turns| && |shares| <= |feeds|
      invariant Ingested(before, Accepted(By(rb.log, me)), feeds, shares, full) && (full || rb.shutdown)
      invariant old(rb.shutdown) ==> shares == [] && rb.shutdown
    {
      var state;
      state, used := CheckShutdown(rb, me, turns, used);
      if state {
        IngestedSoFar(before, Accepted(By(rb.log, me)), feeds, shares, full);
        return shares, Stopped;
      }
      ghost var accepted := Accepted(By(rb.log, me));
      var pushed, parse;
      pushed, parse, used := ParseNext(feeds[|shares|], rb, me, turns, used);
      IngestedNext(before, accepted, feeds, shares, pushed);
      full := pushed == |FeedRecords(feeds[|shares|])|;
      shares := shares + [pushed];
      if parse == StillAsleep {
        IngestedSoFar(before, Accepted(By(rb.log, me)), feeds, shares, full);
        return shares, Waiting;
      }
    }
    IngestedSoFar(before, Accepted(By(rb.log, me)), feeds, shares, full);
    outcome := Done;
  }

  /** One pop, seen through the record it delivers. */
  method PopNext(rb: RingBuffer, ghost me: nat, turns: seq<Turn>, start: nat)
    returns (popped: Option<Option<VehicleData>>, used: nat)
    requires rb.Valid() && AllByOthers(turns, me) && start <= |turns|
    modifies rb, rb.data
    ensures rb.Valid() && start <= used <= |turns|
    ensures Delivered(By(rb.log, me)) == old(Delivered(By(rb.log, me)))
              + (if popped.Some? && popped.value.Some? then [popped.value.value] else [])
    ensures (old(rb.shutdown) ==> rb.shutdown) && (popped == Some(None) ==> rb.shutdown && rb.count == 0)
    ensures old(rb.shutdown && rb.count == 0) ==> rb.shutdown && rb.count == 0
    ensures popped == None ==> rb.count == 0 && !rb.shutdown
  {
    ghost var before := rb.log;
    assert rb.AsRing().Queued() == Replay(before);
    popped, used := rb.BlockingPop(me, turns, start);
    SettledCall(before, rb.log, turns, start, used, me, Pop, popped.Some?, rb.data.Length);
    assert rb.AsRing().Queued() == Replay(rb.log);
    if popped.Some? {
      Append(By(before, me), Event(me, Pop, Popped(popped.value)));
    }
  }

  /** The loop body for a popped record. */
  method Handle(item: VehicleData, arena: SpatialArena) returns (stored: bool)
    requires arena.Quiet()
    modifies arena`log, arena`held, arena.buckets, arena.locks
    ensures arena.Quiet()
    ensures arena.log == old(arena.log) + Kept1(item, arena.cellOf)
    ensures arena.log == old(arena.log) +
              if !IsSentinel(item) && arena.cellOf(item.lat, item.lon).Some?
              then [Sample(arena.cellOf(item.lat, item.lon).value, item.speed, item.timestamp)]
              else []
    ensures stored <==> !IsSentinel(item) && arena.cellOf(item.lat, item.lon).Some?
  {
    if IsSentinel(item) {
      return false;
    }
    ghost var before := arena.Now();
    var result, used := arena.Update(item.lat, item.lon, item.speed, item.timestamp, []);
    if result == Some(false) {
      return false;
    }
    AloneLands(before, arena.Now(), used,
               Sample(arena.cellOf(item.lat, item.lon).value, item.speed, item.timestamp), result.Some?);
    return true;
  }

  const WRAP: nat := 0x1_0000_0000_0000_0000

  lemma {:induction false} CountUp(n: nat, k: nat)
    requires k <= 1
    ensures (n % WRAP + k) % WRAP == (n + k) % WRAP
  {
  }

  /** The loop body for what a pop brought, with the counter. */
  method Process(popped: Option<VehicleData>, arena: SpatialArena, total: Uint64, ghost handled: seq<VehicleData>)
    returns (total': Uint64, ghost handled': seq<VehicleData>)
    requires arena.Quiet() && arena.log == Kept(handled, arena.cellOf) && total == |arena.log| % WRAP
    modifies arena`log, arena`held, arena.buckets, arena.locks
    ensures arena.Quiet() && arena.log == Kept(handled', arena.cellOf) && total' == |arena.log| % WRAP
    ensures handled' == handled + (if popped.Some? then [popped.value] else [])
  {
    hide Kept, SpatialArena.Quiet;
    total', handled' := total, handled;
    if popped.Some? {
      handled' := handled + [popped.value];
      KeptNext(handled, popped.value, arena.cellOf);
      CountUp(|arena.log|, 1);
      var stored := Handle(popped.value, arena);
      if stored {
        total' := (total + 1) % WRAP;
      }
    } else {
      assert handled + [] == handled;
    }
  }

  /** The consumer has popped these records, beyond what it had before, and nothing else has
      gone into the arena and the counter. */
  ghost predicate Consumed(before: seq<VehicleData>, delivered: seq<VehicleData>, log: seq<Sample>, cellOf: CellOf,
                           total: Uint64, handled: seq<VehicleData>) {
    && delivered == before + handled
    && log == Kept(handled, cellOf) && total == |log| % WRAP
  }

  lemma {:induction false} WhatConsumedMeans(
    before: seq<VehicleData>, delivered: seq<VehicleData>, log: seq<Sample>, cellOf: CellOf, total: Uint64,
    handled: seq<VehicleData>)
    ensures Consumed(before, delivered, log, cellOf, total, handled) <==>
              && delivered == before + handled && log == Kept(handled, cellOf)
              && total == |log| % 0x1_0000_0000_0000_0000
    ensures delivered == before && handled == [] && log == [] && total == 0 ==>
              Consumed(before, delivered, log, cellOf, total, handled)
  {
  }

  /** One iteration of the consumer loop. */
  method Iterate(
    rb: RingBuffer, arena: SpatialArena, ghost me: nat, turns: seq<Turn>, start: nat, total: Uint64,
    ghost before: seq<VehicleData>, ghost handled: seq<VehicleData>)
    returns (asleep: bool, used: nat, total': Uint64, ghost handled': seq<VehicleData>)
    requires rb.Valid() && arena.Quiet() && AllByOthers(turns, me) && start <= |turns|
    requires Consumed(before, Delivered(By(rb.log, me)), arena.log, arena.cellOf, total, handled)
    modifies rb, rb.data, arena`log, arena`held, arena.buckets, arena.locks
    ensures rb.Valid() && arena.Quiet() && start <= used <= |turns|
    ensures Consumed(before, Delivered(By(rb.log, me)), arena.log, arena.cellOf, total', handled')
    ensures asleep ==> handled' == handled && rb.count == 0 && !rb.shutdown
    ensures |handled| <= |handled'| <= |handled| + 1
    ensures old(rb.shutdown && rb.count == 0) ==> rb.shutdown && rb.count == 0
    ensures !asleep ==> |handled'| == |handled| + 1 || (rb.shutdown && rb.count == 0)
  {
    hide RingBuffer.Valid, SpatialArena.Quiet, By, Delivered, Kept;
    var popped;
    popped, used := PopNext(rb, me, turns, start);
    asleep := popped == None;
    if asleep {
      total', handled' := total, handled;
    } else {
      total', handled' := Process(popped.value, arena, total, handled);
    }
    ghost var more := if popped.Some? && popped.value.Some? then [popped.value.value] else [];
    assert (before + handled) + more == before + handled';
  }

  /** The consumer loop, with what it keeps in one predicate. */
  method Consume(
    iterations: nat, rb: RingBuffer, arena: SpatialArena, ghost me: nat, turns: seq<Turn>,
    ghost before: seq<VehicleData>)
    returns (total: Uint64, asleep: bool, ghost handled: seq<VehicleData>)
    requires rb.Valid() && arena.Quiet() && AllByOthers(turns, me)
    requires Consumed(before, Delivered(By(rb.log, me)), arena.log, arena.cellOf, 0, [])
    modifies rb, rb.data, arena`log, arena`held, arena.buckets, arena.locks
    ensures rb.Valid() && arena.Quiet()
    ensures Consumed(before, Delivered(By(rb.log, me)), arena.log, arena.cellOf, total, handled)
    ensures |handled| <= iterations
    ensures !asleep ==> |handled| == iterations || (rb.shutdown && rb.count == 0)
    ensures asleep ==> rb.count == 0 && !rb.shutdown
  {
    total, asleep, handled := 0, false, [];
    var used := 0;
    hide RingBuffer.Valid, SpatialArena.Quiet, By, Delivered, Consumed;
    for k := 0 to iterations
      invariant rb.Valid() && arena.Quiet() && used <= |turns| && !asleep
      invariant Consumed(before, Delivered(By(rb.log, me)), arena.log, arena.cellOf, total, handled)
      invariant |handled| <= k && (|handled| == k || (rb.shutdown && rb.count == 0))
    {
      asleep, used, total, handled := Iterate(rb, arena, me, turns, used, total, before, handled);
      if asleep {
        return;
      }
    }
  }

  /** The consumer loop for the given number of iterations, or until it sleeps for good on an
      empty buffer: the arena takes in exactly the samples of the records popped, in order,
      and the counter is their number modulo 2^64. It pops one record in each iteration
      until the buffer is shut down and drained. */
  method ConsumerLoop(iterations: nat, rb: RingBuffer, arena: SpatialArena, ghost me: nat, turns: seq<Turn>)
    returns (total: Uint64, asleep: bool, ghost handled: seq<VehicleData>)
    requires rb.Valid() && arena.Quiet() && AllByOthers(turns, me) && arena.log == []
    modifies rb, rb.data, arena`log, arena`held, arena.buckets, arena.locks
    ensures rb.Valid() && arena.Quiet()
    ensures Delivered(By(rb.log, me)) == old(Delivered(By(rb.log, me))) + handled
    ensures arena.log == Kept(handled, arena.cellOf) && arena.buckets[..] == ReplayArena(arena.log)
    ensures total == |arena.log| % 0x1_0000_0000_0000_0000
    ensures |arena.log| < 0x1_0000_0000_0000_0000 ==> total == |arena.log|
    ensures |handled| <= iterations
    ensures !asleep ==> |handled| == iterations || (rb.shutdown && rb.count == 0)
    ensures asleep ==> rb.count == 0 && !rb.shutdown
  {
    hide RingBuffer.Valid, SpatialArena.Quiet, By, Delivered, Consumed, Kept, ReplayArena;
    ghost var before := Delivered(By(rb.log, me));
    WhatConsumedMeans(before, before, arena.log, arena.cellOf, 0, []);
    total, asleep, handled := Consume(iterations, rb, arena, me, turns, before);
    WhatConsumedMeans(before, Delivered(By(rb.log, me)), arena.log, arena.cellOf, total, handled);
    arena.QuietIsReplay();
  }
}
