/** The whole program as its threads interleave: the ingestion thread and the consumer run
    their loops on top of the step system of the buffer, while any number of other threads
    may shut the buffer down or ask whether it is. */
module Pipeline {
  import opened Records
  import opened BoundedQueue
  import opened Rings
  import M = Monitor
  import opened Parser
  import opened Arena
  import opened Storage
  import opened Engine
  import opened MonitorSafety
  import opened Totals

  /** What each fetch will bring. */
  type Feeds = nat -> Feed

  function First(feeds: Feeds, n: nat): (s: seq<Feed>)
    ensures |s| == n
  {
    seq(n, i requires 0 <= i < n => feeds(i))
  }

  /** Where the ingestion thread stands in its loops; pushed is the parser's counter. */
  datatype Ingest =
    | AtLoopTest(feed: nat)
    | AskingShutdown(feed: nat)
    | Parsing(feed: nat, entity: nat, pushed: nat)
    | Pushing(feed: nat, entity: nat, pushed: nat)
    | Ended(feed: nat)

  datatype Consumer = AtPop | Popping | Handling(item: VehicleData)

  /** The buffer, the two loops, the counts the parser has reported, the arena, the consumer's
      counter, and how many records the consumer has dealt with. */
  datatype State = State(buffer: M.State, ingest: Ingest, shares: seq<nat>,
                         consumer: Consumer, arena: seq<HexBucket>, total: Uint64, handled: nat)

  /** A step inside the buffer or between a loop and the buffer; the parser moving on without
      a push; the consumer dealing with the record it has. */
  datatype Step = Buffer(step: M.Step) | MoveOn | Deal

  const INGESTION: nat := 0
  const CONSUMER: nat := 1

  function EntitiesOf(feeds: Feeds, i: Ingest): seq<Entity> {
    Entities(feeds(i.feed))
  }

  /** The entity the parser looks at is one to push. */
  predicate AtRecord(feeds: Feeds, i: Ingest) {
    && (i.Parsing? || i.Pushing?)
    && i.entity < |EntitiesOf(feeds, i)| && Qualifies(EntitiesOf(feeds, i)[i.entity])
  }

  predicate Enabled(st: State, step: Step, feeds: Feeds) {
    match step
    case Buffer(s) =>
      && M.Enabled(st.buffer, s)
      && (s.action.Call? ==>
            if s.thread == INGESTION then
              || (st.ingest.AtLoopTest? && s.action.op == IsShutdown)
              || (st.ingest.Parsing? && AtRecord(feeds, st.ingest)
                  && s.action.op == Push(RecordOf(EntitiesOf(feeds, st.ingest)[st.ingest.entity])))
            else if s.thread == CONSUMER then st.consumer.AtPop? && s.action.op == Pop
            else s.action.op == Shutdown || s.action.op == IsShutdown)
    case MoveOn => st.ingest.Parsing? && !AtRecord(feeds, st.ingest)
    case Deal => st.consumer.Handling? && SizedArena(st.arena)
  }

  /** The ingestion thread when its call returns. */
  function IngestReturned(st: State, result: Result): State {
    match st.ingest
    case AskingShutdown(f) => st.(ingest := if result == Flag(true) then Ended(f) else Parsing(f, 0, 0))
    case Pushing(f, e, p) =>
      if result == Pushed(true) then st.(ingest := Parsing(f, e + 1, p + 1))
      else st.(ingest := AtLoopTest(f + 1), shares := st.shares + [p])
    case _ => st
  }

  function IngestCalled(i: Ingest): Ingest {
    match i
    case AtLoopTest(f) => AskingShutdown(f)
    case Parsing(f, e, p) => Pushing(f, e, p)
    case _ => i
  }

  function StoreAll(arena: seq<HexBucket>, samples: seq<Sample>): (arena': seq<HexBucket>)
    requires SizedArena(arena) && |samples| <= 1
  {
    if samples == [] then arena else Store(arena, samples[0])
  }

  function Next(st: State, step: Step, feeds: Feeds, cellOf: CellOf): State
    requires Enabled(st, step, feeds)
  {
    match step
    case Buffer(s) =>
      var pc := st.buffer.threads[s.thread];
      var st' := st.(buffer := M.Next(st.buffer, s));
      if s.thread == INGESTION && s.action.Call? then st'.(ingest := IngestCalled(st.ingest))
      else if s.thread == INGESTION && s.action.Return? then IngestReturned(st', pc.result)
      else if s.thread == CONSUMER && s.action.Call? then st'.(consumer := Popping)
      else if s.thread == CONSUMER && s.action.Return? then
        st'.(consumer := if pc.result.Popped? && pc.result.item.Some? then Handling(pc.result.item.value) else AtPop)
      else st'
    case MoveOn =>
      var i := st.ingest;
      if i.entity < |EntitiesOf(feeds, i)| then st.(ingest := Parsing(i.feed, i.entity + 1, i.pushed))
      else st.(ingest := AtLoopTest(i.feed + 1), shares := st.shares + [i.pushed])
    case Deal =>
      var samples := Kept1(st.consumer.item, cellOf);
      st.(consumer := AtPop, arena := StoreAll(st.arena, samples),
          total := (st.total + |samples|) % WRAP, handled := st.handled + 1)
  }

  predicate Init(st: State, capacity: nat) {
    && M.Init(st.buffer, capacity) && |st.buffer.threads| >= 2
    && st.ingest == AtLoopTest(0) && st.shares == []
    && st.consumer == AtPop && st.arena == ReplayArena([]) && st.total == 0 && st.handled == 0
  }

  ghost predicate IsRun(states: seq<State>, steps: seq<Step>, capacity: nat, feeds: Feeds, cellOf: CellOf) {
    && |states| == |steps| + 1
    && Init(states[0], capacity)
    && forall i :: 0 <= i < |steps| ==>
         Enabled(states[i], steps[i], feeds) && states[i + 1] == Next(states[i], steps[i], feeds, cellOf)
  }

  // ---------------------------------------------------------------------------
  // What every step keeps
  // ---------------------------------------------------------------------------

  predicate Decided(pc: M.PC) {
    pc.Signalling? || pc.HalfBroadcast? || pc.Unlocking? || pc.Returning?
  }

  /** Answers have the shape of the question, and a refusal or a yes means shutdown. */
  predicate Sound(pc: M.PC, shutdown: bool) {
    Decided(pc) ==>
      && (pc.op.Push? ==> pc.result.Pushed?)
      && (pc.op.Pop? ==> pc.result.Popped?)
      && (pc.op.IsShutdown? ==> pc.result.Flag?)
      && (pc.result == Pushed(false) || pc.result == Flag(true) ==> shutdown)
  }

  predicate IngestSynced(i: Ingest, pc: M.PC, feeds: Feeds) {
    match i
    case AtLoopTest(_) => pc.Idle?
    case Ended(_) => pc.Idle?
    case Parsing(_, e, _) => pc.Idle? && e <= |EntitiesOf(feeds, i)|
    case AskingShutdown(_) => !pc.Idle? && pc.op == IsShutdown
    case Pushing(_, e, _) =>
      AtRecord(feeds, i) && !pc.Idle? && pc.op == Push(RecordOf(EntitiesOf(feeds, i)[e]))
  }

  /** The loops and their calls into the buffer go together. */
  predicate Synced(st: State, feeds: Feeds) {
    var threads, shutdown := st.buffer.threads, st.buffer.ring.shutdown;
    && |threads| >= 2
    && Sound(threads[INGESTION], shutdown) && IngestSynced(st.ingest, threads[INGESTION], feeds)
    && (st.ingest.Ended? ==> shutdown)
    && Sound(threads[CONSUMER], shutdown)
    && (if st.consumer.Popping? then !threads[CONSUMER].Idle? && threads[CONSUMER].op == Pop
        else threads[CONSUMER].Idle?)
    && (forall t :: 2 <= t < |threads| ==> threads[t].Idle? || threads[t].op.Shutdown? || threads[t].op.IsShutdown?)
  }

  /** A push that has been accepted but has not yet returned. */
  function PendingPush(pc: M.PC): seq<VehicleData> {
    if Decided(pc) && pc.op.Push? && pc.result == Pushed(true) then [pc.op.item] else []
  }

  predicate AllFull(feeds: Feeds, shares: seq<nat>) {
    forall k :: 0 <= k < |shares| ==> shares[k] == |FeedRecords(feeds(k))|
  }

  /** Inside a parse: all earlier feeds and the entities before this one are in. */
  ghost predicate Mid(feeds: Feeds, f: nat, e: nat, pushed: nat, shares: seq<nat>,
                      accepted: seq<VehicleData>, pending: seq<VehicleData>) {
    var entities := Entities(feeds(f));
    && |shares| == f && AllFull(feeds, shares)
    && e <= |entities| && pushed == |RecordsOf(entities[..e])|
    && accepted == Stream(First(feeds, f)) + RecordsOf(entities[..e]) + pending
  }

  /** Between parses: each feed's share is in, and only the last share may be incomplete. */
  ghost predicate Gap(feeds: Feeds, f: nat, shares: seq<nat>, accepted: seq<VehicleData>) {
    && |shares| == f && Shares(First(feeds, f), shares)
    && accepted == Sent(First(feeds, f), shares)
  }

  /** What has been accepted, in terms of the feeds and the reported counts. An incomplete
      share means that the loop is about to end: the buffer is shut down, and if the answer
      to the question whether it is has been decided, that answer is yes. */
  ghost predicate Sent1(feeds: Feeds, i: Ingest, shares: seq<nat>, accepted: seq<VehicleData>,
                        pending: seq<VehicleData>, shutdown: bool, yesIfDecided: bool) {
    match i
    case Parsing(f, e, p) => Mid(feeds, f, e, p, shares, accepted, [])
    case Pushing(f, e, p) => Mid(feeds, f, e, p, shares, accepted, pending)
    case AtLoopTest(f) => Gap(feeds, f, shares, accepted) && (AllFull(feeds, shares) || shutdown)
    case Ended(f) => Gap(feeds, f, shares, accepted) && (AllFull(feeds, shares) || shutdown)
    case AskingShutdown(f) => Gap(feeds, f, shares, accepted) && (AllFull(feeds, shares) || (shutdown && yesIfDecided))
  }

  predicate YesIfDecided(pc: M.PC) {
    Decided(pc) ==> pc.result == Flag(true)
  }

  ghost predicate SentInv(st: State, feeds: Feeds)
    requires |st.buffer.threads| >= 2
  {
    var pc := st.buffer.threads[INGESTION];
    Sent1(feeds, st.ingest, st.shares, Accepted(st.buffer.log), PendingPush(pc),
          st.buffer.ring.shutdown, YesIfDecided(pc))
  }

  /** Records delivered but not yet dealt with. */
  function PendingPop(st: State): seq<VehicleData>
    requires |st.buffer.threads| >= 2
  {
    var pc := st.buffer.threads[CONSUMER];
    if st.consumer.Handling? then [st.consumer.item]
    else if Decided(pc) && pc.result.Popped? && pc.result.item.Some? then [pc.result.item.value]
    else []
  }

  /** The arena and the counter are those of the records dealt with, and the rest of what
      was delivered is in the consumer's hands. */
  ghost predicate Taken(delivered: seq<VehicleData>, pending: seq<VehicleData>, handled: nat,
                        arena: seq<HexBucket>, total: Uint64, cellOf: CellOf) {
    && handled <= |delivered| && delivered[handled..] == pending
    && arena == ReplayArena(Kept(delivered[..handled], cellOf))
    && total == |Kept(delivered[..handled], cellOf)| % WRAP
  }

  ghost predicate TakenInv(st: State, cellOf: CellOf)
    requires |st.buffer.threads| >= 2
  {
    Taken(Delivered(st.buffer.log), PendingPop(st), st.handled, st.arena, st.total, cellOf)
  }

  ghost predicate Inv(st: State, feeds: Feeds, cellOf: CellOf) {
    && M.Inv(st.buffer)
    && Synced(st, feeds)
    && SentInv(st, feeds)
    && TakenInv(st, cellOf)
  }

  /** A thread's own view of its call, untouched by the steps of others. */
  lemma {:induction false} OthersUndisturbed(s: M.State, step: M.Step, u: nat)
    requires M.Enabled(s, step) && u < |s.threads| && u != step.thread
    ensures var pc, pc' := s.threads[u], M.Next(s, step).threads[u];
            && (pc.Idle? <==> pc'.Idle?)
            && (!pc.Idle? ==> pc.op == pc'.op)
            && (Decided(pc) <==> Decided(pc'))
            && (Decided(pc) ==> pc.result == pc'.result)
    ensures |M.Next(s, step).threads| == |s.threads|
    ensures s.ring.shutdown ==> M.Next(s, step).ring.shutdown
  {
  }

  /** A thread's view of its own call, step by step. */
  lemma {:induction false} OwnStep(s: M.State, step: M.Step)
    requires M.Enabled(s, step)
    ensures var pc, pc' := s.threads[step.thread], M.Next(s, step).threads[step.thread];
            && (step.action.Call? ==> pc.Idle? && !pc'.Idle? && pc'.op == step.action.op && !Decided(pc'))
            && (step.action.Return? ==> pc'.Idle? && Decided(pc))
            && (!step.action.Call? && !step.action.Return? ==> !pc.Idle? && !pc'.Idle? && pc'.op == pc.op)
            && (step.action.Decide? ==> !Decided(pc) && Decided(pc') && pc'.result == s.ring.Reply(pc.op))
            && (!step.action.Call? && !step.action.Return? && !step.action.Decide? ==>
                  && (Decided(pc) <==> Decided(pc')) && (Decided(pc) ==> pc'.result == pc.result))
    ensures |M.Next(s, step).threads| == |s.threads|
    ensures s.ring.shutdown ==> M.Next(s, step).ring.shutdown
    ensures !step.action.Decide? ==> M.Next(s, step).log == s.log && M.Next(s, step).ring == s.ring
    ensures step.action.Decide? ==>
              var op := s.threads[step.thread].op;
              M.Next(s, step).log == s.log + [Event(step.thread, op, s.ring.Reply(op))]
  {
  }

  lemma {:induction false} IngestSyncedKept(st: State, s: M.Step, feeds: Feeds, cellOf: CellOf)
    requires Synced(st, feeds) && Enabled(st, Buffer(s), feeds)
    ensures var st' := Next(st, Buffer(s), feeds, cellOf);
            && |st'.buffer.threads| == |st.buffer.threads|
            && Sound(st'.buffer.threads[INGESTION], st'.buffer.ring.shutdown)
            && IngestSynced(st'.ingest, st'.buffer.threads[INGESTION], feeds)
            && (st'.ingest.Ended? ==> st'.buffer.ring.shutdown)
  {
    hide M.Next, RecordOf;
    OwnStep(st.buffer, s);
    if s.thread != INGESTION { OthersUndisturbed(st.buffer, s, INGESTION); }
  }

  lemma {:induction false} ConsumerSyncedKept(st: State, s: M.Step, feeds: Feeds, cellOf: CellOf)
    requires Synced(st, feeds) && Enabled(st, Buffer(s), feeds)
    ensures var st' := Next(st, Buffer(s), feeds, cellOf);
            && |st'.buffer.threads| == |st.buffer.threads|
            && var pc := st'.buffer.threads[CONSUMER];
               && Sound(pc, st'.buffer.ring.shutdown)
               && (if st'.consumer.Popping? then !pc.Idle? && pc.op == Pop else pc.Idle?)
  {
    hide M.Next, RecordOf;
    OwnStep(st.buffer, s);
    if s.thread != CONSUMER { OthersUndisturbed(st.buffer, s, CONSUMER); }
  }

  lemma {:induction false} SyncedKept(st: State, step: Step, feeds: Feeds, cellOf: CellOf)
    requires Synced(st, feeds) && Enabled(st, step, feeds)
    ensures Synced(Next(st, step, feeds, cellOf), feeds)
  {
    if step.Buffer? {
      var s, st' := step.step, Next(st, step, feeds, cellOf);
      hide M.Next, Sound, IngestSynced, RecordOf;
      IngestSyncedKept(st, s, feeds, cellOf);
      ConsumerSyncedKept(st, s, feeds, cellOf);
      forall t | 2 <= t < |st.buffer.threads|
        ensures var pc := st'.buffer.threads[t];
                pc.Idle? || pc.op.Shutdown? || pc.op.IsShutdown?
      {
        if t == s.thread { OwnStep(st.buffer, s); } else { OthersUndisturbed(st.buffer, s, t); }
      }
    }
  }

  lemma {:induction false} FirstNext(feeds: Feeds, f: nat)
    ensures First(feeds, f + 1)[..f] == First(feeds, f)
    ensures Stream(First(feeds, f + 1)) == Stream(First(feeds, f)) + FeedRecords(feeds(f))
  {
    assert First(feeds, f + 1)[..f] == First(feeds, f);
  }

  /** A parse starts, all shares so far being complete. */
  lemma {:induction false} GapStart(feeds: Feeds, f: nat, shares: seq<nat>, accepted: seq<VehicleData>)
    requires Gap(feeds, f, shares, accepted) && AllFull(feeds, shares)
    ensures Mid(feeds, f, 0, 0, shares, accepted, [])
  {
    if shares != [] {
      FirstNext(feeds, f - 1);
      assert FeedRecords(feeds(f - 1))[..shares[f - 1]] == FeedRecords(feeds(f - 1));
    }
    assert Entities(feeds(f))[..0] == [];
  }

  lemma {:induction false} MidSkip(
    feeds: Feeds, f: nat, e: nat, pushed: nat, shares: seq<nat>, accepted: seq<VehicleData>)
    requires Mid(feeds, f, e, pushed, shares, accepted, [])
    requires e < |Entities(feeds(f))| && !Qualifies(Entities(feeds(f))[e])
    ensures Mid(feeds, f, e + 1, pushed, shares, accepted, [])
  {
    RecordsOfNext(Entities(feeds(f)), e);
  }

  lemma {:induction false} MidPushed(
    feeds: Feeds, f: nat, e: nat, pushed: nat, shares: seq<nat>, accepted: seq<VehicleData>)
    requires e < |Entities(feeds(f))| && Qualifies(Entities(feeds(f))[e])
    requires Mid(feeds, f, e, pushed, shares, accepted, [RecordOf(Entities(feeds(f))[e])])
    ensures Mid(feeds, f, e + 1, pushed + 1, shares, accepted, [])
  {
    RecordsOfNext(Entities(feeds(f)), e);
  }

  /** A parse ends, at the last entity or at a refusal. */
  lemma {:induction false} MidEnd(
    feeds: Feeds, f: nat, e: nat, pushed: nat, shares: seq<nat>, accepted: seq<VehicleData>)
    requires Mid(feeds, f, e, pushed, shares, accepted, [])
    ensures Gap(feeds, f + 1, shares + [pushed], accepted)
    ensures e == |Entities(feeds(f))| ==> AllFull(feeds, shares + [pushed])
  {
    var entities := Entities(feeds(f));
    FirstNext(feeds, f);
    RecordsOfPrefix(entities, e);
    assert FeedRecords(feeds(f))[..pushed] == RecordsOf(entities[..e]);
    if e == |entities| {
      assert entities[..e] == entities;
    }
  }

  function AcceptedBy(s: M.State, step: M.Step): seq<VehicleData>
    requires M.Enabled(s, step)
  {
    if step.action.Decide? && s.threads[step.thread].op.Push? && !s.ring.shutdown
    then [s.threads[step.thread].op.item] else []
  }

  function DeliveredBy(s: M.State, step: M.Step): seq<VehicleData>
    requires M.Enabled(s, step)
  {
    if step.action.Decide? && s.threads[step.thread].op.Pop? && s.ring.count > 0
    then [s.ring.data[s.ring.tail]] else []
  }

  lemma {:induction false} LogAfter(s: M.State, step: M.Step)
    requires M.Enabled(s, step)
    ensures Accepted(M.Next(s, step).log) == Accepted(s.log) + AcceptedBy(s, step)
    ensures Delivered(M.Next(s, step).log) == Delivered(s.log) + DeliveredBy(s, step)
  {
    if step.action.Decide? {
      Append(s.log, Event(step.thread, s.threads[step.thread].op, s.ring.Reply(s.threads[step.thread].op)));
    }
  }

  lemma {:induction false} SentMonotone(
    feeds: Feeds, i: Ingest, shares: seq<nat>, accepted: seq<VehicleData>, pending: seq<VehicleData>,
    shutdown: bool, shutdown': bool, yes: bool)
    requires Sent1(feeds, i, shares, accepted, pending, shutdown, yes) && (shutdown ==> shutdown')
    ensures Sent1(feeds, i, shares, accepted, pending, shutdown', yes)
  {
  }

  /** The decision of the ingestion thread's own call. */
  lemma {:induction false} SentDecided(
    feeds: Feeds, i: Ingest, shares: seq<nat>, accepted: seq<VehicleData>, more: seq<VehicleData>,
    shutdown: bool, yes: bool)
    requires Sent1(feeds, i, shares, accepted, [], shutdown, true)
    requires i.AskingShutdown? || i.Pushing?
    requires (i.AskingShutdown? ==> more == []) && yes == (i.AskingShutdown? && shutdown)
    ensures Sent1(feeds, i, shares, accepted + more, more, shutdown, yes)
  {
    assert accepted + [] == accepted;
  }

  /** A call of the ingestion thread. */
  lemma {:induction false} SentCalled(
    feeds: Feeds, i: Ingest, shares: seq<nat>, accepted: seq<VehicleData>, shutdown: bool)
    requires Sent1(feeds, i, shares, accepted, [], shutdown, true)
    ensures Sent1(feeds, IngestCalled(i), shares, accepted, [], shutdown, true)
  {
  }

  lemma {:induction false} SentMovedOn(
    feeds: Feeds, i: Ingest, shares: seq<nat>, accepted: seq<VehicleData>, shutdown: bool, yes: bool)
    requires i.Parsing? && !AtRecord(feeds, i) && Sent1(feeds, i, shares, accepted, [], shutdown, yes)
    ensures i.entity < |EntitiesOf(feeds, i)| ==>
              Sent1(feeds, Parsing(i.feed, i.entity + 1, i.pushed), shares, accepted, [], shutdown, yes)
    ensures i.entity >= |EntitiesOf(feeds, i)| ==>
              Sent1(feeds, AtLoopTest(i.feed + 1), shares + [i.pushed], accepted, [], shutdown, yes)
  {
    if i.entity < |EntitiesOf(feeds, i)| {
      MidSkip(feeds, i.feed, i.entity, i.pushed, shares, accepted);
    } else {
      MidEnd(feeds, i.feed, i.entity, i.pushed, shares, accepted);
    }
  }

  lemma {:induction false} SentPushReturned(
    feeds: Feeds, i: Ingest, shares: seq<nat>, accepted: seq<VehicleData>, pending: seq<VehicleData>, ok: bool,
    shutdown: bool, yes: bool)
    requires i.Pushing? && AtRecord(feeds, i) && Sent1(feeds, i, shares, accepted, pending, shutdown, yes)
    requires pending == if ok then [RecordOf(EntitiesOf(feeds, i)[i.entity])] else []
    requires ok || shutdown
    ensures ok ==> Sent1(feeds, Parsing(i.feed, i.entity + 1, i.pushed + 1), shares, accepted, [], shutdown, true)
    ensures !ok ==> Sent1(feeds, AtLoopTest(i.feed + 1), shares + [i.pushed], accepted, [], shutdown, true)
  {
    if ok {
      MidPushed(feeds, i.feed, i.entity, i.pushed, shares, accepted);
    } else {
      MidEnd(feeds, i.feed, i.entity, i.pushed, shares, accepted);
    }
  }

  lemma {:induction false} SentAnswered(
    feeds: Feeds, i: Ingest, shares: seq<nat>, accepted: seq<VehicleData>, shutdown: bool, yes: bool)
    requires i.AskingShutdown? && Sent1(feeds, i, shares, accepted, [], shutdown, yes)
    ensures Sent1(feeds, if yes then Ended(i.feed) else Parsing(i.feed, 0, 0), shares, accepted, [], shutdown, true)
  {
    if !yes {
      GapStart(feeds, i.feed, shares, accepted);
    }
  }

  lemma {:induction false} SentKept(st: State, step: Step, feeds: Feeds, cellOf: CellOf)
    requires Synced(st, feeds) && SentInv(st, feeds) && Enabled(st, step, feeds)
    ensures |Next(st, step, feeds, cellOf).buffer.threads| >= 2 && SentInv(Next(st, step, feeds, cellOf), feeds)
  {
    hide Sent1, M.Next, RecordOf, Accepted, Delivered;
    var i, accepted, shutdown := st.ingest, Accepted(st.buffer.log), st.buffer.ring.shutdown;
    var pc := st.buffer.threads[INGESTION];
    match step
    case Deal =>
    case MoveOn =>
      SentMovedOn(feeds, i, st.shares, accepted, shutdown, YesIfDecided(pc));
    case Buffer(s) =>
      OwnStep(st.buffer, s);
      LogAfter(st.buffer, s);
      if s.thread == INGESTION {
        OwnSentKept(st, s, feeds, cellOf);
      } else {
        OthersUndisturbed(st.buffer, s, INGESTION);
        assert AcceptedBy(st.buffer, s) == [];
        assert accepted + [] == accepted;
        SentMonotone(feeds, i, st.shares, accepted, PendingPush(pc), shutdown,
                     M.Next(st.buffer, s).ring.shutdown, YesIfDecided(pc));
      }
  }

  lemma {:induction false} OwnSentKept(st: State, s: M.Step, feeds: Feeds, cellOf: CellOf)
    requires Synced(st, feeds) && SentInv(st, feeds) && Enabled(st, Buffer(s), feeds) && s.thread == INGESTION
    ensures var st' := Next(st, Buffer(s), feeds, cellOf);
            |st'.buffer.threads| >= 2 && SentInv(st', feeds)
  {
    hide Sent1, M.Next, RecordOf, Accepted, Delivered;
    var i, accepted, shutdown := st.ingest, Accepted(st.buffer.log), st.buffer.ring.shutdown;
    var pc := st.buffer.threads[INGESTION];
    OwnStep(st.buffer, s);
    LogAfter(st.buffer, s);
    var more := AcceptedBy(st.buffer, s);
    assert more == [] ==> accepted + more == accepted;
    match s.action
    case Call(_) => SentCalled(feeds, i, st.shares, accepted, shutdown);
    case Decide =>
      var st' := Next(st, Buffer(s), feeds, cellOf);
      var pc' := st'.buffer.threads[INGESTION];
      assert PendingPush(pc) == [] && YesIfDecided(pc);
      assert i.AskingShutdown? || i.Pushing?;
      assert PendingPush(pc') == more;
      assert YesIfDecided(pc') == (i.AskingShutdown? && shutdown);
      SentDecided(feeds, i, st.shares, accepted, more, shutdown, YesIfDecided(pc'));
      SentMonotone(feeds, i, st.shares, accepted + more, more, shutdown, st'.buffer.ring.shutdown, YesIfDecided(pc'));
    case Return =>
      if i.Pushing? {
        SentPushReturned(feeds, i, st.shares, accepted, PendingPush(pc), pc.result == Pushed(true), shutdown,
                         YesIfDecided(pc));
      } else {
        SentAnswered(feeds, i, st.shares, accepted, shutdown, YesIfDecided(pc));
      }
    case _ =>
  }

  /** Dealing with a record keeps the arena and the counter in step. */
  lemma {:induction false} TakenDeal(
    delivered: seq<VehicleData>, item: VehicleData, handled: nat, arena: seq<HexBucket>, total: Uint64,
    cellOf: CellOf)
    requires Taken(delivered, [item], handled, arena, total, cellOf) && SizedArena(arena)
    ensures var samples := Kept1(item, cellOf);
            Taken(delivered, [], handled + 1, StoreAll(arena, samples), (total + |samples|) % WRAP, cellOf)
  {
    hide ReplayArena, Store, Kept1, Kept;
    var done := delivered[..handled];
    assert delivered[handled..][0] == item;
    assert delivered[..handled + 1] == done + [item];
    assert delivered[handled + 1..] == [];
    DealStores(done, item, cellOf);
    DealCounts(done, item, cellOf);
  }

  lemma {:induction false} DealStores(done: seq<VehicleData>, item: VehicleData, cellOf: CellOf)
    ensures |Kept1(item, cellOf)| <= 1
    ensures ReplayArena(Kept(done + [item], cellOf)) == StoreAll(ReplayArena(Kept(done, cellOf)), Kept1(item, cellOf))
  {
    hide ReplayArena, Kept, StoreAll, Store;
    KeptNext(done, item, cellOf);
    StoresKept(Kept(done, cellOf), Kept1(item, cellOf));
  }

  lemma {:induction false} DealCounts(done: seq<VehicleData>, item: VehicleData, cellOf: CellOf)
    ensures |Kept(done + [item], cellOf)| % WRAP == (|Kept(done, cellOf)| % WRAP + |Kept1(item, cellOf)|) % WRAP
  {
    hide Kept;
    KeptNext(done, item, cellOf);
    var n, k := |Kept(done, cellOf)|, |Kept1(item, cellOf)|;
    assert k <= 1;
    hide Kept1, IsSentinel;
    CountUp(n, k);
  }

  lemma {:induction false} StoresKept(kept: seq<Sample>, samples: seq<Sample>)
    requires |samples| <= 1
    ensures ReplayArena(kept + samples) == StoreAll(ReplayArena(kept), samples)
  {
    hide ReplayArena, Store;
    if samples == [] {
      assert kept + samples == kept;
    } else {
      assert samples == [samples[0]];
      ReplayAppend(kept, samples[0]);
    }
  }

  /** More deliveries do not disturb the records already dealt with. */
  lemma {:induction false} TakenMore(
    delivered: seq<VehicleData>, pending: seq<VehicleData>, more: seq<VehicleData>, handled: nat,
    arena: seq<HexBucket>, total: Uint64, cellOf: CellOf)
    requires Taken(delivered, pending, handled, arena, total, cellOf)
    ensures Taken(delivered + more, pending + more, handled, arena, total, cellOf)
  {
    hide ReplayArena, Kept;
    assert (delivered + more)[..handled] == delivered[..handled];
    assert (delivered + more)[handled..] == delivered[handled..] + more;
  }

  /** What a step of the buffer adds to the records delivered goes to the consumer. */
  lemma {:induction false} PendingAfter(st: State, step: Step, feeds: Feeds, cellOf: CellOf)
    requires Synced(st, feeds) && Enabled(st, step, feeds) && step.Buffer?
    ensures var st' := Next(st, step, feeds, cellOf);
            && |st'.buffer.threads| >= 2
            && st'.handled == st.handled && st'.arena == st.arena && st'.total == st.total
            && PendingPop(st') == PendingPop(st) + DeliveredBy(st.buffer, step.step)
  {
    hide M.Next, RecordOf;
    var s, st' := step.step, Next(st, step, feeds, cellOf);
    OwnStep(st.buffer, s);
    if s.thread != CONSUMER {
      OthersUndisturbed(st.buffer, s, CONSUMER);
    }
  }

  lemma {:induction false} TakenKept(st: State, step: Step, feeds: Feeds, cellOf: CellOf)
    requires Synced(st, feeds) && TakenInv(st, cellOf) && Enabled(st, step, feeds)
    ensures |Next(st, step, feeds, cellOf).buffer.threads| >= 2 && TakenInv(Next(st, step, feeds, cellOf), cellOf)
  {
    hide Taken, M.Next, PendingPop, RecordOf;
    var delivered := Delivered(st.buffer.log);
    match step
    case MoveOn =>
      PendingElsewhere(st, step, feeds, cellOf);
    case Deal =>
      PendingElsewhere(st, step, feeds, cellOf);
      TakenDeal(delivered, st.consumer.item, st.handled, st.arena, st.total, cellOf);
    case Buffer(s) =>
      LogAfter(st.buffer, s);
      PendingAfter(st, step, feeds, cellOf);
      TakenMore(delivered, PendingPop(st), DeliveredBy(st.buffer, s), st.handled, st.arena, st.total, cellOf);
  }

  lemma {:induction false} PendingElsewhere(st: State, step: Step, feeds: Feeds, cellOf: CellOf)
    requires Synced(st, feeds) && Enabled(st, step, feeds) && !step.Buffer?
    ensures PendingPop(Next(st, step, feeds, cellOf)) == if step.Deal? then [] else PendingPop(st)
    ensures step.Deal? ==> PendingPop(st) == [st.consumer.item]
  {
  }

  lemma {:induction false} InitInv(st: State, capacity: nat, feeds: Feeds, cellOf: CellOf)
    requires Init(st, capacity)
    ensures Inv(st, feeds, cellOf)
  {
    M.InitInv(st.buffer, capacity);
  }

  lemma {:induction false} InvKept(st: State, step: Step, feeds: Feeds, cellOf: CellOf)
    requires Inv(st, feeds, cellOf) && Enabled(st, step, feeds)
    ensures Inv(Next(st, step, feeds, cellOf), feeds, cellOf)
  {
    hide M.Inv, Synced, SentInv, TakenInv, M.Next, M.Enabled;
    SyncedKept(st, step, feeds, cellOf);
    SentKept(st, step, feeds, cellOf);
    TakenKept(st, step, feeds, cellOf);
    if step.Buffer? {
      M.InvKept(st.buffer, step.step);
    }
  }

  lemma {:induction false} RunInv(
    states: seq<State>, steps: seq<Step>, capacity: nat, feeds: Feeds, cellOf: CellOf, i: nat)
    requires IsRun(states, steps, capacity, feeds, cellOf) && i < |states|
    ensures Inv(states[i], feeds, cellOf)
  {
    hide Inv, Init, Enabled, Next;
    if i == 0 {
      InitInv(states[0], capacity, feeds, cellOf);
    } else {
      RunInv(states, steps, capacity, feeds, cellOf, i - 1);
      InvKept(states[i - 1], steps[i - 1], feeds, cellOf);
    }
  }

  lemma {:induction false} RunStep(
    states: seq<State>, steps: seq<Step>, capacity: nat, feeds: Feeds, cellOf: CellOf, i: nat)
    requires IsRun(states, steps, capacity, feeds, cellOf) && i + 1 < |states|
    ensures i < |steps| && Synced(states[i], feeds) && Enabled(states[i], steps[i], feeds)
    ensures |states[i].buffer.threads| >= 2 && TakenInv(states[i], cellOf)
    ensures states[i + 1] == Next(states[i], steps[i], feeds, cellOf)
  {
    RunInv(states, steps, capacity, feeds, cellOf, i);
    hide Init, Enabled, Next, M.Inv, SentInv, TakenInv;
  }

  // ---------------------------------------------------------------------------
  // What the program as a whole guarantees
  // ---------------------------------------------------------------------------

  /** All records of the feeds up to and including the current one. */
  function Offered(st: State, feeds: Feeds): seq<VehicleData> {
    Stream(First(feeds, st.ingest.feed + 1))
  }

  lemma {:induction false} MidIsPrefix(
    feeds: Feeds, f: nat, e: nat, pushed: nat, shares: seq<nat>, accepted: seq<VehicleData>)
    requires Mid(feeds, f, e, pushed, shares, accepted, [])
    ensures accepted <= Stream(First(feeds, f + 1))
  {
    FirstNext(feeds, f);
    RecordsOfPrefix(Entities(feeds(f)), e);
  }

  lemma {:induction false} GapIsPrefix(feeds: Feeds, f: nat, shares: seq<nat>, accepted: seq<VehicleData>)
    requires Gap(feeds, f, shares, accepted)
    ensures accepted <= Stream(First(feeds, f + 1))
    ensures Total(shares) == |accepted|
  {
    FirstNext(feeds, f);
    SentIsPrefix(First(feeds, f), shares);
  }

  lemma {:induction false} SentInvPrefix(st: State, feeds: Feeds)
    requires |st.buffer.threads| >= 2 && Synced(st, feeds) && SentInv(st, feeds)
    ensures Accepted(st.buffer.log) <= Offered(st, feeds)
  {
    hide Mid, Gap, RecordOf, Accepted;
    var i, accepted := st.ingest, Accepted(st.buffer.log);
    match i
    case Parsing(f, e, p) =>
      MidIsPrefix(feeds, f, e, p, st.shares, accepted);
    case Pushing(f, e, p) =>
      if PendingPush(st.buffer.threads[INGESTION]) == [] {
        MidIsPrefix(feeds, f, e, p, st.shares, accepted);
      } else {
        MidPushed(feeds, f, e, p, st.shares, accepted);
        MidIsPrefix(feeds, f, e + 1, p + 1, st.shares, accepted);
      }
    case _ =>
      GapIsPrefix(feeds, i.feed, st.shares, accepted);
  }

  lemma {:induction false} FullSharesCount(
    states: seq<State>, steps: seq<Step>, capacity: nat, feeds: Feeds, cellOf: CellOf, i: nat)
    requires IsRun(states, steps, capacity, feeds, cellOf) && i < |states|
    ensures forall k :: 0 <= k < |states[i].shares| && !states[i].buffer.ring.shutdown ==>
              states[i].shares[k] ==
              if feeds(k) == None then 0
              else |set n: nat | n < |feeds(k).value| && feeds(k).value[n].vehicle.Some?
                                 && feeds(k).value[n].vehicle.value.position.Some?|
  {
    RunInv(states, steps, capacity, feeds, cellOf, i);
    hide IsRun, M.Inv, Synced, TakenInv, RecordOf;
    forall k | 0 <= k < |states[i].shares| && !states[i].buffer.ring.shutdown
      ensures states[i].shares[k] == |RecordsOf(Entities(feeds(k)))|
    {
      assert AllFull(feeds, states[i].shares);
    }
    forall k: nat | feeds(k).Some?
      ensures |RecordsOf(feeds(k).value)| ==
              |set n: nat | n < |feeds(k).value| && feeds(k).value[n].vehicle.Some?
                            && feeds(k).value[n].vehicle.value.position.Some?|
    {
      RecordsCount(feeds(k).value);
    }
  }

  /** Prefix delivery: whatever the interleaving and wherever a shutdown falls, the accepted
      records are a prefix of the records of the feeds, flattened; the counts reported are
      the feeds' shares, all complete but possibly the last; and between parses, without a
      shutdown, they are complete and everything is in. */
  lemma {:induction false} PrefixDelivery(
    states: seq<State>, steps: seq<Step>, capacity: nat, feeds: Feeds, cellOf: CellOf, i: nat)
    requires IsRun(states, steps, capacity, feeds, cellOf) && i < |states|
    ensures var st := states[i];
            var f := st.ingest.feed;
            && Accepted(st.buffer.log) <= Offered(st, feeds)
            && Shares(First(feeds, f), st.shares) && |st.shares| == f
            && (!st.ingest.Parsing? && !st.ingest.Pushing? ==> Total(st.shares) == |Accepted(st.buffer.log)|)
            && (!st.buffer.ring.shutdown ==> AllFull(feeds, st.shares))
            && (!st.buffer.ring.shutdown && !st.ingest.Parsing? && !st.ingest.Pushing? ==>
                  Accepted(st.buffer.log) == Stream(First(feeds, f)))
    ensures forall k :: 0 <= k < |states[i].shares| && !states[i].buffer.ring.shutdown ==>
              states[i].shares[k] ==
              if feeds(k) == None then 0
              else |set n: nat | n < |feeds(k).value| && feeds(k).value[n].vehicle.Some?
                                 && feeds(k).value[n].vehicle.value.position.Some?|
  {
    FullSharesCount(states, steps, capacity, feeds, cellOf, i);
    RunInv(states, steps, capacity, feeds, cellOf, i);
    hide IsRun, M.Inv, SentInv, TakenInv, Offered, Accepted, Shares, Stream, First, AllFull;
    PrefixAt(states[i], feeds);
  }

  lemma {:induction false} PrefixAt(st: State, feeds: Feeds)
    requires |st.buffer.threads| >= 2 && Synced(st, feeds) && SentInv(st, feeds)
    ensures var f := st.ingest.feed;
            && Accepted(st.buffer.log) <= Offered(st, feeds)
            && Shares(First(feeds, f), st.shares) && |st.shares| == f
            && (!st.ingest.Parsing? && !st.ingest.Pushing? ==> Total(st.shares) == |Accepted(st.buffer.log)|)
            && (!st.buffer.ring.shutdown ==> AllFull(feeds, st.shares))
            && (!st.buffer.ring.shutdown && !st.ingest.Parsing? && !st.ingest.Pushing? ==>
                  Accepted(st.buffer.log) == Stream(First(feeds, f)))
  {
    hide RecordOf, Accepted;
    SentInvPrefix(st, feeds);
    if st.ingest.Parsing? || st.ingest.Pushing? {
      assert AllFull(feeds, st.shares);
    } else {
      SentIsPrefix(First(feeds, st.ingest.feed), st.shares);
      if AllFull(feeds, st.shares) {
        GapStart(feeds, st.ingest.feed, st.shares, Accepted(st.buffer.log));
      }
    }
  }

  lemma {:induction false} StreamMonotone(feeds: Feeds, f: nat, g: nat)
    requires f <= g
    ensures Stream(First(feeds, f)) <= Stream(First(feeds, g))
  {
    assert First(feeds, g)[..f] == First(feeds, f);
    StreamPrefix(First(feeds, g), f);
  }

  lemma {:induction false} DeliveredPrefix(st: State, feeds: Feeds, cellOf: CellOf)
    requires Inv(st, feeds, cellOf)
    ensures |st.buffer.threads| >= 2 && TakenInv(st, cellOf)
    ensures Delivered(st.buffer.log) <= Accepted(st.buffer.log) <= Offered(st, feeds)
  {
    SentInvPrefix(st, feeds);
    hide Synced, SentInv, TakenInv, Offered;
    LegalIsFifo(st.buffer.log, |st.buffer.ring.data|);
  }

  /** A 64-bit counter that has counted n times from 0. */
  predicate Counts(total: Uint64, n: nat) {
    && total == n % 0x1_0000_0000_0000_0000
    && (n < 0x1_0000_0000_0000_0000 ==> total == n)
  }

  /** End to end: at any moment the arena is the sequential replay of the samples kept from
      the first records of the feeds, as many as the consumer has dealt with. */
  lemma {:induction false} EndToEnd(
    states: seq<State>, steps: seq<Step>, capacity: nat, feeds: Feeds, cellOf: CellOf, i: nat, f: nat)
    requires IsRun(states, steps, capacity, feeds, cellOf) && i < |states|
    requires states[i].ingest.feed < f
    ensures var st := states[i];
            && st.handled <= |Stream(First(feeds, f))|
            && st.arena == ReplayArena(Kept(Stream(First(feeds, f))[..st.handled], cellOf))
            && Counts(st.total, |Kept(Stream(First(feeds, f))[..st.handled], cellOf)|)
  {
    hide IsRun, Inv, Taken, Stream, First, ReplayArena, Kept, Delivered, Accepted;
    var st := states[i];
    RunInv(states, steps, capacity, feeds, cellOf, i);
    DeliveredPrefix(st, feeds, cellOf);
    StreamMonotone(feeds, st.ingest.feed + 1, f);
    TakenFromPrefix(Delivered(st.buffer.log), PendingPop(st), st.handled, st.arena, st.total, cellOf,
                    Stream(First(feeds, f)));
  }

  lemma {:induction false} TakenFromPrefix(
    delivered: seq<VehicleData>, pending: seq<VehicleData>, handled: nat, arena: seq<HexBucket>, total: Uint64,
    cellOf: CellOf, stream: seq<VehicleData>)
    requires Taken(delivered, pending, handled, arena, total, cellOf) && delivered <= stream
    ensures handled <= |stream|
    ensures arena == ReplayArena(Kept(stream[..handled], cellOf))
    ensures total == |Kept(stream[..handled], cellOf)| % WRAP
  {
    hide ReplayArena, Kept;
    assert delivered[..handled] == stream[..handled];
  }

  /** Schedule independence: two runs over the same feeds, with whatever interleaving, number
      of threads, capacity and shutdown, have the same arena and the same counter whenever
      the consumer has dealt with equally many records. */
  lemma {:induction false} ScheduleIndependence(
    states: seq<State>, steps: seq<Step>, capacity: nat, i: nat,
    states': seq<State>, steps': seq<Step>, capacity': nat, i': nat,
    feeds: Feeds, cellOf: CellOf)
    requires IsRun(states, steps, capacity, feeds, cellOf) && i < |states|
    requires IsRun(states', steps', capacity', feeds, cellOf) && i' < |states'|
    requires states[i].handled == states'[i'].handled
    ensures states[i].arena == states'[i'].arena && states[i].total == states'[i'].total
  {
    var f := states[i].ingest.feed + states'[i'].ingest.feed + 1;
    EndToEnd(states, steps, capacity, feeds, cellOf, i, f);
    EndToEnd(states', steps', capacity', feeds, cellOf, i', f);
  }

  lemma {:induction false} AllDealtWith(st: State, feeds: Feeds, cellOf: CellOf)
    requires M.Inv(st.buffer) && Synced(st, feeds) && TakenInv(st, cellOf) && st.consumer.AtPop?
    ensures var delivered := Delivered(st.buffer.log);
            && st.handled == |delivered|
            && Counts(st.total, |Kept(delivered, cellOf)|)
            && |Accepted(st.buffer.log)| == |delivered| + st.buffer.ring.count
  {
    assert PendingPop(st) == [] by {
      hide M.Inv, TakenInv, IngestSynced, Sound;
    }
    InsAndOuts(st.buffer);
    hide M.Inv, Synced, Taken, Kept, Delivered, Accepted, PendingPop, Counts;
    AllTaken(Delivered(st.buffer.log), st.handled, st.arena, st.total, cellOf);
  }

  lemma {:induction false} InsAndOuts(s: M.State)
    requires M.Inv(s)
    ensures |Accepted(s.log)| == |Delivered(s.log)| + s.ring.count
  {
    hide M.Locks, M.NoLostWakeup, M.NoSleepAfterShutdown, Accepted, Delivered;
    LegalIsFifo(s.log, |s.ring.data|);
  }

  lemma {:induction false} AllTaken(
    delivered: seq<VehicleData>, handled: nat, arena: seq<HexBucket>, total: Uint64, cellOf: CellOf)
    requires Taken(delivered, [], handled, arena, total, cellOf)
    ensures handled == |delivered| && Counts(total, |Kept(delivered, cellOf)|)
  {
    hide ReplayArena, Kept;
    assert delivered[..handled] == delivered;
  }

  /** Conservation at the consumer's loop boundary: every record that has left the buffer was
      skipped, rejected or stored, and records are only ever in the buffer or out of it. */
  lemma {:induction false} ConservationAtLoop(
    states: seq<State>, steps: seq<Step>, capacity: nat, feeds: Feeds, cellOf: CellOf, i: nat)
    requires IsRun(states, steps, capacity, feeds, cellOf) && i < |states| && states[i].consumer.AtPop?
    ensures var st := states[i];
            var delivered := Delivered(st.buffer.log);
            && st.handled == |delivered|
            && |delivered| == Skipped(delivered) + Rejected(delivered, cellOf) + |Kept(delivered, cellOf)|
            && Counts(st.total, |Kept(delivered, cellOf)|)
            && |Accepted(st.buffer.log)| == |delivered| + st.buffer.ring.count
  {
    RunInv(states, steps, capacity, feeds, cellOf, i);
    hide IsRun, M.Inv, Synced, SentInv, TakenInv, IsSentinel, Kept, Skipped, Rejected, Delivered, Accepted, Counts;
    AllDealtWith(states[i], feeds, cellOf);
    var delivered := Delivered(states[i].buffer.log);
    NoneGoesMissing(delivered, cellOf);
  }

  /** The record in hand is the oldest one delivered and not yet dealt with. If it is not to be
      skipped and has a cell, its speed and timestamp go into the bucket its cell is masked
      to, in the slot before the head, and it is counted; nothing else changes. */
  ghost predicate DealsWith(st: State, st': State, cellOf: CellOf) {
    && st.consumer.Handling? && |st.arena| == |st'.arena| == 131072
    && st.handled < |Delivered(st.buffer.log)|
    && var item := Delivered(st.buffer.log)[st.handled];
       && st.consumer.item == item
       && if IsSentinel(item) || cellOf(item.lat, item.lon) == None
          then st'.arena == st.arena && st'.total == st.total
          else
            var cell := cellOf(item.lat, item.lon).value;
            && (forall b :: 0 <= b < 131072 && b != cell % 131072 ==> st'.arena[b] == st.arena[b])
            && Newest(st'.arena[cell % 131072], cell, item.speed, item.timestamp)
            && st'.total == (st.total + 1) % 0x1_0000_0000_0000_0000
  }

  lemma {:induction false} DealWritesRecord(
    states: seq<State>, steps: seq<Step>, capacity: nat, feeds: Feeds, cellOf: CellOf, i: nat)
    requires IsRun(states, steps, capacity, feeds, cellOf) && i + 1 < |states| && steps[i] == Deal
    ensures DealsWith(states[i], states[i + 1], cellOf)
  {
    hide IsRun, Next, Enabled, Synced, TakenInv, DealsWith;
    RunStep(states, steps, capacity, feeds, cellOf, i);
    DealStepWrites(states[i], feeds, cellOf);
  }

  lemma {:induction false} DealStepWrites(st: State, feeds: Feeds, cellOf: CellOf)
    requires |st.buffer.threads| >= 2 && TakenInv(st, cellOf) && Enabled(st, Deal, feeds)
    ensures DealsWith(st, Next(st, Deal, feeds, cellOf), cellOf)
  {
    var st' := Next(st, Deal, feeds, cellOf);
    DealStep(st, feeds, cellOf);
    hide Next, Enabled, TakenInv, IsSentinel, StoreAll, Kept1, Newest, Delivered;
    WritesRecord(st.arena, st'.arena, st.consumer.item, cellOf);
  }

  lemma {:induction false} DealStep(st: State, feeds: Feeds, cellOf: CellOf)
    requires |st.buffer.threads| >= 2 && TakenInv(st, cellOf) && Enabled(st, Deal, feeds)
    ensures st.consumer.Handling? && SizedArena(st.arena) && st.handled < |Delivered(st.buffer.log)|
    ensures st.consumer.item == Delivered(st.buffer.log)[st.handled]
    ensures var item, st' := st.consumer.item, Next(st, Deal, feeds, cellOf);
            && st'.arena == StoreAll(st.arena, Kept1(item, cellOf))
            && st'.total == if IsSentinel(item) || cellOf(item.lat, item.lon) == None then st.total
                            else (st.total + 1) % 0x1_0000_0000_0000_0000
  {
    hide Kept, ReplayArena, StoreAll, Delivered, IsSentinel;
    assert Delivered(st.buffer.log)[st.handled..][0] == st.consumer.item;
  }

  lemma {:induction false} WritesRecord(
    arena: seq<HexBucket>, arena': seq<HexBucket>, item: VehicleData, cellOf: CellOf)
    requires SizedArena(arena) && arena' == StoreAll(arena, Kept1(item, cellOf))
    ensures |arena| == |arena'| == 131072
    ensures if IsSentinel(item) || cellOf(item.lat, item.lon) == None
            then arena' == arena
            else
              var cell := cellOf(item.lat, item.lon).value;
              && (forall b :: 0 <= b < 131072 && b != cell % 131072 ==> arena'[b] == arena[b])
              && Newest(arena'[cell % 131072], cell, item.speed, item.timestamp)
  {
    hide IsSentinel, Write, Newest, Route;
    if Kept1(item, cellOf) != [] {
      var s := Kept1(item, cellOf)[0];
      RouteIsModulo(s.cell);
      WriteIsNewest(arena[Route(s.cell)], s);
    }
  }

  /** Nothing accepted is lost: when the buffer is empty and the consumer is about to pop, the
      arena has everything that was ever accepted. */
  lemma {:induction false} NothingAcceptedIsLost(
    states: seq<State>, steps: seq<Step>, capacity: nat, feeds: Feeds, cellOf: CellOf, i: nat)
    requires IsRun(states, steps, capacity, feeds, cellOf) && i < |states|
    requires states[i].consumer.AtPop? && states[i].buffer.ring.count == 0
    ensures states[i].arena == ReplayArena(Kept(Accepted(states[i].buffer.log), cellOf))
  {
    RunInv(states, steps, capacity, feeds, cellOf, i);
    var st := states[i];
    var delivered := Delivered(st.buffer.log);
    LegalIsFifo(st.buffer.log, |st.buffer.ring.data|);
    hide ReplayArena, Kept, Accepted, Delivered, Synced, SentInv;
    assert PendingPop(st) == [];
    assert delivered[..st.handled] == delivered;
    assert delivered == Accepted(st.buffer.log);
  }

  /** The collapse from end to end: if all cells are of resolution 9, then at any moment of any
      run all buckets but the last are as they were, and the last one shows the longest tail
      of one cell among all samples so far. */
  lemma {:induction false} EndToEndCollapse(
    states: seq<State>, steps: seq<Step>, capacity: nat, feeds: Feeds, cellOf: CellOf, i: nat, b: nat)
    requires IsRun(states, steps, capacity, feeds, cellOf) && i < |states| && b < BUCKET_COUNT
    requires forall lat, lon :: cellOf(lat, lon).Some? ==> FinerDigitsUnused(cellOf(lat, lon).value, H3_RESOLUTION)
    ensures var st := states[i];
            var stream := Stream(First(feeds, st.ingest.feed + 1));
            && st.handled <= |stream| && |st.arena| == BUCKET_COUNT
            && var log := Kept(stream[..st.handled], cellOf);
               if b != BUCKET_COUNT - 1 || log == [] then st.arena[b] == EmptyBucket()
               else exists k :: LongestSameCellTail(log, k) && Shows(st.arena[b], log[|log| - k..])
  {
    hide IsRun, Stream, First, ReplayArena, Kept, FinerDigitsUnused, Shows, LongestSameCellTail;
    var st := states[i];
    EndToEnd(states, steps, capacity, feeds, cellOf, i, st.ingest.feed + 1);
    var stream := Stream(First(feeds, st.ingest.feed + 1));
    var log := Kept(stream[..st.handled], cellOf);
    KeptCells(stream[..st.handled], cellOf);
    Resolution9Collapse(log, b);
    if log == [] {
      BucketsAreIndependent([], b);
    }
  }

  /** The window of every bucket from end to end, when ids are never 0: in its initial state, or
      showing the longest tail of one cell among the samples that were routed to it. */
  lemma {:induction false} EndToEndWindow(
    states: seq<State>, steps: seq<Step>, capacity: nat, feeds: Feeds, cellOf: CellOf, i: nat, b: nat)
    requires IsRun(states, steps, capacity, feeds, cellOf) && i < |states| && b < BUCKET_COUNT
    requires forall lat, lon :: cellOf(lat, lon) != Some(0)
    ensures var st := states[i];
            var stream := Stream(First(feeds, st.ingest.feed + 1));
            && st.handled <= |stream| && |st.arena| == BUCKET_COUNT
            && var sublog := Routed(Kept(stream[..st.handled], cellOf), b);
               if sublog == [] then st.arena[b] == EmptyBucket()
               else exists k :: LongestSameCellTail(sublog, k) && Shows(st.arena[b], sublog[|sublog| - k..])
  {
    hide IsRun, Stream, First, ReplayArena, Shows, LongestSameCellTail, Kept, Routed, EmptyBucket;
    var st := states[i];
    EndToEnd(states, steps, capacity, feeds, cellOf, i, st.ingest.feed + 1);
    var items := Stream(First(feeds, st.ingest.feed + 1))[..st.handled];
    KeptNonZero(items, cellOf);
    ArenaShowsLastCell(Kept(items, cellOf), b);
  }

  lemma {:induction false} KeptNonZero(items: seq<VehicleData>, cellOf: CellOf)
    requires forall lat, lon :: cellOf(lat, lon) != Some(0)
    ensures forall n :: 0 <= n < |Kept(items, cellOf)| ==> Kept(items, cellOf)[n].cell != 0
  {
    hide IsSentinel;
    if items != [] {
      KeptNonZero(items[..|items| - 1], cellOf);
    }
  }

  lemma {:induction false} KeptCells(items: seq<VehicleData>, cellOf: CellOf)
    requires forall lat, lon :: cellOf(lat, lon).Some? ==> FinerDigitsUnused(cellOf(lat, lon).value, H3_RESOLUTION)
    ensures forall k :: 0 <= k < |Kept(items, cellOf)| ==> FinerDigitsUnused(Kept(items, cellOf)[k].cell, H3_RESOLUTION)
  {
    hide FinerDigitsUnused, IsSentinel;
    if items != [] {
      KeptCells(items[..|items| - 1], cellOf);
    }
  }

  // ---------------------------------------------------------------------------
  // Progress
  // ---------------------------------------------------------------------------

  /** Only the ingestion thread pushes and only the consumer pops. */
  lemma {:induction false} Roles(st: State, feeds: Feeds, t: nat)
    requires Synced(st, feeds) && t < |st.buffer.threads|
    ensures InPush(st.buffer.threads[t]) ==> t == INGESTION
    ensures InPop(st.buffer.threads[t]) ==> t == CONSUMER
  {
    hide RecordOf, Sound;
  }

  lemma {:induction false} ConsumerAsleep(st: State, feeds: Feeds)
    requires M.Inv(st.buffer) && Synced(st, feeds) && st.buffer.threads[CONSUMER].Asleep?
    ensures st.buffer.ring.count <= if st.buffer.threads[INGESTION].Signalling? then 1 else 0
    ensures st.buffer.ring.shutdown ==> !Quiescent(st.buffer)
  {
    var s := st.buffer;
    forall t | 0 <= t < |s.threads|
      ensures InPush(s.threads[t]) ==> t == INGESTION
      ensures InPop(s.threads[t]) ==> t == CONSUMER
    {
      Roles(st, feeds, t);
    }
    assert s.threads[CONSUMER].op == Pop;
    hide M.Linearized, Synced;
    assert M.SleepsOn(s.threads[CONSUMER], M.NotEmpty);
    assert M.NoLostWakeup(s, M.NotEmpty) && M.NoSleepAfterShutdown(s, M.NotEmpty);
    SumZero(s.threads, M.RousedOn(M.NotEmpty));
  }

  lemma {:induction false} IngestionAsleep(st: State, feeds: Feeds)
    requires M.Inv(st.buffer) && Synced(st, feeds) && st.buffer.threads[INGESTION].Asleep?
    ensures |st.buffer.ring.data| - st.buffer.ring.count <= if st.buffer.threads[CONSUMER].Signalling? then 1 else 0
  {
    var s := st.buffer;
    forall t | 0 <= t < |s.threads|
      ensures InPush(s.threads[t]) ==> t == INGESTION
      ensures InPop(s.threads[t]) ==> t == CONSUMER
    {
      Roles(st, feeds, t);
    }
    hide M.Linearized, Synced;
    assert M.Sensible(s.threads[INGESTION]);
    assert M.SleepsOn(s.threads[INGESTION], M.NotFull);
    assert M.NoLostWakeup(s, M.NotFull);
    SumZero(s.threads, M.RousedOn(M.NotFull));
  }

  /** With room for at least one record the ingestion thread and the consumer are never both
      asleep, in any reachable state. */
  lemma {:induction false} NeverBothAsleep(
    states: seq<State>, steps: seq<Step>, capacity: nat, feeds: Feeds, cellOf: CellOf, i: nat)
    requires IsRun(states, steps, capacity, feeds, cellOf) && i < |states| && capacity >= 1
    ensures var threads := states[i].buffer.threads;
            |threads| >= 2 && !(threads[INGESTION].Asleep? && threads[CONSUMER].Asleep?)
  {
    RunInv(states, steps, capacity, feeds, cellOf, i);
    CapacityKept(states, steps, capacity, feeds, cellOf, i);
    var st := states[i];
    if st.buffer.threads[INGESTION].Asleep? && st.buffer.threads[CONSUMER].Asleep? {
      ConsumerAsleep(st, feeds);
      IngestionAsleep(st, feeds);
    }
  }

  lemma {:induction false} CapacityKept(
    states: seq<State>, steps: seq<Step>, capacity: nat, feeds: Feeds, cellOf: CellOf, i: nat)
    requires IsRun(states, steps, capacity, feeds, cellOf) && i < |states|
    ensures |states[i].buffer.ring.data| == capacity
  {
    if i > 0 {
      CapacityKept(states, steps, capacity, feeds, cellOf, i - 1);
      RunStep(states, steps, capacity, feeds, cellOf, i - 1);
      hide IsRun, Next, Enabled, Synced, TakenInv;
      StepKeepsCapacity(states[i - 1], steps[i - 1], feeds, cellOf);
    }
  }

  lemma {:induction false} StepKeepsCapacity(st: State, step: Step, feeds: Feeds, cellOf: CellOf)
    requires Enabled(st, step, feeds)
    ensures |Next(st, step, feeds, cellOf).buffer.ring.data| == |st.buffer.ring.data|
  {
    hide RecordOf;
  }

  /** A step the two loops or calls in progress can take by themselves: nobody wakes without
      a signal, and no other thread begins a call. */
  predicate Progresses(st: State, step: Step, feeds: Feeds) {
    && Enabled(st, step, feeds)
    && (step.Buffer? ==>
          && !step.step.action.WakeSpuriously?
          && (step.step.action.Call? ==> step.step.thread == INGESTION || step.step.thread == CONSUMER))
  }

  ghost predicate CanProgress(st: State, feeds: Feeds) {
    exists step :: Progresses(st, step, feeds)
  }

  /** An idle thread of the program always has something to do, except an ingestion thread that
      has ended. */
  lemma {:induction false} IdleProgresses(st: State, feeds: Feeds)
    requires M.Inv(st.buffer) && Synced(st, feeds) && SizedArena(st.arena)
    requires st.buffer.threads[CONSUMER].Idle? || (st.buffer.threads[INGESTION].Idle? && !st.ingest.Ended?)
    ensures CanProgress(st, feeds)
  {
    hide RecordOf;
    var i := st.ingest;
    var step :=
      if st.buffer.threads[CONSUMER].Idle? then
        if st.consumer.AtPop? then Buffer(M.Step(CONSUMER, M.Call(Pop))) else Deal
      else if i.AtLoopTest? then Buffer(M.Step(INGESTION, M.Call(IsShutdown)))
      else if AtRecord(feeds, i) then
        Buffer(M.Step(INGESTION, M.Call(Push(RecordOf(EntitiesOf(feeds, i)[i.entity])))))
      else MoveOn;
    assert Progresses(st, step, feeds);
  }

  lemma {:induction false} SomethingProgresses(
    states: seq<State>, steps: seq<Step>, capacity: nat, feeds: Feeds, cellOf: CellOf, i: nat)
    requires IsRun(states, steps, capacity, feeds, cellOf) && i < |states| && capacity >= 1
    ensures CanProgress(states[i], feeds)
  {
    var st := states[i];
    RunInv(states, steps, capacity, feeds, cellOf, i);
    NeverBothAsleep(states, steps, capacity, feeds, cellOf, i);
    hide IsRun;
    StandsStillOnlyAsleep(st.buffer);
    if CanAdvance(st.buffer) {
      var step :| Advances(st.buffer, step);
      assert Progresses(st, Buffer(step), feeds);
    } else {
      if st.buffer.threads[CONSUMER].Asleep? {
        ConsumerAsleep(st, feeds);
      }
      IdleProgresses(st, feeds);
    }
  }

  /** The program never stands still: with room for at least one record, some step of its own
      is possible in every reachable state, shut down or not. */
  lemma {:induction false} AlwaysProgress(
    states: seq<State>, steps: seq<Step>, capacity: nat, feeds: Feeds, cellOf: CellOf, i: nat)
    requires IsRun(states, steps, capacity, feeds, cellOf) && i < |states| && capacity >= 1
    ensures exists step ::
              && Enabled(states[i], step, feeds)
              && (step.Buffer? ==>
                    && !step.step.action.WakeSpuriously?
                    && (step.step.action.Call? ==> step.step.thread == INGESTION || step.step.thread == CONSUMER))
  {
    hide IsRun, Enabled;
    SomethingProgresses(states, steps, capacity, feeds, cellOf, i);
    var step :| Progresses(states[i], step, feeds);
    assert Enabled(states[i], step, feeds);
  }

  /** Any thread outside the two loops may shut the buffer down at any moment it is idle. */
  lemma {:induction false} AnyoneMayShutDown(
    states: seq<State>, steps: seq<Step>, capacity: nat, feeds: Feeds, cellOf: CellOf, i: nat, t: nat)
    requires IsRun(states, steps, capacity, feeds, cellOf) && i < |states|
    requires 2 <= t < |states[i].buffer.threads| && states[i].buffer.threads[t].Idle?
    ensures Enabled(states[i], Buffer(M.Step(t, M.Call(Shutdown))), feeds)
  {
    RunInv(states, steps, capacity, feeds, cellOf, i);
  }

  /** The program has runs of every length, for every number of threads from 2 up, whatever the
      array holds at first and whatever the feeds. */
  lemma {:induction false} RunsOfAnyLength(data: seq<VehicleData>, threads: nat, feeds: Feeds, cellOf: CellOf, n: nat)
    returns (states: seq<State>, steps: seq<Step>)
    requires |data| >= 1 && threads >= 2
    ensures IsRun(states, steps, |data|, feeds, cellOf) && |steps| == n
    ensures |states[0].buffer.threads| == threads && states[0].buffer.ring.data == data
  {
    if n == 0 {
      var buffer := M.State(Ring(data, 0, 0, 0, false), None, seq(threads, _ => M.Idle), [], seq(threads, _ => []));
      states := [State(buffer, AtLoopTest(0), [], AtPop, ReplayArena([]), 0, 0)];
      steps := [];
    } else {
      states, steps := RunsOfAnyLength(data, threads, feeds, cellOf, n - 1);
      SomethingProgresses(states, steps, |data|, feeds, cellOf, n - 1);
      var step :| Progresses(states[n - 1], step, feeds);
      RunGoesOn(states, steps, |data|, feeds, cellOf, step);
      states, steps := states + [Next(states[n - 1], step, feeds, cellOf)], steps + [step];
    }
  }

  lemma {:induction false} RunGoesOn(
    states: seq<State>, steps: seq<Step>, capacity: nat, feeds: Feeds, cellOf: CellOf, step: Step)
    requires IsRun(states, steps, capacity, feeds, cellOf) && Enabled(states[|steps|], step, feeds)
    ensures IsRun(states + [Next(states[|steps|], step, feeds, cellOf)], steps + [step], capacity, feeds, cellOf)
  {
    hide Init, Enabled, Next;
  }

  /** After a shutdown the ingestion thread is at most one feed further, and if it is, it is on
      its way out. */
  ghost predicate WindingDown(st: State, feed: nat) {
    && st.buffer.ring.shutdown && |st.buffer.threads| >= 2
    && st.ingest.feed <= feed + 1
    && (st.ingest.feed == feed + 1 ==>
          || st.ingest.AtLoopTest? || st.ingest.Ended?
          || (st.ingest.AskingShutdown? && YesIfDecided(st.buffer.threads[INGESTION])))
  }

  lemma {:induction false} WindingDownKept(st: State, step: Step, feeds: Feeds, cellOf: CellOf, feed: nat)
    requires Synced(st, feeds) && Enabled(st, step, feeds) && WindingDown(st, feed)
    ensures WindingDown(Next(st, step, feeds, cellOf), feed)
  {
    if step.Buffer? {
      hide M.Next, RecordOf;
      OwnStep(st.buffer, step.step);
      if step.step.thread != INGESTION {
        OthersUndisturbed(st.buffer, step.step, INGESTION);
      }
    }
  }

  lemma {:induction false} WindingDownStarts(
    states: seq<State>, steps: seq<Step>, capacity: nat, feeds: Feeds, cellOf: CellOf, i: nat)
    requires IsRun(states, steps, capacity, feeds, cellOf) && i < |states| && states[i].buffer.ring.shutdown
    ensures WindingDown(states[i], states[i].ingest.feed)
  {
    RunInv(states, steps, capacity, feeds, cellOf, i);
  }

  /** A shutdown ends ingestion: once the flag is set, no feed after the one at hand is ever
      parsed; the thread does not get past the loop test that follows it. */
  lemma {:induction false} ShutdownEndsIngestion(
    states: seq<State>, steps: seq<Step>, capacity: nat, feeds: Feeds, cellOf: CellOf, i: nat, j: nat)
    requires IsRun(states, steps, capacity, feeds, cellOf) && i <= j < |states| && states[i].buffer.ring.shutdown
    ensures WindingDown(states[j], states[i].ingest.feed)
    decreases j
  {
    hide IsRun, WindingDown, Synced, Next, Enabled;
    if i == j {
      WindingDownStarts(states, steps, capacity, feeds, cellOf, i);
    } else {
      ShutdownEndsIngestion(states, steps, capacity, feeds, cellOf, i, j - 1);
      RunStep(states, steps, capacity, feeds, cellOf, j - 1);
      WindingDownKept(states[j - 1], steps[j - 1], feeds, cellOf, states[i].ingest.feed);
    }
  }
}
