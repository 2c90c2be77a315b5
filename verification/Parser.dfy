/** From a decoded feed message to flat records, pushed one by one. */
module Parser {
  import opened Records
  import opened CStrings
  import opened BoundedQueue
  import opened Rings
  import opened Totals

  /** The parts of the decoded messages that the parser looks at. Absent sub-messages,
      absent strings and optional scalars whose presence flag is off are None. */
  datatype Trip = Trip(routeId: Option<CString>)
  datatype Descriptor = Descriptor(id: Option<CString>, shownLabel: Option<CString>)
  datatype Position = Position(latitude: Float, longitude: Float, bearing: Option<Float>, speed: Option<Float>)
  datatype Vehicle = Vehicle(
    trip: Option<Trip>, vehicle: Option<Descriptor>, position: Option<Position>,
    stopId: Option<CString>, currentStatus: Option<Int32>, timestamp: Option<Uint64>,
    congestionLevel: Option<Int32>, occupancyStatus: Option<Int32>, occupancyPercentage: Option<Uint32>)
  datatype Entity = Entity(id: Option<CString>, vehicle: Option<Vehicle>)

  /** A payload that could not be fetched or decoded is None. */
  type Feed = Option<seq<Entity>>

  /** "UNKNOWN" */
  const UNKNOWN: CString := [85, 78, 75, 78, 79, 87, 78]

  predicate Qualifies(e: Entity) {
    e.vehicle.Some? && e.vehicle.value.position.Some?
  }

  /** A percentage is unsigned in the feed and signed in the record. */
  function ToInt32(x: Uint32): Int32 {
    (if x < 0x8000_0000 then x else x - 0x1_0000_0000) as Int32
  }

  function RawFleet(e: Entity): CString
    requires Qualifies(e)
  {
    var d := e.vehicle.value.vehicle;
    if d.Some? && d.value.shownLabel.Some? then d.value.shownLabel.value else e.id.GetOr(UNKNOWN)
  }

  function RawInternalId(v: Vehicle): CString {
    if v.vehicle.Some? then v.vehicle.value.id.GetOr(UNKNOWN) else UNKNOWN
  }

  function RawRoute(v: Vehicle): CString {
    if v.trip.Some? then v.trip.value.routeId.GetOr(UNKNOWN) else UNKNOWN
  }

  function RecordOf(e: Entity): VehicleData
    requires Qualifies(e)
  {
    var v := e.vehicle.value;
    var p := v.position.value;
    VehicleData(
      Bounded(RawFleet(e), 16), Bounded(RawInternalId(v), 16), Bounded(RawRoute(v), 16),
      p.latitude, p.longitude, p.speed.GetOr(ZERO),
      v.occupancyStatus.GetOr(7),
      if v.occupancyPercentage.Some? then ToInt32(v.occupancyPercentage.value) else -1,
      p.bearing.GetOr(ZERO), v.timestamp.GetOr(0), v.currentStatus.GetOr(2), v.congestionLevel.GetOr(0),
      Bounded(v.stopId.GetOr(UNKNOWN), 32))
  }

  /** The records of the qualifying entities, in order. */
  function RecordsOf(entities: seq<Entity>): seq<VehicleData> {
    if entities == [] then []
    else
      var last := entities[|entities| - 1];
      RecordsOf(entities[..|entities| - 1]) + (if Qualifies(last) then [RecordOf(last)] else [])
  }

  function Entities(feed: Feed): seq<Entity> {
    feed.GetOr([])
  }

  lemma {:induction false} RecordsOfNext(entities: seq<Entity>, i: nat)
    requires i < |entities|
    ensures RecordsOf(entities[..i + 1]) ==
            RecordsOf(entities[..i]) + (if Qualifies(entities[i]) then [RecordOf(entities[i])] else [])
  {
    assert entities[..i + 1][..i] == entities[..i];
  }

  lemma {:induction false} RecordsOfPrefix(entities: seq<Entity>, i: nat)
    requires i <= |entities|
    ensures RecordsOf(entities[..i]) <= RecordsOf(entities)
    decreases |entities| - i
  {
    if i < |entities| {
      RecordsOfNext(entities, i);
      RecordsOfPrefix(entities, i + 1);
    } else {
      assert entities[..i] == entities;
    }
  }

  ghost predicate Selected(entities: seq<Entity>, at: seq<nat>) {
    && Increasing(at) && |at| == |RecordsOf(entities)|
    && (forall n :: 0 <= n < |at| ==>
          && at[n] < |entities| && Qualifies(entities[at[n]])
          && RecordsOf(entities)[n] == RecordOf(entities[at[n]]))
    && (forall i :: 0 <= i < |entities| && Qualifies(entities[i]) ==> i in at)
  }

  lemma {:induction false} SelectNext(rest: seq<Entity>, e: Entity, before: seq<nat>)
    requires Selected(rest, before)
    ensures Selected(rest + [e], before + (if Qualifies(e) then [|rest|] else []))
  {
    var at, entities := before + (if Qualifies(e) then [|rest|] else []), rest + [e];
    assert RecordsOf(entities) == RecordsOf(rest) + (if Qualifies(e) then [RecordOf(e)] else []) by {
      assert entities[..|rest|] == rest;
    }
    hide RecordOf, RecordsOf, Qualifies;
    forall i | 0 <= i < |entities| && Qualifies(entities[i])
      ensures i in at
    {
      assert if i < |rest| then i in before else at[|before|] == i;
    }
  }

  /** The records are those of the entities that have a vehicle with a position, all of them
      and no others, in order. */
  lemma {:induction false} RecordsSelect(entities: seq<Entity>) returns (at: seq<nat>)
    ensures Increasing(at) && |at| == |RecordsOf(entities)|
    ensures forall n :: 0 <= n < |at| ==>
              && at[n] < |entities|
              && entities[at[n]].vehicle.Some? && entities[at[n]].vehicle.value.position.Some?
              && RecordsOf(entities)[n] == RecordOf(entities[at[n]])
    ensures forall i :: 0 <= i < |entities| ==>
              entities[i].vehicle.Some? && entities[i].vehicle.value.position.Some? ==> i in at
  {
    at := SelectAll(entities);
    hide RecordOf, RecordsOf;
  }

  lemma {:induction false} SelectAll(entities: seq<Entity>) returns (at: seq<nat>)
    ensures Selected(entities, at)
  {
    at := [];
    if entities != [] {
      var rest, e := entities[..|entities| - 1], entities[|entities| - 1];
      at := SelectAll(rest);
      hide Selected;
      SelectNext(rest, e, at);
      assert entities == rest + [e];
      at := at + (if Qualifies(e) then [|rest|] else []);
    }
  }

  lemma {:induction false} RecordsCount(entities: seq<Entity>)
    ensures |RecordsOf(entities)| ==
            |set i: nat | i < |entities| && entities[i].vehicle.Some? && entities[i].vehicle.value.position.Some?|
  {
    hide RecordOf;
    if entities != [] {
      var last := |entities| - 1;
      var rest := entities[..last];
      RecordsCount(rest);
      OneMore(
        (set i: nat | i < |rest| && rest[i].vehicle.Some? && rest[i].vehicle.value.position.Some?),
        (set i: nat | i < |entities| && entities[i].vehicle.Some? && entities[i].vehicle.value.position.Some?),
        last, Qualifies(entities[last]));
    }
  }

  lemma {:induction false} NextRecord(entities: seq<Entity>, i: nat, k: nat)
    requires i < |entities| && k <= |RecordsOf(entities)| && RecordsOf(entities[..i]) == RecordsOf(entities)[..k]
    ensures if Qualifies(entities[i])
            then && k < |RecordsOf(entities)| && RecordsOf(entities)[k] == RecordOf(entities[i])
                 && RecordsOf(entities[..i + 1]) == RecordsOf(entities)[..k + 1]
            else RecordsOf(entities[..i + 1]) == RecordsOf(entities)[..k]
  {
    RecordsOfNext(entities, i);
    RecordsOfPrefix(entities, i + 1);
  }

  /** The consumer's test for records to skip. */
  predicate IsSentinel(item: VehicleData) {
    StrNCmpZero(item.internalId, UNKNOWN + [0], 16)
  }

  /** On any record the test looks at eight characters: UNKNOWN and the terminator. */
  lemma {:induction false} SentinelIsEightCharacters(item: VehicleData)
    ensures IsSentinel(item) <==>
            forall i :: 0 <= i < 8 ==> item.internalId[i] == if i < 7 then "UNKNOWN"[i] as int else 0
  {
    var field, literal := item.internalId, UNKNOWN + [0];
    ComparePrefix(field, literal, 7, 16);
  }

  lemma {:induction false} ComparePrefix(a: seq<Char>, b: seq<Char>, k: nat, n: nat)
    requires k < n && k < |b| && b[k] == 0 && n <= |a|
    requires forall i :: 0 <= i < k ==> b[i] != 0
    ensures StrNCmpZero(a, b, n) <==> forall i :: 0 <= i <= k ==> a[i] == b[i]
  {
    if k > 0 && a[0] == b[0] {
      ComparePrefix(a[1..], b[1..], k - 1, n - 1);
      assert forall i :: 0 <= i < k ==> a[1..][i] == a[i + 1] && b[1..][i] == b[i + 1];
      if forall i :: 0 <= i <= k - 1 ==> a[1..][i] == b[1..][i] {
        forall i | 0 <= i <= k
          ensures a[i] == b[i]
        {
          assert i > 0 ==> a[i] == a[1..][i - 1] && b[i] == b[1..][i - 1];
        }
      }
    }
  }

  /** The test is exact in spite of the bounded copy: it holds just for the literal id
      "UNKNOWN", and so for entities without an id, and never because an id was cut short. */
  lemma {:induction false} SentinelIsExact(e: Entity)
    requires Qualifies(e)
    ensures IsSentinel(RecordOf(e)) <==> RawInternalId(e.vehicle.value) == UNKNOWN
    ensures IsSentinel(RecordOf(e)) <==>
            var d := e.vehicle.value.vehicle;
            d == None || d.value.id == None || d.value.id.value == [85, 78, 75, 78, 79, 87, 78]
    ensures e.vehicle.value.vehicle == None ==> IsSentinel(RecordOf(e))
  {
    CompareField(RawInternalId(e.vehicle.value), UNKNOWN, 16);
  }

  /** The text fields of a record read back as the chosen source strings, cut to what fits. */
  lemma {:induction false} RecordReadsBack(e: Entity)
    requires Qualifies(e)
    ensures var r, v := RecordOf(e), e.vehicle.value;
            && ToCString(r.fleetNumber) == Cut(RawFleet(e), 15)
            && ToCString(r.internalId) == Cut(RawInternalId(v), 15)
            && ToCString(r.routeId) == Cut(RawRoute(v), 15)
            && ToCString(r.stopId) == Cut(v.stopId.GetOr(UNKNOWN), 31)
  {
    var v := e.vehicle.value;
    FieldRoundTrip(RawFleet(e), 16);
    FieldRoundTrip(RawInternalId(v), 16);
    FieldRoundTrip(RawRoute(v), 16);
    FieldRoundTrip(v.stopId.GetOr(UNKNOWN), 32);
  }

  /** The mark for a missing percentage is exact but for one value of the feed's unsigned
      field, the largest. */
  lemma {:induction false} MissingPercentage(e: Entity)
    requires Qualifies(e)
    ensures RecordOf(e).occupancyPercentage == -1 <==>
            e.vehicle.value.occupancyPercentage.GetOr(0xFFFF_FFFF) == 0xFFFF_FFFF
  {
  }

  /** The record of one entity, built field by field in a local that starts uninitialised. */
  method BuildRecord(e: Entity) returns (item: VehicleData)
    requires Qualifies(e)
    ensures item == RecordOf(e)
    ensures var v, p := e.vehicle.value, e.vehicle.value.position.value;
            && item.lat == p.latitude && item.lon == p.longitude
            && item.speed == (if p.speed.Some? then p.speed.value else Float(0))
            && item.bearing == (if p.bearing.Some? then p.bearing.value else Float(0))
            && item.timestamp == (if v.timestamp.Some? then v.timestamp.value else 0)
            && item.occupancyStatus == (if v.occupancyStatus.Some? then v.occupancyStatus.value else 7)
            && item.currentStatus == (if v.currentStatus.Some? then v.currentStatus.value else 2)
            && item.congestionLevel == (if v.congestionLevel.Some? then v.congestionLevel.value else 0)
    ensures var percentage := e.vehicle.value.occupancyPercentage;
            item.occupancyPercentage as int ==
            if percentage == None then -1
            else if percentage.value < 0x8000_0000 then percentage.value
            else percentage.value - 0x1_0000_0000
    ensures var v, d, unknown := e.vehicle.value, e.vehicle.value.vehicle, [85, 78, 75, 78, 79, 87, 78];
            && item.fleetNumber ==
               Bounded(if d.Some? && d.value.shownLabel.Some? then d.value.shownLabel.value
                       else if e.id.Some? then e.id.value else unknown, 16)
            && item.internalId == Bounded(if d.Some? && d.value.id.Some? then d.value.id.value else unknown, 16)
            && item.routeId ==
               Bounded(if v.trip.Some? && v.trip.value.routeId.Some? then v.trip.value.routeId.value else unknown, 16)
            && item.stopId == Bounded(if v.stopId.Some? then v.stopId.value else unknown, 32)
  {
    var v := e.vehicle.value;
    var fleet := new Char[16];
    CopyField(fleet, RawFleet(e));
    var internalId := new Char[16];
    CopyField(internalId, RawInternalId(v));
    var route := new Char[16];
    CopyField(route, RawRoute(v));
    var stop := new Char[32];
    CopyField(stop, v.stopId.GetOr(UNKNOWN));
    var p := v.position.value;
    item := VehicleData(
      fleet[..], internalId[..], route[..], p.latitude, p.longitude, p.speed.GetOr(ZERO),
      v.occupancyStatus.GetOr(7),
      if v.occupancyPercentage.Some? then ToInt32(v.occupancyPercentage.value) else -1,
      p.bearing.GetOr(ZERO), v.timestamp.GetOr(0), v.currentStatus.GetOr(2), v.congestionLevel.GetOr(0),
      stop[..]);
  }

  /** Build the record of an entity and push it. */
  method PushEntity(e: Entity, rb: RingBuffer, ghost me: nat, turns: seq<Turn>, start: nat)
    returns (result: Option<bool>, used: nat)
    requires Qualifies(e) && rb.Valid() && AllByOthers(turns, me) && start <= |turns|
    modifies rb, rb.data
    ensures rb.Valid() && start <= used <= |turns|
    ensures result.Some? ==>
              && By(rb.log, me) == old(By(rb.log, me)) + [Event(me, Push(RecordOf(e)), Pushed(result.value))]
              && (result.value || Replay(rb.log).shutdown)
    ensures result.None? ==>
              By(rb.log, me) == old(By(rb.log, me)) && Blocked(Replay(rb.log), rb.data.Length, Push(RecordOf(e)))
  {
    hide RingBuffer.Valid, Settles, Replay, RecordOf, Blocked;
    var item := BuildRecord(e);
    ghost var before := rb.log;
    result, used := rb.BlockingPush(me, item, turns, start);
    SettledCall(before, rb.log, turns, start, used, me, Push(item), result.Some?, rb.data.Length);
  }

  /** How a call to parse_and_queue ended: all records pushed, one refused, or asleep for good
      in a push to a full buffer that nobody empties. */
  datatype Parse = Finished | Refused | StillAsleep

  /** The events of pushing these records successfully. */
  function Pushes(me: nat, items: seq<VehicleData>): (events: seq<Event>)
    ensures |events| == |items|
  {
    seq(|items|, i requires 0 <= i < |items| => Event(me, Push(items[i]), Pushed(true)))
  }

  /** On top of what it had done before, a thread has pushed so many of the records, and then,
      if told so, had the next one refused by a buffer that was shut down. */
  ghost predicate HasPushed(
    before: seq<Event>, log: seq<Event>, me: nat, records: seq<VehicleData>, pushed: nat, refused: bool) {
    && pushed <= |records|
    && (refused ==> pushed < |records| && Replay(log).shutdown)
    && By(log, me) == before + Pushes(me, records[..pushed])
                      + (if refused then [Event(me, Push(records[pushed]), Pushed(false))] else [])
  }

  lemma {:induction false} PushedOneMore(
    before: seq<Event>, log: seq<Event>, log': seq<Event>, me: nat, records: seq<VehicleData>, pushed: nat,
    ok: bool)
    requires HasPushed(before, log, me, records, pushed, false) && pushed < |records|
    requires By(log', me) == By(log, me) + [Event(me, Push(records[pushed]), Pushed(ok))]
    requires ok || Replay(log').shutdown
    ensures if ok then HasPushed(before, log', me, records, pushed + 1, false)
            else HasPushed(before, log', me, records, pushed, true)
  {
    if ok {
      assert records[..pushed + 1] == records[..pushed] + [records[pushed]];
      assert Pushes(me, records[..pushed + 1]) ==
             Pushes(me, records[..pushed]) + [Event(me, Push(records[pushed]), Pushed(true))];
    }
  }

  /** parse_and_queue: this thread's pushes are the feed's records in order, up to the first
      refusal, which only a shutdown causes; the count returned is the number accepted. */
  method ParseAndQueue(feed: Feed, rb: RingBuffer, ghost me: nat, turns: seq<Turn>, start: nat)
    returns (pushed: nat, outcome: Parse, used: nat)
    requires rb.Valid() && AllByOthers(turns, me) && start <= |turns|
    modifies rb, rb.data
    ensures rb.Valid() && start <= used <= |turns|
    ensures HasPushed(old(By(rb.log, me)), rb.log, me, RecordsOf(Entities(feed)), pushed, outcome.Refused?)
    ensures outcome.Finished? <==> pushed == |RecordsOf(Entities(feed))|
    ensures feed == None ==> outcome.Finished? && pushed == 0
    ensures feed.Some? && outcome.Finished? ==>
              pushed == |set i: nat | i < |feed.value| && feed.value[i].vehicle.Some?
                                      && feed.value[i].vehicle.value.position.Some?|
    ensures outcome.StillAsleep? ==>
              && pushed < |RecordsOf(Entities(feed))|
              && Blocked(Replay(rb.log), rb.data.Length, Push(RecordsOf(Entities(feed))[pushed]))
  {
    pushed, outcome, used := 0, Finished, start;
    if feed == None {
      return;
    }
    var entities := feed.value;
    ghost var records, before := RecordsOf(entities), By(rb.log, me);
    assert HasPushed(before, rb.log, me, records, 0, false);
    hide RingBuffer.Valid, By, RecordOf, Blocked, HasPushed, Replay;
    for i := 0 to |entities|
      invariant rb.Valid() && start <= used <= |turns|
      invariant HasPushed(before, rb.log, me, records, pushed, false) && pushed <= |records|
      invariant RecordsOf(entities[..i]) == records[..pushed]
    {
      NextRecord(entities, i, pushed);
      if Qualifies(entities[i]) {
        ghost var log := rb.log;
        var result;
        result, used := PushEntity(entities[i], rb, me, turns, used);
        if result == None {
          return pushed, StillAsleep, used;
        }
        PushedOneMore(before, log, rb.log, me, records, pushed, result.value);
        if !result.value {
          return pushed, Refused, used;
        }
        pushed := pushed + 1;
      }
    }
    assert entities[..|entities|] == entities;
    RecordsCount(entities);
  }
}
