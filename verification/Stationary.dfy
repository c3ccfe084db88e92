// Stationary zones: created around a device that has stayed put, joined by others,
// removed when the last occupant leaves, and reused after a cooldown.
module Stationary {
  import opened Core
  import opened Zones

  datatype Policy = Policy(
    enabled: bool, stillSeconds: nat, movementLimitMeters: real, radiusMeters: real, reuseCooldownSeconds: nat)

  datatype StationaryZone = StationaryZone(
    id: string, center: Coordinates, radiusMeters: real, active: bool, occupants: set<string>,
    lastRemovedAt: Option<Instant>)

  datatype Observation = Observation(
    deviceId: string, location: Coordinates, observedAt: Instant, distanceMovedMeters: real,
    locationIsGood: bool, monitoredOnly: bool)

  /** The manager's four linked pieces of state. */
  datatype Pool = Pool(
    zones: seq<StationaryZone>, deviceZones: map<string, string>, stillSince: map<string, Instant>, nextId: nat)

  const EMPTY := Pool([], map[], map[], 0)

  datatype Step = Step(pool: Pool, result: Result<seq<TrackingEvent>, TrackingError>)

  // ---- zone names ----

  function Decimal(n: nat): string {
    if n < 10 then [('0' as int + n) as char] else Decimal(n / 10) + [('0' as int + n % 10) as char]
  }

  function ZoneId(n: nat): string {
    "stationary_" + Decimal(n)
  }

  lemma {:induction false} DecimalInjective(a: nat, b: nat)
    requires Decimal(a) == Decimal(b)
    ensures a == b
  {
    var s, t := Decimal(a), Decimal(b);
    DecimalLength(a);
    DecimalLength(b);
    assert s[|s| - 1] == t[|t| - 1];
    if a >= 10 && b >= 10 {
      assert s[..|s| - 1] == Decimal(a / 10) && t[..|t| - 1] == Decimal(b / 10);
      DecimalInjective(a / 10, b / 10);
    }
  }

  lemma DecimalLength(n: nat)
    ensures |Decimal(n)| >= 1 && (n >= 10 <==> |Decimal(n)| >= 2)
  {
    if n >= 10 {
      DecimalLength(n / 10);
    }
  }

  lemma ZoneIdInjective(a: nat, b: nat)
    requires ZoneId(a) == ZoneId(b)
    ensures a == b
  {
    assert Decimal(a) == ZoneId(a)[|"stationary_"|..] && Decimal(b) == ZoneId(b)[|"stationary_"|..];
    DecimalInjective(a, b);
  }

  // ---- one operation ----

  predicate ValidInput(policy: Policy, distanceMovedMeters: real) {
    policy.movementLimitMeters >= 0.0 && policy.radiusMeters > 0.0 && distanceMovedMeters >= 0.0
  }

  predicate Near(dist: Metric, zone: StationaryZone, location: Coordinates) {
    dist(zone.center, location) <= zone.radiusMeters * 1.5
  }

  function HasId(id: string): StationaryZone -> bool {
    (zone: StationaryZone) => zone.id == id
  }

  function IsJoinable(dist: Metric, location: Coordinates): StationaryZone -> bool {
    (zone: StationaryZone) => zone.active && Near(dist, zone, location)
  }

  predicate CooledDown(zone: StationaryZone, now: Instant, policy: Policy) {
    zone.lastRemovedAt.Some? && now - zone.lastRemovedAt.value >= ConfiguredSeconds(policy.reuseCooldownSeconds)
  }

  function IsReusable(now: Instant, policy: Policy): StationaryZone -> bool {
    (zone: StationaryZone) => !zone.active && CooledDown(zone, now, policy)
  }

  function LeaveStep(dist: Metric, pool: Pool, o: Observation, zoneId: string): Step {
    match Position(pool.zones, HasId(zoneId))
    case None => Step(pool, Err(InvalidInput("stationary zone is missing")))
    case Some(i) =>
      var zone := pool.zones[i];
      if Near(dist, zone, o.location) then Step(pool, Ok([]))
      else
        var remaining := zone.occupants - {o.deviceId};
        var emptied := remaining == {};
        var zone' := zone.(
          occupants := remaining,
          active := zone.active && !emptied,
          lastRemovedAt := if emptied then Some(o.observedAt) else zone.lastRemovedAt);
        Step(
          pool.(zones := pool.zones[i := zone'],
                deviceZones := pool.deviceZones - {o.deviceId},
                stillSince := pool.stillSince[o.deviceId := o.observedAt]),
          Ok(if emptied then [ZoneExited(o.deviceId, zone.id), StationaryZoneRemoved(zone.id)]
             else [ZoneExited(o.deviceId, zone.id)]))
  }

  /** Index of the zone to settle in, in the pool where that zone is active. */
  function Host(dist: Metric, pool: Pool, o: Observation, policy: Policy): (Pool, nat) {
    match Position(pool.zones, IsJoinable(dist, o.location))
    case Some(i) => (pool, i)
    case None =>
      match Position(pool.zones, IsReusable(o.observedAt, policy))
      case Some(i) =>
        var zone' := pool.zones[i].(
          center := o.location, radiusMeters := policy.radiusMeters, active := true, lastRemovedAt := None);
        (pool.(zones := pool.zones[i := zone']), i)
      case None =>
        var nextId := Min(pool.nextId + 1, U64_MAX);
        var zone := StationaryZone(ZoneId(nextId), o.location, policy.radiusMeters, true, {}, None);
        (pool.(zones := pool.zones + [zone], nextId := nextId), |pool.zones|)
  }

  function SettleStep(dist: Metric, pool: Pool, o: Observation, policy: Policy): Step {
    var (hosted, i) := Host(dist, pool, o, policy);
    assert i < |hosted.zones|;
    var zone := hosted.zones[i];
    Step(
      hosted.(zones := hosted.zones[i := zone.(occupants := zone.occupants + {o.deviceId})],
              deviceZones := hosted.deviceZones[o.deviceId := zone.id],
              stillSince := hosted.stillSince - {o.deviceId}),
      Ok(if zone.occupants == {} then [StationaryZoneCreated(zone.id, o.deviceId), ZoneEntered(o.deviceId, zone.id)]
         else [ZoneEntered(o.deviceId, zone.id)]))
  }

  predicate Considered(o: Observation, policy: Policy) {
    policy.enabled && o.locationIsGood && !o.monitoredOnly
  }

  function StillStart(pool: Pool, o: Observation): Instant {
    if o.deviceId in pool.stillSince then pool.stillSince[o.deviceId] else o.observedAt
  }

  /** What an observation of a device outside every stationary zone says about it. */
  datatype Assessment = Failed(error: TrackingError) | Unfit | Restless | Still

  function Assess(dist: Metric, o: Observation, policy: Policy, regular: ZoneSet): Assessment {
    if !Considered(o, policy) then Unfit
    else
      match Select(dist, regular, o.location, 0.0)
      case Err(error) => Failed(error)
      case Ok(selection) =>
        if selection.selectedZone.Some? then Unfit
        else if o.distanceMovedMeters > policy.movementLimitMeters then Restless
        else Still
  }

  function Timed(pool: Pool, o: Observation): Pool {
    pool.(stillSince := pool.stillSince[o.deviceId := StillStart(pool, o)])
  }

  predicate LongEnough(pool: Pool, o: Observation, policy: Policy) {
    o.observedAt - StillStart(pool, o) >= ConfiguredSeconds(policy.stillSeconds)
  }

  function RoamStep(dist: Metric, pool: Pool, o: Observation, policy: Policy, regular: ZoneSet): Step {
    match Assess(dist, o, policy, regular)
    case Failed(error) => Step(pool, Err(error))
    case Unfit => Step(pool.(stillSince := pool.stillSince - {o.deviceId}), Ok([]))
    case Restless => Step(pool.(stillSince := pool.stillSince[o.deviceId := o.observedAt]), Ok([]))
    case Still =>
      if LongEnough(pool, o, policy) then SettleStep(dist, Timed(pool, o), o, policy)
      else Step(Timed(pool, o), Ok([]))
  }

  function ObserveStep(dist: Metric, pool: Pool, o: Observation, policy: Policy, regular: ZoneSet): Step {
    if !ValidInput(policy, o.distanceMovedMeters) then
      Step(pool, Err(InvalidInput("stationary-zone distances must be valid")))
    else if o.deviceId in pool.deviceZones then LeaveStep(dist, pool, o, pool.deviceZones[o.deviceId])
    else RoamStep(dist, pool, o, policy, regular)
  }

  function MoveStep(pool: Pool, deviceId: string, location: Coordinates): Step {
    if deviceId !in pool.deviceZones then Step(pool, Err(InvalidInput("device has no stationary zone")))
    else
      match Position(pool.zones, HasId(pool.deviceZones[deviceId]))
      case None => Step(pool, Err(InvalidInput("stationary zone is missing")))
      case Some(i) =>
        Step(pool.(zones := pool.zones[i := pool.zones[i].(center := location)]),
             Ok([StationaryZoneMoved(pool.zones[i].id, deviceId)]))
  }

  /** The first `k` zones are in use or were removed too recently. */
  ghost predicate NoneReusable(zones: seq<StationaryZone>, k: nat, now: Instant, policy: Policy)
    requires k <= |zones|
  {
    forall i | 0 <= i < k :: zones[i].active || !CooledDown(zones[i], now, policy)
  }

  /** The manager itself, updated in place by each operation. */
  class StationaryZoneManager {
    var zones: seq<StationaryZone>
    var deviceZones: map<string, string>
    var stillSince: map<string, Instant>
    var nextId: nat

    ghost function Contents(): Pool
      reads this
    {
      Pool(zones, deviceZones, stillSince, nextId)
    }

    constructor ()
      ensures Contents() == EMPTY
    {
      zones, deviceZones, stillSince, nextId := [], map[], map[], 0;
    }

    method Observe(dist: Metric, o: Observation, policy: Policy, regular: ZoneSet)
      returns (r: Result<seq<TrackingEvent>, TrackingError>)
      modifies this
      ensures Step(Contents(), r) == ObserveStep(dist, old(Contents()), o, policy, regular)
    {
      var d := o.deviceId;
      if !ValidInput(policy, o.distanceMovedMeters) {
        return Err(InvalidInput("stationary-zone distances must be valid"));
      }
      if d in deviceZones {
        r := ObserveExisting(dist, o, deviceZones[d]);
        return;
      }
      if !policy.enabled || !o.locationIsGood || o.monitoredOnly {
        stillSince := stillSince - {d};
        return Ok([]);
      }
      var selection := SelectZone(dist, regular, o.location, 0.0);
      if selection.Err? {
        return Err(selection.error);
      }
      if selection.value.selectedZone.Some? {
        stillSince := stillSince - {d};
        return Ok([]);
      }
      if o.distanceMovedMeters > policy.movementLimitMeters {
        stillSince := stillSince[d := o.observedAt];
        return Ok([]);
      }
      if d !in stillSince {
        stillSince := stillSince[d := o.observedAt];
      } else {
        assert stillSince[d := stillSince[d]] == stillSince;
      }
      if o.observedAt - stillSince[d] < ConfiguredSeconds(policy.stillSeconds) {
        return Ok([]);
      }
      r := Settle(dist, o, policy);
    }

    /** Joins, reuses or creates a zone: the second half of an observation. */
    method Settle(dist: Metric, o: Observation, policy: Policy)
      returns (r: Result<seq<TrackingEvent>, TrackingError>)
      modifies this
      ensures Step(Contents(), r) == SettleStep(dist, old(Contents()), o, policy)
    {
      var d := o.deviceId;
      var joinable := Position(zones, IsJoinable(dist, o.location));
      var index: nat;
      if joinable.Some? {
        index := joinable.value;
      } else {
        var reusable := ReusableZone(o.observedAt, policy);
        PositionUnique(zones, IsReusable(o.observedAt, policy), reusable);
        if reusable.Some? {
          index := reusable.value;
          zones := zones[index := zones[index].(
            center := o.location, radiusMeters := policy.radiusMeters, active := true, lastRemovedAt := None)];
        } else {
          nextId := Min(nextId + 1, U64_MAX);
          index := |zones|;
          zones := zones + [StationaryZone(ZoneId(nextId), o.location, policy.radiusMeters, true, {}, None)];
        }
      }
      var zone := zones[index];
      var createdOrReused := zone.occupants == {};
      zones := zones[index := zone.(occupants := zone.occupants + {d})];
      deviceZones := deviceZones[d := zone.id];
      stillSince := stillSince - {d};
      var events := [ZoneEntered(d, zone.id)];
      if createdOrReused {
        events := [StationaryZoneCreated(zone.id, d)] + events;
        assert events == [StationaryZoneCreated(zone.id, d), ZoneEntered(d, zone.id)];
      }
      r := Ok(events);
    }

    method ObserveExisting(dist: Metric, o: Observation, zoneId: string)
      returns (r: Result<seq<TrackingEvent>, TrackingError>)
      modifies this
      ensures Step(Contents(), r) == LeaveStep(dist, old(Contents()), o, zoneId)
    {
      var found := Position(zones, HasId(zoneId));
      if found.None? {
        return Err(InvalidInput("stationary zone is missing"));
      }
      var i := found.value;
      if Near(dist, zones[i], o.location) {
        return Ok([]);
      }
      var zone := zones[i].(occupants := zones[i].occupants - {o.deviceId});
      deviceZones := deviceZones - {o.deviceId};
      stillSince := stillSince[o.deviceId := o.observedAt];
      var events := [ZoneExited(o.deviceId, zone.id)];
      if zone.occupants == {} {
        zone := zone.(active := false, lastRemovedAt := Some(o.observedAt));
        events := events + [StationaryZoneRemoved(zone.id)];
        assert events == [ZoneExited(o.deviceId, zone.id), StationaryZoneRemoved(zone.id)];
      }
      zones := zones[i := zone];
      r := Ok(events);
    }

    method MoveToDevice(deviceId: string, location: Coordinates)
      returns (r: Result<seq<TrackingEvent>, TrackingError>)
      modifies this
      ensures Step(Contents(), r) == MoveStep(old(Contents()), deviceId, location)
    {
      if deviceId !in deviceZones {
        return Err(InvalidInput("device has no stationary zone"));
      }
      var found := Position(zones, HasId(deviceZones[deviceId]));
      if found.None? {
        return Err(InvalidInput("stationary zone is missing"));
      }
      var i := found.value;
      zones := zones[i := zones[i].(center := location)];
      r := Ok([StationaryZoneMoved(zones[i].id, deviceId)]);
    }

    /** The first inactive zone that has cooled down. */
    method ReusableZone(now: Instant, policy: Policy) returns (index: Option<nat>)
      ensures
        index.Some? ==>
          && index.value < |zones| && !zones[index.value].active && CooledDown(zones[index.value], now, policy)
          && NoneReusable(zones, index.value, now, policy)
      ensures index.None? ==> NoneReusable(zones, |zones|, now, policy)
    {
      index := Position(zones, IsReusable(now, policy));
    }
  }
}
