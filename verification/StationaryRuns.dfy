// What holds of the stationary-zone manager in every reachable state, whatever
// operations led there.
module StationaryRuns {
  import opened Core
  import opened Zones
  import opened Stationary

  datatype Operation =
    | Observed(o: Observation, policy: Policy, regular: ZoneSet)
    | Moved(deviceId: string, location: Coordinates)

  function Apply(dist: Metric, pool: Pool, op: Operation): Step {
    match op
    case Observed(o, policy, regular) => ObserveStep(dist, pool, o, policy, regular)
    case Moved(deviceId, location) => MoveStep(pool, deviceId, location)
  }

  /** The pool after the first `m` operations of a run. */
  function After(dist: Metric, run: seq<Operation>, m: nat): Pool
    requires m <= |run|
  {
    if m == 0 then EMPTY else Apply(dist, After(dist, run, m - 1), run[m - 1]).pool
  }

  // ---- consistency ----

  /** Zones are numbered in order, active exactly while occupied, and otherwise dated. */
  ghost predicate ZoneInOrder(zone: StationaryZone, i: nat) {
    zone.id == ZoneId(i + 1) && (zone.active <==> zone.occupants != {}) && (zone.active <==> zone.lastRemovedAt.None?)
  }

  ghost predicate ZonesInOrder(zones: seq<StationaryZone>) {
    forall i | 0 <= i < |zones| :: ZoneInOrder(zones[i], i)
  }

  ghost predicate Houses(zones: seq<StationaryZone>, id: string, d: string) {
    exists i :: 0 <= i < |zones| && zones[i].id == id && d in zones[i].occupants
  }

  /** The device index and the occupant lists say the same thing. */
  ghost predicate Linked(zones: seq<StationaryZone>, deviceZones: map<string, string>) {
    && (forall i, d | 0 <= i < |zones| && d in zones[i].occupants :: d in deviceZones && deviceZones[d] == zones[i].id)
    && (forall d | d in deviceZones :: Houses(zones, deviceZones[d], d))
  }

  ghost predicate Consistent(pool: Pool) {
    && pool.nextId == |pool.zones|
    && ZonesInOrder(pool.zones)
    && Linked(pool.zones, pool.deviceZones)
    && pool.deviceZones.Keys !! pool.stillSince.Keys
  }

  lemma IdsUnique(zones: seq<StationaryZone>, i: nat, j: nat)
    requires ZonesInOrder(zones) && i < |zones| && j < |zones| && zones[i].id == zones[j].id
    ensures i == j
  {
    assert ZoneInOrder(zones[i], i) && ZoneInOrder(zones[j], j);
    ZoneIdInjective(i + 1, j + 1);
  }

  /** A housed device's zone is found by its id, and no other zone holds the device. */
  lemma Home(zones: seq<StationaryZone>, deviceZones: map<string, string>, d: string) returns (i: nat)
    requires ZonesInOrder(zones) && Linked(zones, deviceZones) && d in deviceZones
    ensures Position(zones, HasId(deviceZones[d])) == Some(i)
    ensures i < |zones| && d in zones[i].occupants && zones[i].id == deviceZones[d]
  {
    assert Houses(zones, deviceZones[d], d);
    i :| 0 <= i < |zones| && zones[i].id == deviceZones[d] && d in zones[i].occupants;
    assert HasId(deviceZones[d])(zones[i]);
    var found := Position(zones, HasId(deviceZones[d]));
    IdsUnique(zones, i, found.value);
  }

  /** Replacing a zone keeps the houses of everyone who was not moved. */
  lemma HousesUpdated(zones: seq<StationaryZone>, i: nat, zone: StationaryZone, id: string, d: string)
    requires i < |zones| && zone.id == zones[i].id && Houses(zones, id, d)
    requires d in zones[i].occupants ==> d in zone.occupants
    ensures Houses(zones[i := zone], id, d)
  {
    var j :| 0 <= j < |zones| && zones[j].id == id && d in zones[j].occupants;
    assert zones[i := zone][j].id == id && d in zones[i := zone][j].occupants;
  }

  lemma LinkedSameOccupants(zones: seq<StationaryZone>, deviceZones: map<string, string>, i: nat, zone: StationaryZone)
    requires Linked(zones, deviceZones)
    requires i < |zones| && zone.id == zones[i].id && zone.occupants == zones[i].occupants
    ensures Linked(zones[i := zone], deviceZones)
  {
    forall d | d in deviceZones ensures Houses(zones[i := zone], deviceZones[d], d) {
      HousesUpdated(zones, i, zone, deviceZones[d], d);
    }
  }

  lemma LinkedEnter(zones: seq<StationaryZone>, deviceZones: map<string, string>, i: nat, zone: StationaryZone,
                    d: string)
    requires Linked(zones, deviceZones) && d !in deviceZones
    requires i < |zones| && zone.id == zones[i].id && zone.occupants == zones[i].occupants + {d}
    ensures Linked(zones[i := zone], deviceZones[d := zone.id])
  {
    var after := zones[i := zone];
    assert after[i].id == zone.id && d in after[i].occupants;
    assert Houses(after, zone.id, d);
    forall e | e in deviceZones ensures Houses(after, deviceZones[e], e) {
      HousesUpdated(zones, i, zone, deviceZones[e], e);
    }
  }

  lemma LinkedAppend(zones: seq<StationaryZone>, deviceZones: map<string, string>, zone: StationaryZone)
    requires Linked(zones, deviceZones) && zone.occupants == {}
    ensures Linked(zones + [zone], deviceZones)
  {
    forall d | d in deviceZones ensures Houses(zones + [zone], deviceZones[d], d) {
      assert Houses(zones, deviceZones[d], d);
      var i :| 0 <= i < |zones| && zones[i].id == deviceZones[d] && d in zones[i].occupants;
      assert (zones + [zone])[i] == zones[i];
    }
  }

  lemma LinkedLeave(zones: seq<StationaryZone>, deviceZones: map<string, string>, i: nat, zone: StationaryZone,
                    d: string)
    requires ZonesInOrder(zones) && Linked(zones, deviceZones)
    requires i < |zones| && d in zones[i].occupants
    requires zone.id == zones[i].id && zone.occupants == zones[i].occupants - {d}
    ensures Linked(zones[i := zone], deviceZones - {d})
  {
    var after := zones[i := zone];
    forall j, e | 0 <= j < |after| && e in after[j].occupants
      ensures e in deviceZones - {d} && deviceZones[e] == after[j].id
    {
      if e == d && j != i {
        assert zones[j] == after[j] && deviceZones[d] == zones[j].id;
        IdsUnique(zones, i, j);
      }
    }
    forall e | e in deviceZones - {d} ensures Houses(after, deviceZones[e], e) {
      HousesUpdated(zones, i, zone, deviceZones[e], e);
    }
  }

  lemma LeaveConsistent(dist: Metric, pool: Pool, o: Observation)
    requires Consistent(pool) && o.deviceId in pool.deviceZones
    ensures Consistent(LeaveStep(dist, pool, o, pool.deviceZones[o.deviceId]).pool)
    ensures LeaveStep(dist, pool, o, pool.deviceZones[o.deviceId]).result.Ok?
  {
    var d := o.deviceId;
    var i := Home(pool.zones, pool.deviceZones, d);
    if !Near(dist, pool.zones[i], o.location) {
      var after := LeaveStep(dist, pool, o, pool.deviceZones[d]).pool;
      assert ZoneInOrder(pool.zones[i], i);
      LinkedLeave(pool.zones, pool.deviceZones, i, after.zones[i], d);
    }
  }

  /** The zone to settle in keeps its place and occupants; any other zone is untouched. */
  lemma HostShape(dist: Metric, pool: Pool, o: Observation, policy: Policy)
    requires Consistent(pool) && |pool.zones| < U64_MAX
    ensures
      var (hosted, i) := Host(dist, pool, o, policy);
      && Linked(hosted.zones, pool.deviceZones) && i < |hosted.zones|
      && hosted.nextId == |hosted.zones| && |pool.zones| <= |hosted.zones| <= |pool.zones| + 1
      && (forall j | 0 <= j < |hosted.zones| && j != i :: j < |pool.zones| && hosted.zones[j] == pool.zones[j])
      && hosted.zones[i].id == ZoneId(i + 1) && hosted.zones[i].active && hosted.zones[i].lastRemovedAt.None?
  {
    var (hosted, i) := Host(dist, pool, o, policy);
    if |hosted.zones| > |pool.zones| {
      LinkedAppend(pool.zones, pool.deviceZones, hosted.zones[i]);
    } else {
      assert ZoneInOrder(pool.zones[i], i);
      LinkedSameOccupants(pool.zones, pool.deviceZones, i, hosted.zones[i]);
    }
  }

  lemma SettleConsistent(dist: Metric, pool: Pool, o: Observation, policy: Policy)
    requires Consistent(pool) && o.deviceId !in pool.deviceZones && |pool.zones| < U64_MAX
    ensures
      var after := SettleStep(dist, Timed(pool, o), o, policy).pool;
      Consistent(after) && |pool.zones| <= |after.zones| <= |pool.zones| + 1
  {
    var (hosted, i) := Host(dist, Timed(pool, o), o, policy);
    var after := SettleStep(dist, Timed(pool, o), o, policy).pool;
    HostShape(dist, pool, o, policy);
    LinkedEnter(hosted.zones, pool.deviceZones, i, after.zones[i], o.deviceId);
    forall j | 0 <= j < |after.zones| ensures ZoneInOrder(after.zones[j], j) {
      assert j != i ==> ZoneInOrder(pool.zones[j], j);
    }
  }

  lemma MoveConsistent(pool: Pool, deviceId: string, location: Coordinates)
    requires Consistent(pool)
    ensures Consistent(MoveStep(pool, deviceId, location).pool)
    ensures MoveStep(pool, deviceId, location).result.Ok? <==> deviceId in pool.deviceZones
  {
    if deviceId in pool.deviceZones {
      var i := Home(pool.zones, pool.deviceZones, deviceId);
      var after := MoveStep(pool, deviceId, location).pool;
      assert ZoneInOrder(pool.zones[i], i);
      LinkedSameOccupants(pool.zones, pool.deviceZones, i, after.zones[i]);
    }
  }

  lemma RoamConsistent(dist: Metric, pool: Pool, o: Observation, policy: Policy, regular: ZoneSet)
    requires Consistent(pool) && o.deviceId !in pool.deviceZones && |pool.zones| < U64_MAX
    ensures
      var after := RoamStep(dist, pool, o, policy, regular).pool;
      Consistent(after) && |pool.zones| <= |after.zones| <= |pool.zones| + 1
  {
    if Assess(dist, o, policy, regular).Still? {
      SettleConsistent(dist, pool, o, policy);
    }
  }

  lemma ApplyConsistent(dist: Metric, pool: Pool, op: Operation)
    requires Consistent(pool) && |pool.zones| < U64_MAX
    ensures Consistent(Apply(dist, pool, op).pool)
    ensures |pool.zones| <= |Apply(dist, pool, op).pool.zones| <= |pool.zones| + 1
  {
    match op
    case Moved(deviceId, location) =>
      MoveConsistent(pool, deviceId, location);
    case Observed(o, policy, regular) =>
      if o.deviceId in pool.deviceZones {
        LeaveConsistent(dist, pool, o);
      } else {
        RoamConsistent(dist, pool, o, policy, regular);
      }
  }

  lemma ConsistencyKept(dist: Metric, run: seq<Operation>, n: nat)
    requires n < |run| && n < U64_MAX && Consistent(After(dist, run, n)) && |After(dist, run, n).zones| <= n
    ensures Consistent(After(dist, run, n + 1)) && |After(dist, run, n + 1).zones| <= n + 1
  {
    ApplyConsistent(dist, After(dist, run, n), run[n]);
  }

  /** Every reachable pool is consistent, until the id counter could saturate. */
  lemma {:induction false} ReachableConsistent(dist: Metric, run: seq<Operation>, m: nat)
    requires m <= |run| && m <= U64_MAX
    ensures Consistent(After(dist, run, m)) && |After(dist, run, m).zones| <= m
  {
    if m > 0 {
      var n := m - 1;
      ReachableConsistent(dist, run, n);
      ConsistencyKept(dist, run, n);
    }
  }

  /** An observation with valid input fails only if a regular zone's center is invalid;
      the manager never loses the zone of a device it has housed. */
  lemma ZoneNeverMissing(dist: Metric, run: seq<Operation>, m: nat)
    requires m < |run| && m <= U64_MAX
    ensures
      var pool := After(dist, run, m);
      var result := Apply(dist, pool, run[m]).result;
      match run[m]
      case Moved(deviceId, _) => result.Ok? <==> deviceId in pool.deviceZones
      case Observed(o, policy, regular) =>
        result.Err?
        <==> !(policy.movementLimitMeters >= 0.0 && policy.radiusMeters > 0.0 && o.distanceMovedMeters >= 0.0)
             || (o.deviceId !in pool.deviceZones && policy.enabled && o.locationIsGood && !o.monitoredOnly
                 && exists zone :: zone in regular.zones && !zone.passive && !OnTheMap(zone))
  {
    ReachableConsistent(dist, run, m);
    var pool := After(dist, run, m);
    match run[m]
    case Moved(deviceId, location) =>
      MoveConsistent(pool, deviceId, location);
    case Observed(o, policy, regular) =>
      if o.deviceId in pool.deviceZones {
        LeaveConsistent(dist, pool, o);
      }
  }

  // ---- replaying the events ----

  /** What a listener can rebuild: the device index and the set of active zones. */
  datatype View = View(deviceZones: map<string, string>, active: set<string>)

  function Replay(view: View, events: seq<TrackingEvent>): View {
    if events == [] then view
    else
      var before := Replay(view, events[..|events| - 1]);
      match events[|events| - 1]
      case ZoneEntered(d, z) => before.(deviceZones := before.deviceZones[d := z])
      case ZoneExited(d, _) => before.(deviceZones := before.deviceZones - {d})
      case StationaryZoneCreated(z, _) => before.(active := before.active + {z})
      case StationaryZoneRemoved(z) => before.(active := before.active - {z})
      case StationaryZoneMoved(_, _) => before
  }

  lemma {:induction false} ReplayConcat(view: View, a: seq<TrackingEvent>, b: seq<TrackingEvent>)
    ensures Replay(view, a + b) == Replay(Replay(view, a), b)
  {
    if b == [] {
      assert a + b == a;
    } else {
      assert (a + b)[..|a + b| - 1] == a + b[..|b| - 1];
      ReplayConcat(view, a, b[..|b| - 1]);
    }
  }

  lemma ReplayTwo(view: View, first: TrackingEvent, second: TrackingEvent)
    ensures Replay(view, [first]) == Replay(Replay(view, []), [first])
    ensures Replay(view, [first, second]) == Replay(Replay(view, [first]), [second])
  {
    assert [first, second] == [first] + [second];
    ReplayConcat(view, [first], [second]);
  }

  function ActiveIds(zones: seq<StationaryZone>): set<string> {
    set i | 0 <= i < |zones| && zones[i].active :: zones[i].id
  }

  function Observable(pool: Pool): View {
    View(pool.deviceZones, ActiveIds(pool.zones))
  }

  lemma ActiveIdsUpdated(zones: seq<StationaryZone>, i: nat, zone: StationaryZone)
    requires ZonesInOrder(zones) && i < |zones| && zone.id == zones[i].id
    ensures ActiveIds(zones[i := zone])
         == if zone.active then ActiveIds(zones) + {zone.id} else ActiveIds(zones) - {zone.id}
  {
    var after := zones[i := zone];
    forall id
      ensures id in ActiveIds(after) <==> if id == zone.id then zone.active else id in ActiveIds(zones)
    {
      if id == zone.id {
        assert after[i].id == id;
        if id in ActiveIds(after) {
          var j :| 0 <= j < |after| && after[j].active && after[j].id == id;
          IdsUnique(zones, i, j);
        }
      } else {
        forall j | 0 <= j < |zones| && zones[j].id == id ensures after[j] == zones[j] {
        }
        assert forall j | 0 <= j < |after| && after[j].id == id :: after[j] == zones[j];
      }
    }
  }

  lemma ActiveIdsAppended(zones: seq<StationaryZone>, zone: StationaryZone)
    requires zone.active
    ensures ActiveIds(zones + [zone]) == ActiveIds(zones) + {zone.id}
  {
    var after := zones + [zone];
    assert after[|zones|] == zone;
    forall id | id in ActiveIds(zones) ensures id in ActiveIds(after) {
      var j :| 0 <= j < |zones| && zones[j].active && zones[j].id == id;
      assert after[j] == zones[j];
    }
  }

  lemma LeaveReplays(dist: Metric, pool: Pool, o: Observation)
    requires Consistent(pool) && o.deviceId in pool.deviceZones
    ensures
      var step := LeaveStep(dist, pool, o, pool.deviceZones[o.deviceId]);
      step.result.Ok? && Replay(Observable(pool), step.result.value) == Observable(step.pool)
  {
    var d := o.deviceId;
    var i := Home(pool.zones, pool.deviceZones, d);
    var zone := pool.zones[i];
    if !Near(dist, zone, o.location) {
      var after := LeaveStep(dist, pool, o, pool.deviceZones[d]).pool;
      assert ZoneInOrder(zone, i);
      ActiveIdsUpdated(pool.zones, i, after.zones[i]);
      assert zone.id in ActiveIds(pool.zones);
      ReplayTwo(Observable(pool), ZoneExited(d, zone.id), StationaryZoneRemoved(zone.id));
    }
  }

  lemma SettleReplays(dist: Metric, pool: Pool, o: Observation, policy: Policy)
    requires Consistent(pool) && o.deviceId !in pool.deviceZones && |pool.zones| < U64_MAX
    ensures
      var step := SettleStep(dist, Timed(pool, o), o, policy);
      step.result.Ok? && Replay(Observable(pool), step.result.value) == Observable(step.pool)
  {
    var d := o.deviceId;
    var (hosted, i) := Host(dist, Timed(pool, o), o, policy);
    var after := SettleStep(dist, Timed(pool, o), o, policy).pool;
    var id := hosted.zones[i].id;
    ReplayTwo(Observable(pool), StationaryZoneCreated(id, d), ZoneEntered(d, id));
    if |hosted.zones| > |pool.zones| {
      assert after.zones == pool.zones + [after.zones[i]];
      ActiveIdsAppended(pool.zones, after.zones[i]);
    } else {
      assert ZoneInOrder(pool.zones[i], i);
      assert after.zones == pool.zones[i := after.zones[i]];
      ActiveIdsUpdated(pool.zones, i, after.zones[i]);
      assert pool.zones[i].active ==> id in ActiveIds(pool.zones);
    }
  }

  /** Events carried by a step, if it was not refused. */
  function Emitted(step: Step): seq<TrackingEvent> {
    if step.result.Ok? then step.result.value else []
  }

  lemma MoveReplays(pool: Pool, deviceId: string, location: Coordinates)
    requires Consistent(pool)
    ensures
      var step := MoveStep(pool, deviceId, location);
      Replay(Observable(pool), Emitted(step)) == Observable(step.pool)
  {
    if deviceId in pool.deviceZones {
      var i := Home(pool.zones, pool.deviceZones, deviceId);
      var zone := pool.zones[i];
      assert ZoneInOrder(zone, i);
      ActiveIdsUpdated(pool.zones, i, zone.(center := location));
      assert zone.id in ActiveIds(pool.zones);
      ReplayTwo(Observable(pool), StationaryZoneMoved(zone.id, deviceId), StationaryZoneMoved(zone.id, deviceId));
    }
  }

  lemma RoamReplays(dist: Metric, pool: Pool, o: Observation, policy: Policy, regular: ZoneSet)
    requires Consistent(pool) && o.deviceId !in pool.deviceZones && |pool.zones| < U64_MAX
    ensures
      var step := RoamStep(dist, pool, o, policy, regular);
      Replay(Observable(pool), Emitted(step)) == Observable(step.pool)
  {
    if Assess(dist, o, policy, regular).Still? {
      SettleReplays(dist, pool, o, policy);
    }
  }

  lemma ApplyReplays(dist: Metric, pool: Pool, op: Operation)
    requires Consistent(pool) && |pool.zones| < U64_MAX
    ensures Replay(Observable(pool), Emitted(Apply(dist, pool, op))) == Observable(Apply(dist, pool, op).pool)
  {
    match op
    case Moved(deviceId, location) =>
      MoveReplays(pool, deviceId, location);
    case Observed(o, policy, regular) =>
      if o.deviceId in pool.deviceZones {
        LeaveReplays(dist, pool, o);
      } else {
        RoamReplays(dist, pool, o, policy, regular);
      }
  }

  function Events(dist: Metric, run: seq<Operation>, m: nat): seq<TrackingEvent>
    requires m <= |run|
  {
    if m == 0 then []
    else Events(dist, run, m - 1) + Emitted(Apply(dist, After(dist, run, m - 1), run[m - 1]))
  }

  lemma RebuildKept(dist: Metric, run: seq<Operation>, n: nat, view: View)
    requires n < |run| && n < U64_MAX && Replay(view, Events(dist, run, n)) == Observable(After(dist, run, n))
    ensures Replay(view, Events(dist, run, n + 1)) == Observable(After(dist, run, n + 1))
  {
    var before := After(dist, run, n);
    ReachableConsistent(dist, run, n);
    ApplyReplays(dist, before, run[n]);
    ReplayConcat(view, Events(dist, run, n), Emitted(Apply(dist, before, run[n])));
  }

  /** Replaying everything emitted so far rebuilds the device index and the active zones. */
  lemma {:induction false} EventsRebuildState(dist: Metric, run: seq<Operation>, m: nat)
    requires m <= |run| && m <= U64_MAX
    ensures Replay(View(map[], {}), Events(dist, run, m)) == Observable(After(dist, run, m))
  {
    if m > 0 {
      var n := m - 1;
      EventsRebuildState(dist, run, n);
      RebuildKept(dist, run, n, View(map[], {}));
    }
  }

  // ---- separation ----

  function SmallerRadius(a: StationaryZone, b: StationaryZone): real {
    if a.radiusMeters <= b.radiusMeters then a.radiusMeters else b.radiusMeters
  }

  ghost predicate Apart(dist: Metric, a: StationaryZone, b: StationaryZone) {
    dist(a.center, b.center) > 1.5 * SmallerRadius(a, b)
  }

  ghost predicate Separated(dist: Metric, zones: seq<StationaryZone>) {
    forall i, j | 0 <= i < j < |zones| && zones[i].active && zones[j].active :: Apart(dist, zones[i], zones[j])
  }

  lemma SettleSeparated(dist: Metric, pool: Pool, o: Observation, policy: Policy)
    requires IsMetric(dist) && Separated(dist, pool.zones)
    ensures Separated(dist, SettleStep(dist, pool, o, policy).pool.zones)
  {
    var (hosted, i) := Host(dist, pool, o, policy);
    var after := SettleStep(dist, pool, o, policy).pool.zones;
    if Position(pool.zones, IsJoinable(dist, o.location)).None? {
      forall j | 0 <= j < |after| && j != i && after[j].active
        ensures Apart(dist, after[j], after[i]) && Apart(dist, after[i], after[j])
      {
        assert !IsJoinable(dist, o.location)(pool.zones[j]);
        assert dist(after[j].center, after[i].center) == dist(after[i].center, after[j].center);
      }
    }
  }

  lemma ObserveSeparated(dist: Metric, pool: Pool, o: Observation, policy: Policy, regular: ZoneSet)
    requires IsMetric(dist) && Separated(dist, pool.zones)
    ensures Separated(dist, ObserveStep(dist, pool, o, policy, regular).pool.zones)
  {
    if o.deviceId !in pool.deviceZones && Assess(dist, o, policy, regular).Still? {
      SettleSeparated(dist, Timed(pool, o), o, policy);
    }
  }

  /** Without explicit moves, the centers of any two active zones stay more than one and a
      half of the smaller radius apart, through every reuse. */
  lemma {:induction false} ActiveZonesSeparated(dist: Metric, run: seq<Operation>, m: nat)
    requires IsMetric(dist) && m <= |run| && forall k | 0 <= k < m :: run[k].Observed?
    ensures Separated(dist, After(dist, run, m).zones)
  {
    if m > 0 {
      var n := m - 1;
      ActiveZonesSeparated(dist, run, n);
      ObserveSeparated(dist, After(dist, run, n), run[n].o, run[n].policy, run[n].regular);
    }
  }

  lemma RecenteredSeparatedExactly(dist: Metric, zones: seq<StationaryZone>, i: nat, location: Coordinates)
    requires IsMetric(dist) && Separated(dist, zones) && i < |zones| && zones[i].active
    ensures
      Separated(dist, zones[i := zones[i].(center := location)])
      <==> forall j | 0 <= j < |zones| && j != i && zones[j].active ::
             dist(location, zones[j].center) > 1.5 * SmallerRadius(zones[i], zones[j])
  {
    var after := zones[i := zones[i].(center := location)];
    forall j | 0 <= j < |after| && j != i
      ensures Apart(dist, after[j], after[i]) <==> Apart(dist, after[i], after[j])
    {
      assert dist(after[j].center, after[i].center) == dist(after[i].center, after[j].center);
    }
    if Separated(dist, after) {
      forall j | 0 <= j < |zones| && j != i && zones[j].active
        ensures dist(location, zones[j].center) > 1.5 * SmallerRadius(zones[i], zones[j])
      {
        assert Apart(dist, after[i], after[j]);
      }
    }
  }

  /** Moving a zone keeps the separation exactly when the new center is clear of every
      other active zone. */
  lemma MoveSeparatedExactly(dist: Metric, pool: Pool, deviceId: string, location: Coordinates, i: nat)
    requires IsMetric(dist) && Consistent(pool) && Separated(dist, pool.zones)
    requires i < |pool.zones| && deviceId in pool.zones[i].occupants
    ensures
      Separated(dist, MoveStep(pool, deviceId, location).pool.zones)
      <==> forall j | 0 <= j < |pool.zones| && j != i && pool.zones[j].active ::
             dist(location, pool.zones[j].center) > 1.5 * SmallerRadius(pool.zones[i], pool.zones[j])
  {
    var h := Home(pool.zones, pool.deviceZones, deviceId);
    IdsUnique(pool.zones, h, i);
    assert ZoneInOrder(pool.zones[i], i);
    RecenteredSeparatedExactly(dist, pool.zones, i, location);
  }

  function AlongMeridian(): Metric {
    (a: Coordinates, b: Coordinates) =>
      if a.latitude >= b.latitude then a.latitude - b.latitude else b.latitude - a.latitude
  }

  /** A move, if it takes place at all, goes clear of every other active zone. */
  ghost predicate Clear(dist: Metric, pool: Pool, op: Operation) {
    op.Moved? ==>
      forall i, j | 0 <= i < |pool.zones| && 0 <= j < |pool.zones| && j != i && op.deviceId in pool.zones[i].occupants
                    && pool.zones[j].active ::
        dist(op.location, pool.zones[j].center) > 1.5 * SmallerRadius(pool.zones[i], pool.zones[j])
  }

  lemma StepSeparatedExactly(dist: Metric, pool: Pool, op: Operation)
    requires IsMetric(dist) && Consistent(pool) && Separated(dist, pool.zones)
    ensures Separated(dist, Apply(dist, pool, op).pool.zones) <==> Clear(dist, pool, op)
  {
    match op
    case Observed(o, policy, regular) => ObserveSeparated(dist, pool, o, policy, regular);
    case Moved(deviceId, location) =>
      if deviceId in pool.deviceZones {
        var i := Home(pool.zones, pool.deviceZones, deviceId);
        MoveSeparatedExactly(dist, pool, deviceId, location, i);
        forall h | 0 <= h < |pool.zones| && deviceId in pool.zones[h].occupants ensures h == i {
          IdsUnique(pool.zones, h, i);
        }
      }
  }

  ghost predicate SeparatedAt(dist: Metric, run: seq<Operation>, k: nat)
    requires k <= |run|
  {
    Separated(dist, After(dist, run, k).zones)
  }

  ghost predicate ClearAt(dist: Metric, run: seq<Operation>, k: nat)
    requires k < |run|
  {
    Clear(dist, After(dist, run, k), run[k])
  }

  lemma SeparationStep(dist: Metric, run: seq<Operation>, n: nat, m: nat)
    requires IsMetric(dist) && n < |run| && m == n + 1 && n <= U64_MAX && SeparatedAt(dist, run, n)
    ensures SeparatedAt(dist, run, m) <==> ClearAt(dist, run, n)
  {
    ReachableConsistent(dist, run, n);
    StepSeparatedExactly(dist, After(dist, run, n), run[n]);
  }

  lemma StartsSeparated(dist: Metric, run: seq<Operation>)
    ensures SeparatedAt(dist, run, 0)
  {
  }

  /** The active zones are separated all along a run exactly when every move in it is clear. */
  lemma {:induction false} StaysSeparatedExactly(dist: Metric, run: seq<Operation>, m: nat)
    requires IsMetric(dist) && m <= |run| && m <= U64_MAX
    ensures (forall k | 0 <= k <= m :: SeparatedAt(dist, run, k)) <==> (forall k | 0 <= k < m :: ClearAt(dist, run, k))
  {
    if m == 0 {
      StartsSeparated(dist, run);
    } else {
      var n := m - 1;
      StaysSeparatedExactly(dist, run, n);
      if SeparatedAt(dist, run, n) {
        SeparationStep(dist, run, n, m);
      }
    }
  }

  /** With no regular zones and no dwell time, a device far from every zone gets its own. */
  lemma SettlesAtOnce(dist: Metric, pool: Pool, o: Observation, policy: Policy)
    requires ValidInput(policy, o.distanceMovedMeters) && policy.stillSeconds == 0
    requires Considered(o, policy) && o.distanceMovedMeters <= policy.movementLimitMeters
    requires o.deviceId !in pool.deviceZones && o.deviceId !in pool.stillSince && pool.nextId < U64_MAX
    requires forall i | 0 <= i < |pool.zones| :: pool.zones[i].active && !Near(dist, pool.zones[i], o.location)
    ensures
      var after := ObserveStep(dist, pool, o, policy, ZoneSet([])).pool;
      var id := ZoneId(pool.nextId + 1);
      && after.zones == pool.zones + [StationaryZone(id, o.location, policy.radiusMeters, true, {o.deviceId}, None)]
      && after.deviceZones == pool.deviceZones[o.deviceId := id]
      && after.stillSince == pool.stillSince && after.nextId == pool.nextId + 1
  {
    assert Candidates(dist, ZoneSet([]), o.location, 0.0) == [];
    assert Select(dist, ZoneSet([]), o.location, 0.0).value.selectedZone == None;
    assert Assess(dist, o, policy, ZoneSet([])).Still?;
    var zone := StationaryZone(ZoneId(pool.nextId + 1), o.location, policy.radiusMeters, true, {}, None);
    assert Host(dist, Timed(pool, o), o, policy)
        == (Timed(pool, o).(zones := pool.zones + [zone], nextId := pool.nextId + 1), |pool.zones|);
    assert pool.stillSince[o.deviceId := StillStart(pool, o)] - {o.deviceId} == pool.stillSince;
    var settled := zone.(occupants := zone.occupants + {o.deviceId});
    assert zone.occupants + {o.deviceId} == {o.deviceId};
    assert (pool.zones + [zone])[|pool.zones| := settled] == pool.zones + [settled];
  }

  /** Moves can bring two active zones together: the separation is not an invariant of runs
      with explicit moves. */
  lemma MovesCanOverlapZones() returns (run: seq<Operation>)
    ensures IsMetric(AlongMeridian()) && !Separated(AlongMeridian(), After(AlongMeridian(), run, |run|).zones)
  {
    var dist := AlongMeridian();
    var policy := Policy(true, 0, 60.0, 1.0, 0);
    var here, there := Coordinates(0.0, 0.0), Coordinates(80.0, 0.0);
    var a := Observation("a", here, 0, 0.0, true, false);
    var b := Observation("b", there, 0, 0.0, true, false);
    run := [Observed(a, policy, ZoneSet([])), Observed(b, policy, ZoneSet([])), Moved("b", here)];
    SettlesAtOnce(dist, EMPTY, a, policy);
    var one := After(dist, run, 1);
    assert one == ObserveStep(dist, After(dist, run, 0), a, policy, ZoneSet([])).pool;
    SettlesAtOnce(dist, one, b, policy);
    var two := After(dist, run, 2);
    assert two == ObserveStep(dist, one, b, policy, ZoneSet([])).pool;
    ReachableConsistent(dist, run, 2);
    var i := Home(two.zones, two.deviceZones, "b");
    assert After(dist, run, 3) == MoveStep(two, "b", here).pool;
    assert !Apart(dist, After(dist, run, 3).zones[0], After(dist, run, 3).zones[1]);
  }
}
