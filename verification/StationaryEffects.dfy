// What one operation does in any reachable state of the stationary-zone manager, in terms of
// distances and times: when a device leaves its zone, how it is seen outside one, where it
// settles, and what an explicit move changes.
module StationaryEffects {
  import opened Core
  import opened Zones
  import opened Stationary
  import opened StationaryRuns

  // ---- leaving ----

  /** A step in which zone `i` is left: the device goes, its timer starts, and the zone closes if
      no other device is left. */
  ghost predicate Leaving(before: Pool, step: Step, o: Observation, i: nat)
    requires i < |before.zones|
  {
    var zone := before.zones[i];
    var others := zone.occupants - {o.deviceId};
    && step.pool.deviceZones == before.deviceZones - {o.deviceId}
    && step.pool.stillSince == before.stillSince[o.deviceId := o.observedAt]
    && step.pool.nextId == before.nextId
    && step.pool.zones
       == before.zones[i := StationaryZone(zone.id, zone.center, zone.radiusMeters, others != {}, others,
                                           if others == {} then Some(o.observedAt) else None)]
    && step.result == Ok(if others == {} then [ZoneExited(o.deviceId, zone.id), StationaryZoneRemoved(zone.id)]
                         else [ZoneExited(o.deviceId, zone.id)])
  }

  lemma LeaveEffect(dist: Metric, pool: Pool, o: Observation, i: nat)
    requires Consistent(pool) && i < |pool.zones| && o.deviceId in pool.zones[i].occupants
    ensures o.deviceId in pool.deviceZones && pool.deviceZones[o.deviceId] == pool.zones[i].id
    ensures
      var zone := pool.zones[i];
      var step := LeaveStep(dist, pool, o, zone.id);
      if dist(zone.center, o.location) > 1.5 * zone.radiusMeters then Leaving(pool, step, o, i)
      else step == Step(pool, Ok([]))
  {
    var h := Home(pool.zones, pool.deviceZones, o.deviceId);
    IdsUnique(pool.zones, h, i);
    assert ZoneInOrder(pool.zones[i], i);
  }

  /** An accepted observation of a housed device ends its stay exactly when it is more than one
      and a half radii from the center of its zone; otherwise nothing changes. */
  lemma LeavesExactly(dist: Metric, run: seq<Operation>, k: nat, i: nat)
    requires k < |run| && k <= U64_MAX && run[k].Observed?
    requires Apply(dist, After(dist, run, k), run[k]).result.Ok?
    requires i < |After(dist, run, k).zones| && run[k].o.deviceId in After(dist, run, k).zones[i].occupants
    ensures
      var before := After(dist, run, k);
      var zone := before.zones[i];
      var step := Apply(dist, before, run[k]);
      if dist(zone.center, run[k].o.location) > 1.5 * zone.radiusMeters then Leaving(before, step, run[k].o, i)
      else step == Step(before, Ok([]))
  {
    ReachableConsistent(dist, run, k);
    LeaveEffect(dist, After(dist, run, k), run[k].o, i);
  }

  // ---- being seen outside every stationary zone ----

  /** The observation counts: tracking is on, the fix is good, and the device is not merely
      monitored. */
  predicate Counts(o: Observation, policy: Policy) {
    policy.enabled && o.locationIsGood && !o.monitoredOnly
  }

  /** The location is inside an active configured zone. */
  ghost predicate InRegularZone(dist: Metric, regular: ZoneSet, location: Coordinates) {
    exists zone ::
      && zone in regular.zones && !zone.passive
      && dist(location, Coordinates(zone.latitude, zone.longitude)) <= zone.radiusMeters
  }

  /** Some active configured zone has a center off the map. */
  ghost predicate OffTheMap(regular: ZoneSet) {
    exists zone ::
      zone in regular.zones && !zone.passive && !OnTheMap(zone)
  }

  /** How a device outside every stationary zone is seen. */
  lemma AssessedExactly(dist: Metric, o: Observation, policy: Policy, regular: ZoneSet)
    ensures
      var seen := Assess(dist, o, policy, regular);
      && (seen.Failed? <==> Counts(o, policy) && OffTheMap(regular))
      && (seen.Unfit? <==> !Counts(o, policy) || (!OffTheMap(regular) && InRegularZone(dist, regular, o.location)))
      && (seen.Still? <==>
            && Counts(o, policy) && !OffTheMap(regular) && !InRegularZone(dist, regular, o.location)
            && o.distanceMovedMeters <= policy.movementLimitMeters)
  {
    if Counts(o, policy) && CentersKnown(regular) {
      ChosenExactly(dist, regular, o.location, 0.0);
    }
  }

  // ---- settling ----

  predicate Within(dist: Metric, zone: StationaryZone, location: Coordinates) {
    zone.active && dist(zone.center, location) <= 1.5 * zone.radiusMeters
  }

  predicate Reusable(zone: StationaryZone, now: Instant, cooldownSeconds: nat) {
    && !zone.active && zone.lastRemovedAt.Some?
    && now - zone.lastRemovedAt.value >= Seconds(Min(cooldownSeconds, I64_MAX))
  }

  /** The zone a device settles in: the first active one in reach, which only gains the device;
      failing that the first one removed long enough ago, put around the device anew; failing
      that a new one. */
  ghost predicate SettledIn(dist: Metric, before: seq<StationaryZone>, after: seq<StationaryZone>, o: Observation,
                            policy: Policy, i: nat)
    requires i < |after|
  {
    var anew := (id: string) => StationaryZone(id, o.location, policy.radiusMeters, true, {o.deviceId}, None);
    if exists j :: 0 <= j < |before| && Within(dist, before[j], o.location) then
      && i < |before| && Within(dist, before[i], o.location)
      && (forall j | 0 <= j < i :: !Within(dist, before[j], o.location))
      && after == before[i := before[i].(occupants := before[i].occupants + {o.deviceId})]
    else if exists j :: 0 <= j < |before| && Reusable(before[j], o.observedAt, policy.reuseCooldownSeconds) then
      && i < |before| && Reusable(before[i], o.observedAt, policy.reuseCooldownSeconds)
      && (forall j | 0 <= j < i :: !Reusable(before[j], o.observedAt, policy.reuseCooldownSeconds))
      && after == before[i := anew(before[i].id)]
    else
      i == |before| && after == before + [anew(ZoneId(i + 1))]
  }

  /** The zone found is opened for the device unless it is in use already. */
  lemma OpenedForIt(dist: Metric, pool: Pool, o: Observation, policy: Policy)
    requires Consistent(pool)
    ensures
      var (hosted, i) := Host(dist, Timed(pool, o), o, policy);
      && i <= |pool.zones| && (i < |pool.zones| && pool.zones[i].active ==> hosted.zones == pool.zones)
      && hosted.deviceZones == pool.deviceZones && hosted.stillSince == Timed(pool, o).stillSince
      && (hosted.zones[i].occupants == {} <==> i == |pool.zones| || !pool.zones[i].active)
  {
    var (hosted, i) := Host(dist, Timed(pool, o), o, policy);
    if i < |pool.zones| {
      assert ZoneInOrder(pool.zones[i], i);
    }
  }

  /** What the two searches for a zone look for. */
  lemma SearchesFor(dist: Metric, zones: seq<StationaryZone>, o: Observation, policy: Policy)
    ensures
      var joinable := Position(zones, IsJoinable(dist, o.location));
      && (joinable.None? ==> forall j | 0 <= j < |zones| :: !Within(dist, zones[j], o.location))
      && (joinable.Some? ==>
            && Within(dist, zones[joinable.value], o.location)
            && forall j | 0 <= j < joinable.value :: !Within(dist, zones[j], o.location))
    ensures
      var (reusable, cooldown) := (Position(zones, IsReusable(o.observedAt, policy)), policy.reuseCooldownSeconds);
      && (reusable.None? ==> forall j | 0 <= j < |zones| :: !Reusable(zones[j], o.observedAt, cooldown))
      && (reusable.Some? ==>
            && Reusable(zones[reusable.value], o.observedAt, cooldown)
            && forall j | 0 <= j < reusable.value :: !Reusable(zones[j], o.observedAt, cooldown))
  {
    var joinable, reusable := IsJoinable(dist, o.location), IsReusable(o.observedAt, policy);
    forall j | 0 <= j < |zones|
      ensures joinable(zones[j]) <==> Within(dist, zones[j], o.location)
      ensures reusable(zones[j]) <==> Reusable(zones[j], o.observedAt, policy.reuseCooldownSeconds)
    {
    }
  }

  lemma HostJoins(dist: Metric, pool: Pool, o: Observation, policy: Policy, i: nat)
    requires Position(pool.zones, IsJoinable(dist, o.location)) == Some(i)
    ensures SettledIn(dist, pool.zones, SettleStep(dist, Timed(pool, o), o, policy).pool.zones, o, policy, i)
  {
    SearchesFor(dist, pool.zones, o, policy);
  }

  lemma HostReuses(dist: Metric, pool: Pool, o: Observation, policy: Policy, i: nat)
    requires Consistent(pool) && Position(pool.zones, IsJoinable(dist, o.location)) == None
    requires Position(pool.zones, IsReusable(o.observedAt, policy)) == Some(i)
    ensures SettledIn(dist, pool.zones, SettleStep(dist, Timed(pool, o), o, policy).pool.zones, o, policy, i)
  {
    SearchesFor(dist, pool.zones, o, policy);
    assert ZoneInOrder(pool.zones[i], i);
    assert pool.zones[i].occupants == {} && {} + {o.deviceId} == {o.deviceId};
  }

  lemma HostOpens(dist: Metric, pool: Pool, o: Observation, policy: Policy)
    requires pool.nextId == |pool.zones| < U64_MAX && Position(pool.zones, IsJoinable(dist, o.location)) == None
    requires Position(pool.zones, IsReusable(o.observedAt, policy)) == None
    ensures
      SettledIn(dist, pool.zones, SettleStep(dist, Timed(pool, o), o, policy).pool.zones, o, policy, |pool.zones|)
  {
    SearchesFor(dist, pool.zones, o, policy);
    assert {} + {o.deviceId} == {o.deviceId};
    var zone := StationaryZone(ZoneId(|pool.zones| + 1), o.location, policy.radiusMeters, true, {}, None);
    var settled := zone.(occupants := {o.deviceId});
    assert (pool.zones + [zone])[|pool.zones| := settled] == pool.zones + [settled];
  }

  lemma HostIsFirst(dist: Metric, pool: Pool, o: Observation, policy: Policy) returns (i: nat)
    requires Consistent(pool) && |pool.zones| < U64_MAX
    ensures i == Host(dist, Timed(pool, o), o, policy).1
    ensures i < |SettleStep(dist, Timed(pool, o), o, policy).pool.zones|
    ensures SettledIn(dist, pool.zones, SettleStep(dist, Timed(pool, o), o, policy).pool.zones, o, policy, i)
  {
    var joinable := Position(pool.zones, IsJoinable(dist, o.location));
    var reusable := Position(pool.zones, IsReusable(o.observedAt, policy));
    if joinable.Some? {
      i := joinable.value;
      HostJoins(dist, pool, o, policy, i);
    } else if reusable.Some? {
      i := reusable.value;
      HostReuses(dist, pool, o, policy, i);
    } else {
      i := |pool.zones|;
      HostOpens(dist, pool, o, policy);
    }
  }

  /** A step that takes a device into zone `i`: its place is noted, its timer stops, and the events
      say whether the zone was opened for it. */
  ghost predicate Entering(before: Pool, step: Step, d: string, i: nat) {
    && i < |step.pool.zones|
    && step.pool.deviceZones == before.deviceZones[d := step.pool.zones[i].id]
    && step.pool.stillSince == before.stillSince - {d}
    && step.pool.nextId == |step.pool.zones|
    && step.result == Ok(if i < |before.zones| && before.zones[i].active then [ZoneEntered(d, step.pool.zones[i].id)]
                         else [StationaryZoneCreated(step.pool.zones[i].id, d), ZoneEntered(d, step.pool.zones[i].id)])
  }

  lemma SettleEnters(dist: Metric, pool: Pool, o: Observation, policy: Policy)
    requires Consistent(pool) && |pool.zones| < U64_MAX && o.deviceId !in pool.deviceZones
    ensures
      Entering(pool, SettleStep(dist, Timed(pool, o), o, policy), o.deviceId, Host(dist, Timed(pool, o), o, policy).1)
  {
    OpenedForIt(dist, pool, o, policy);
    HostShape(dist, pool, o, policy);
    assert pool.stillSince[o.deviceId := StillStart(pool, o)] - {o.deviceId} == pool.stillSince - {o.deviceId};
  }

  lemma OnlySettlingHouses(dist: Metric, pool: Pool, op: Operation)
    requires op.Observed? && op.o.deviceId !in pool.deviceZones
    requires op.o.deviceId in Apply(dist, pool, op).pool.deviceZones
    ensures Apply(dist, pool, op) == SettleStep(dist, Timed(pool, op.o), op.o, op.policy)
  {
  }

  /** When an observation takes a device into a stationary zone, it is the first in reach, or the
      first that may be reused, or a new one. */
  lemma SettlesExactly(dist: Metric, run: seq<Operation>, k: nat) returns (i: nat)
    requires k < |run| && k < U64_MAX && run[k].Observed?
    requires
      var d := run[k].o.deviceId;
      d !in After(dist, run, k).deviceZones && d in Apply(dist, After(dist, run, k), run[k]).pool.deviceZones
    ensures
      var before := After(dist, run, k);
      var step := Apply(dist, before, run[k]);
      && Entering(before, step, run[k].o.deviceId, i)
      && SettledIn(dist, before.zones, step.pool.zones, run[k].o, run[k].policy, i)
  {
    var before, o, policy := After(dist, run, k), run[k].o, run[k].policy;
    ReachableConsistent(dist, run, k);
    OnlySettlingHouses(dist, before, run[k]);
    i := HostIsFirst(dist, before, o, policy);
    SettleEnters(dist, before, o, policy);
  }

  // ---- moving ----

  /** An explicit move puts the zone of a housed device around the given location, and changes
      nothing else; for any other device it fails. */
  lemma MovesExactly(dist: Metric, run: seq<Operation>, k: nat)
    requires k < |run| && k <= U64_MAX && run[k].Moved?
    ensures
      var before := After(dist, run, k);
      var (d, location) := (run[k].deviceId, run[k].location);
      var step := Apply(dist, before, run[k]);
      && (step.result.Ok? <==> exists i :: 0 <= i < |before.zones| && d in before.zones[i].occupants)
      && (step.result.Err? ==> step.pool == before)
      && forall i | 0 <= i < |before.zones| && d in before.zones[i].occupants ::
           && step.pool == before.(zones := before.zones[i := before.zones[i].(center := location)])
           && step.result == Ok([StationaryZoneMoved(before.zones[i].id, d)])
  {
    var before, d := After(dist, run, k), run[k].deviceId;
    ReachableConsistent(dist, run, k);
    if d in before.deviceZones {
      var h := Home(before.zones, before.deviceZones, d);
      forall i | 0 <= i < |before.zones| && d in before.zones[i].occupants ensures i == h {
        IdsUnique(before.zones, h, i);
      }
    }
  }
}
