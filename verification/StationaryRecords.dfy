// How many stationary-zone records a run can create.
module StationaryRecords {
  import opened Core
  import opened Zones
  import opened Stationary
  import opened StationaryRuns

  /** Devices observed in the first `m` operations. */
  function Seen(run: seq<Operation>, m: nat): set<string>
    requires m <= |run|
  {
    if m == 0 then {}
    else Seen(run, m - 1) + (if run[m - 1].Observed? then {run[m - 1].o.deviceId} else {})
  }

  ghost predicate NoCooldown(run: seq<Operation>) {
    forall k | 0 <= k < |run| && run[k].Observed? :: run[k].policy.reuseCooldownSeconds == 0
  }

  ghost predicate InTimeOrder(run: seq<Operation>) {
    forall j, k | 0 <= j < k < |run| && run[j].Observed? && run[k].Observed? ::
      run[j].o.observedAt <= run[k].o.observedAt
  }

  /** Nothing was removed later than every observation still to come. */
  ghost predicate RemovedBefore(zones: seq<StationaryZone>, run: seq<Operation>, m: nat)
    requires m <= |run|
  {
    forall i, k | 0 <= i < |zones| && zones[i].lastRemovedAt.Some? && m <= k < |run| && run[k].Observed? ::
      zones[i].lastRemovedAt.value <= run[k].o.observedAt
  }

  /** No record can host the device: the active ones are too far, the others too fresh. */
  ghost predicate NoHost(dist: Metric, zones: seq<StationaryZone>, o: Observation, policy: Policy) {
    forall i | 0 <= i < |zones| ::
      if zones[i].active then !Near(dist, zones[i], o.location)
      else zones[i].lastRemovedAt.Some? ==>
             o.observedAt - zones[i].lastRemovedAt.value < ConfiguredSeconds(policy.reuseCooldownSeconds)
  }

  lemma HostPushesExactly(dist: Metric, pool: Pool, o: Observation, policy: Policy)
    ensures |Host(dist, pool, o, policy).0.zones| > |pool.zones| <==> NoHost(dist, pool.zones, o, policy)
  {
    var joinable, reusable := IsJoinable(dist, o.location), IsReusable(o.observedAt, policy);
    if |Host(dist, pool, o, policy).0.zones| > |pool.zones| {
      forall i | 0 <= i < |pool.zones| ensures !joinable(pool.zones[i]) && !reusable(pool.zones[i]) {
      }
    }
  }

  /** A new record is pushed exactly when a device settles and every record is an active zone
      out of reach, or was removed less than the cooldown ago. */
  lemma PushedOnlyWhenNeeded(dist: Metric, pool: Pool, o: Observation, policy: Policy, regular: ZoneSet)
    ensures
      |ObserveStep(dist, pool, o, policy, regular).pool.zones| > |pool.zones|
      <==>
      && ValidInput(policy, o.distanceMovedMeters) && o.deviceId !in pool.deviceZones
      && Assess(dist, o, policy, regular).Still? && LongEnough(pool, o, policy)
      && NoHost(dist, pool.zones, o, policy)
  {
    HostPushesExactly(dist, Timed(pool, o), o, policy);
  }

  /** Every housed device counted in `s` lives in one of the first `k` zones. */
  ghost predicate LiveBelow(zones: seq<StationaryZone>, deviceZones: map<string, string>, s: set<string>, k: nat)
    requires k <= |zones|
  {
    forall d | d in s :: d in deviceZones && exists i :: 0 <= i < k && zones[i].id == deviceZones[d]
  }

  lemma NewcomerUncounted(zones: seq<StationaryZone>, deviceZones: map<string, string>, s: set<string>, k: nat,
                          d: string)
    requires k < |zones| && ZonesInOrder(zones) && LiveBelow(zones, deviceZones, s, k)
    requires d in deviceZones && deviceZones[d] == zones[k].id
    ensures d !in s && LiveBelow(zones, deviceZones, s + {d}, k + 1)
  {
    if d in s {
      var i :| 0 <= i < k && zones[i].id == deviceZones[d];
      IdsUnique(zones, i, k);
    }
    forall e | e in s ensures exists i :: 0 <= i < k + 1 && zones[i].id == deviceZones[e] {
      var i :| 0 <= i < k && zones[i].id == deviceZones[e];
    }
  }

  lemma {:induction false} Representatives(zones: seq<StationaryZone>, deviceZones: map<string, string>, k: nat)
    returns (s: set<string>)
    requires k <= |zones| && ZonesInOrder(zones) && Linked(zones, deviceZones)
    requires forall i | 0 <= i < |zones| :: zones[i].active
    ensures |s| == k && LiveBelow(zones, deviceZones, s, k)
  {
    s := {};
    if k > 0 {
      s := Representatives(zones, deviceZones, k - 1);
      assert ZoneInOrder(zones[k - 1], k - 1);
      var d :| d in zones[k - 1].occupants;
      NewcomerUncounted(zones, deviceZones, s, k - 1, d);
      s := s + {d};
    }
  }

  lemma SubsetSize<T>(a: set<T>, b: set<T>)
    requires a <= b
    ensures |a| <= |b|
  {
    assert b == a + (b - a);
  }

  /** When every zone is occupied there are no more zones than housed devices. */
  lemma OccupiedZonesCount(pool: Pool)
    requires Consistent(pool) && forall i | 0 <= i < |pool.zones| :: pool.zones[i].active
    ensures |pool.zones| <= |pool.deviceZones.Keys|
  {
    var s := Representatives(pool.zones, pool.deviceZones, |pool.zones|);
    SubsetSize(s, pool.deviceZones.Keys);
  }

  lemma HousesOnlyObserved(dist: Metric, pool: Pool, op: Operation)
    ensures Apply(dist, pool, op).pool.deviceZones.Keys
            <= pool.deviceZones.Keys + (if op.Observed? then {op.o.deviceId} else {})
  {
  }

  lemma {:induction false} HousedWereSeen(dist: Metric, run: seq<Operation>, m: nat)
    requires m <= |run|
    ensures After(dist, run, m).deviceZones.Keys <= Seen(run, m)
  {
    if m > 0 {
      var n := m - 1;
      HousedWereSeen(dist, run, n);
      HousesOnlyObserved(dist, After(dist, run, n), run[n]);
    }
  }

  /** A removal date changes only to the time of the observation that caused it. */
  ghost predicate RemovalsDated(before: seq<StationaryZone>, after: seq<StationaryZone>, op: Operation) {
    forall i | 0 <= i < |after| && after[i].lastRemovedAt.Some? ::
      (i < |before| && after[i].lastRemovedAt == before[i].lastRemovedAt)
      || (op.Observed? && after[i].lastRemovedAt.value == op.o.observedAt)
  }

  lemma SettleDates(dist: Metric, pool: Pool, o: Observation, policy: Policy, op: Operation)
    ensures RemovalsDated(pool.zones, SettleStep(dist, pool, o, policy).pool.zones, op)
  {
  }

  lemma LeaveDates(dist: Metric, pool: Pool, o: Observation, zoneId: string, op: Operation)
    requires op.Observed? && op.o == o
    ensures RemovalsDated(pool.zones, LeaveStep(dist, pool, o, zoneId).pool.zones, op)
  {
  }

  lemma RoamDates(dist: Metric, pool: Pool, o: Observation, policy: Policy, regular: ZoneSet, op: Operation)
    ensures RemovalsDated(pool.zones, RoamStep(dist, pool, o, policy, regular).pool.zones, op)
  {
    if Assess(dist, o, policy, regular).Still? {
      SettleDates(dist, Timed(pool, o), o, policy, op);
    }
  }

  lemma ApplyDates(dist: Metric, pool: Pool, op: Operation)
    ensures RemovalsDated(pool.zones, Apply(dist, pool, op).pool.zones, op)
  {
    match op
    case Moved(deviceId, location) =>
    case Observed(o, policy, regular) =>
      if o.deviceId in pool.deviceZones {
        LeaveDates(dist, pool, o, pool.deviceZones[o.deviceId], op);
      } else {
        RoamDates(dist, pool, o, policy, regular, op);
      }
  }

  lemma DatedRemovalsPrecede(before: seq<StationaryZone>, after: seq<StationaryZone>, run: seq<Operation>, m: nat)
    requires m < |run| && InTimeOrder(run) && RemovedBefore(before, run, m) && RemovalsDated(before, after, run[m])
    ensures RemovedBefore(after, run, m + 1)
  {
  }

  /** With no cooldown, a zone that cannot host is an active one. */
  lemma AllActive(dist: Metric, pool: Pool, run: seq<Operation>, m: nat)
    requires m < |run| && run[m].Observed? && NoCooldown(run) && RemovedBefore(pool.zones, run, m)
    requires Consistent(pool) && NoHost(dist, pool.zones, run[m].o, run[m].policy)
    ensures forall i | 0 <= i < |pool.zones| :: pool.zones[i].active
  {
    forall i | 0 <= i < |pool.zones| ensures pool.zones[i].active {
      assert ZoneInOrder(pool.zones[i], i);
    }
  }

  lemma SeenGrows(run: seq<Operation>, m: nat)
    requires m < |run|
    ensures |Seen(run, m)| <= |Seen(run, m + 1)|
  {
    SubsetSize(Seen(run, m), Seen(run, m + 1));
  }

  /** When every zone is occupied and one more device is seen, one more record is paid for. */
  lemma RoomForOneMore(pool: Pool, d: string, seen: set<string>)
    requires Consistent(pool) && forall i | 0 <= i < |pool.zones| :: pool.zones[i].active
    requires d !in pool.deviceZones && d in seen && pool.deviceZones.Keys <= seen
    ensures |pool.zones| + 1 <= |seen|
  {
    OccupiedZonesCount(pool);
    SubsetSize(pool.deviceZones.Keys + {d}, seen);
  }

  /** A push means that no zone could host an outsider. */
  lemma PushMeansOutsider(dist: Metric, pool: Pool, op: Operation)
    requires |Apply(dist, pool, op).pool.zones| > |pool.zones|
    ensures op.Observed? && op.o.deviceId !in pool.deviceZones && NoHost(dist, pool.zones, op.o, op.policy)
  {
    if op.Observed? {
      PushedOnlyWhenNeeded(dist, pool, op.o, op.policy, op.regular);
    }
  }

  /** One operation adds a record only for a device that makes the count of devices suffice. */
  lemma PushPaidFor(dist: Metric, pool: Pool, run: seq<Operation>, m: nat)
    requires m < |run| && pool.nextId < U64_MAX && NoCooldown(run) && InTimeOrder(run)
    requires Consistent(pool) && RemovedBefore(pool.zones, run, m)
    requires pool.deviceZones.Keys <= Seen(run, m) && |pool.zones| <= |Seen(run, m)|
    ensures |Apply(dist, pool, run[m]).pool.zones| <= |Seen(run, m + 1)|
  {
    SeenGrows(run, m);
    ApplyConsistent(dist, pool, run[m]);
    if |Apply(dist, pool, run[m]).pool.zones| > |pool.zones| {
      PushMeansOutsider(dist, pool, run[m]);
      AllActive(dist, pool, run, m);
      RoomForOneMore(pool, run[m].o.deviceId, Seen(run, m + 1));
    }
  }

  lemma {:induction false} RemovalsPrecede(dist: Metric, run: seq<Operation>, m: nat)
    requires m <= |run| && m <= U64_MAX && InTimeOrder(run)
    ensures RemovedBefore(After(dist, run, m).zones, run, m)
  {
    if m > 0 {
      var n := m - 1;
      RemovalsPrecede(dist, run, n);
      ApplyDates(dist, After(dist, run, n), run[n]);
      DatedRemovalsPrecede(After(dist, run, n).zones, After(dist, run, m).zones, run, n);
    }
  }

  /** With no reuse cooldown and observations in time order, there are never more zone
      records than devices observed so far. */
  lemma {:induction false} RecordsBoundedByDevices(dist: Metric, run: seq<Operation>, m: nat)
    requires m <= |run| && m <= U64_MAX && NoCooldown(run) && InTimeOrder(run)
    ensures |After(dist, run, m).zones| <= |Seen(run, m)|
  {
    if m > 0 {
      var n := m - 1;
      RecordsBoundedByDevices(dist, run, n);
      RemovalsPrecede(dist, run, n);
      ReachableConsistent(dist, run, n);
      HousedWereSeen(dist, run, n);
      PushPaidFor(dist, After(dist, run, n), run, n);
    }
  }
}
