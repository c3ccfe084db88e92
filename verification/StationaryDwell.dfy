// How long a device must have stayed put before it enters a stationary zone, in terms of
// everything that was ever observed of it.
module StationaryDwell {
  import opened Core
  import opened Zones
  import opened Stationary
  import opened StationaryEffects
  import opened StationaryRuns

  // ---- one device's history ----

  /** An operation as one device sees it: an observation of the device that the manager did
      not refuse, or something else. */
  datatype Sighting =
    | Elsewhere
    | Seen(at: Instant, assessment: Assessment, dwell: nat, away: bool)

  datatype Moment = Moment(housed: bool, timer: Option<Instant>)

  /** Moment `k` is before sighting `k`. */
  datatype History = History(sightings: seq<Sighting>, moments: seq<Moment>)

  /** How a sighting moves the device's timer and housing. */
  ghost predicate Law(before: Moment, sighting: Sighting, after: Moment) {
    match sighting
    case Elsewhere => after == before
    case Seen(at, assessment, dwell, away) =>
      if before.housed then
        before.timer == None && after == if away then Moment(false, Some(at)) else before
      else
        match assessment
        case Failed(_) => false
        case Unfit => after == Moment(false, None)
        case Restless => after == Moment(false, Some(at))
        case Still =>
          var since := before.timer.GetOr(at);
          after == if at - since >= dwell then Moment(true, None) else Moment(false, Some(since))
  }

  ghost predicate Lawful(h: History) {
    && |h.moments| == |h.sightings| + 1
    && h.moments[0] == Moment(false, None)
    && forall k | 0 <= k < |h.sightings| :: Law(h.moments[k], h.sightings[k], h.moments[k + 1])
  }

  /** The latest sighting before `k`, if there is one, was unfit to count: a poor fix, a
      monitored device, tracking switched off, or inside a regular zone. */
  ghost predicate FreshStart(h: History, k: nat)
    requires Lawful(h) && k <= |h.sightings|
  {
    forall p | 0 <= p < k && h.sightings[p].Seen? && (forall q | p < q < k :: h.sightings[q].Elsewhere?) ::
      !h.moments[p].housed && h.sightings[p].assessment.Unfit?
  }

  /** Stillness is counted from sighting `i`: the device left its stationary zone then, or
      moved too far, or was first seen still after a fresh start. */
  ghost predicate Opens(h: History, i: nat)
    requires Lawful(h) && i < |h.sightings|
  {
    && h.sightings[i].Seen?
    && if h.moments[i].housed then !h.moments[i + 1].housed
       else h.sightings[i].assessment.Restless? || (h.sightings[i].assessment.Still? && FreshStart(h, i))
  }

  /** From `i` up to `m`, every sighting found the device still: a good fix outside all regular
      zones, within the movement limit, and in no stationary zone. */
  ghost predicate StillSince(h: History, i: nat, m: nat)
    requires Lawful(h) && m <= |h.sightings|
  {
    && i < m
    && Opens(h, i)
    && forall j | i < j < m && h.sightings[j].Seen? :: h.sightings[j].assessment.Still? && !h.moments[j].housed
  }

  /** The timer is the time of the sighting since which the device has been still. */
  ghost predicate TimerIsExact(h: History, m: nat)
    requires Lawful(h) && m <= |h.sightings|
  {
    && (h.moments[m].timer.Some? ==>
          && !h.moments[m].housed
          && exists i :: 0 <= i < m && StillSince(h, i, m) && h.sightings[i].at == h.moments[m].timer.value)
    && (!h.moments[m].housed ==>
          forall i | 0 <= i < m && StillSince(h, i, m) :: h.moments[m].timer == Some(h.sightings[i].at))
  }

  /** Outside the stationary zones, no timer runs exactly after a fresh start. */
  lemma {:induction false} NoTimerMeansFreshStart(h: History, m: nat)
    requires Lawful(h) && m <= |h.sightings| && !h.moments[m].housed
    ensures h.moments[m].timer == None <==> FreshStart(h, m)
  {
    if m > 0 {
      var n := m - 1;
      assert Law(h.moments[n], h.sightings[n], h.moments[n + 1]);
      if h.sightings[n].Elsewhere? {
        NoTimerMeansFreshStart(h, n);
        if FreshStart(h, n) {
          forall p | 0 <= p < m && h.sightings[p].Seen? && (forall q | p < q < m :: h.sightings[q].Elsewhere?)
            ensures !h.moments[p].housed && h.sightings[p].assessment.Unfit?
          {
            assert forall q | p < q < n :: h.sightings[q].Elsewhere?;
          }
        }
        if FreshStart(h, m) {
          forall p | 0 <= p < n && h.sightings[p].Seen? && (forall q | p < q < n :: h.sightings[q].Elsewhere?)
            ensures !h.moments[p].housed && h.sightings[p].assessment.Unfit?
          {
            assert forall q | p < q < m :: h.sightings[q].Elsewhere?;
          }
        }
      }
    }
  }

  lemma StillExtends(h: History, i: nat, k: nat, m: nat)
    requires Lawful(h) && k < |h.sightings| && m == k + 1 && i <= k
    requires h.sightings[k].Seen? && !h.moments[k].housed && h.sightings[k].assessment.Still?
    ensures i < k ==> (StillSince(h, i, m) <==> StillSince(h, i, k))
    ensures i == k ==> (StillSince(h, i, m) <==> FreshStart(h, k))
  {
  }

  /** What a still sighting counts from. */
  lemma CountsFrom(h: History, k: nat, m: nat)
    requires Lawful(h) && k < |h.sightings| && m == k + 1 && TimerIsExact(h, k)
    requires h.sightings[k].Seen? && !h.moments[k].housed && h.sightings[k].assessment.Still?
    ensures
      var since := h.moments[k].timer.GetOr(h.sightings[k].at);
      && (exists i :: 0 <= i <= k && StillSince(h, i, m) && h.sightings[i].at == since)
      && (forall i | 0 <= i <= k && StillSince(h, i, m) :: h.sightings[i].at == since)
  {
    NoTimerMeansFreshStart(h, k);
    forall i: nat | i <= k
      ensures StillSince(h, i, m) <==> if i < k then StillSince(h, i, k) else FreshStart(h, k)
    {
      StillExtends(h, i, k, m);
    }
    if h.moments[k].timer.None? {
      assert StillSince(h, k, m);
    }
  }

  lemma ExactAfterElsewhere(h: History, n: nat)
    requires Lawful(h) && n < |h.sightings| && TimerIsExact(h, n) && h.sightings[n].Elsewhere?
    ensures TimerIsExact(h, n + 1)
  {
    assert Law(h.moments[n], h.sightings[n], h.moments[n + 1]);
    forall i | 0 <= i < n ensures StillSince(h, i, n + 1) <==> StillSince(h, i, n) {
    }
    if h.moments[n].timer.Some? {
      var i :| 0 <= i < n && StillSince(h, i, n) && h.sightings[i].at == h.moments[n].timer.value;
      assert StillSince(h, i, n + 1);
    }
  }

  lemma ExactAfterSeen(h: History, n: nat)
    requires Lawful(h) && n < |h.sightings| && TimerIsExact(h, n) && h.sightings[n].Seen?
    ensures TimerIsExact(h, n + 1)
  {
    assert Law(h.moments[n], h.sightings[n], h.moments[n + 1]);
    if !h.moments[n].housed && h.sightings[n].assessment.Still? {
      CountsFrom(h, n, n + 1);
    } else {
      var m := n + 1;
      forall i | 0 <= i < n ensures !StillSince(h, i, m) {
        assert h.sightings[n].Seen?;
      }
      assert Opens(h, n) ==> StillSince(h, n, m);
    }
  }

  lemma {:induction false} TimersAreExact(h: History, m: nat)
    requires Lawful(h) && m <= |h.sightings|
    ensures TimerIsExact(h, m)
  {
    if m > 0 {
      var n := m - 1;
      TimersAreExact(h, n);
      if h.sightings[n].Elsewhere? {
        ExactAfterElsewhere(h, n);
      } else {
        ExactAfterSeen(h, n);
      }
    }
  }

  // ---- the history a run gives a device ----

  predicate Accepted(dist: Metric, run: seq<Operation>, k: nat, d: string)
    requires k < |run|
  {
    run[k].Observed? && run[k].o.deviceId == d && Apply(dist, After(dist, run, k), run[k]).result.Ok?
  }

  /** The device is more than one and a half radii from the center of the zone that houses it. */
  ghost predicate AwayFromHome(dist: Metric, zones: seq<StationaryZone>, d: string, location: Coordinates) {
    exists i ::
      0 <= i < |zones| && d in zones[i].occupants && dist(zones[i].center, location) > 1.5 * zones[i].radiusMeters
  }

  ghost function SightingAt(dist: Metric, run: seq<Operation>, k: nat, d: string): Sighting
    requires k < |run|
  {
    if Accepted(dist, run, k, d) then
      var Observed(o, policy, regular) := run[k];
      Seen(o.observedAt, Assess(dist, o, policy, regular), ConfiguredSeconds(policy.stillSeconds),
           AwayFromHome(dist, After(dist, run, k).zones, d, o.location))
    else Elsewhere
  }

  function MomentOf(pool: Pool, d: string): Moment {
    Moment(d in pool.deviceZones, if d in pool.stillSince then Some(pool.stillSince[d]) else None)
  }

  ghost function HistoryOf(dist: Metric, run: seq<Operation>, d: string): History {
    History(seq(|run|, k requires 0 <= k < |run| => SightingAt(dist, run, k, d)),
            seq(|run| + 1, k requires 0 <= k <= |run| => MomentOf(After(dist, run, k), d)))
  }

  ghost predicate SameFor(before: Pool, after: Pool, d: string) {
    && (d in after.deviceZones <==> d in before.deviceZones)
    && (d in after.stillSince <==> d in before.stillSince)
    && (d in before.stillSince ==> after.stillSince[d] == before.stillSince[d])
  }

  lemma SettleTouchesOne(dist: Metric, pool: Pool, o: Observation, policy: Policy, d: string)
    requires o.deviceId != d
    ensures SameFor(pool, SettleStep(dist, pool, o, policy).pool, d)
  {
  }

  lemma RoamTouchesOne(dist: Metric, pool: Pool, o: Observation, policy: Policy, regular: ZoneSet, d: string)
    requires o.deviceId != d
    ensures SameFor(pool, RoamStep(dist, pool, o, policy, regular).pool, d)
  {
    if Assess(dist, o, policy, regular).Still? {
      SettleTouchesOne(dist, Timed(pool, o), o, policy, d);
    }
  }

  lemma LeaveTouchesOne(dist: Metric, pool: Pool, o: Observation, zoneId: string, d: string)
    requires o.deviceId != d
    ensures SameFor(pool, LeaveStep(dist, pool, o, zoneId).pool, d)
  {
  }

  lemma RefusalChangesNothing(dist: Metric, pool: Pool, o: Observation, policy: Policy, regular: ZoneSet)
    requires ObserveStep(dist, pool, o, policy, regular).result.Err?
    ensures ObserveStep(dist, pool, o, policy, regular).pool == pool
  {
  }

  lemma ObserveTouchesOne(dist: Metric, pool: Pool, o: Observation, policy: Policy, regular: ZoneSet, d: string)
    requires o.deviceId != d
    ensures SameFor(pool, ObserveStep(dist, pool, o, policy, regular).pool, d)
  {
    if o.deviceId in pool.deviceZones {
      LeaveTouchesOne(dist, pool, o, pool.deviceZones[o.deviceId], d);
    } else {
      RoamTouchesOne(dist, pool, o, policy, regular, d);
    }
  }

  lemma RoamLaw(dist: Metric, pool: Pool, o: Observation, policy: Policy, regular: ZoneSet, away: bool)
    requires o.deviceId !in pool.deviceZones && RoamStep(dist, pool, o, policy, regular).result.Ok?
    ensures Law(MomentOf(pool, o.deviceId),
                Seen(o.observedAt, Assess(dist, o, policy, regular), ConfiguredSeconds(policy.stillSeconds), away),
                MomentOf(RoamStep(dist, pool, o, policy, regular).pool, o.deviceId))
  {
  }

  lemma LeaveLaw(dist: Metric, pool: Pool, o: Observation, assessment: Assessment, dwell: nat)
    requires Consistent(pool) && o.deviceId in pool.deviceZones
    ensures Law(MomentOf(pool, o.deviceId),
                Seen(o.observedAt, assessment, dwell, AwayFromHome(dist, pool.zones, o.deviceId, o.location)),
                MomentOf(LeaveStep(dist, pool, o, pool.deviceZones[o.deviceId]).pool, o.deviceId))
  {
    var i := Home(pool.zones, pool.deviceZones, o.deviceId);
    LeaveEffect(dist, pool, o, i);
    forall j | 0 <= j < |pool.zones| && o.deviceId in pool.zones[j].occupants ensures j == i {
      IdsUnique(pool.zones, i, j);
    }
  }

  lemma RunFollowsLaw(dist: Metric, run: seq<Operation>, k: nat, d: string)
    requires k < |run| && k <= U64_MAX
    ensures Law(MomentOf(After(dist, run, k), d), SightingAt(dist, run, k, d), MomentOf(After(dist, run, k + 1), d))
  {
    var pool := After(dist, run, k);
    ReachableConsistent(dist, run, k);
    assert After(dist, run, k + 1) == Apply(dist, pool, run[k]).pool;
    match run[k]
    case Moved(_, _) =>
    case Observed(o, policy, regular) =>
      if o.deviceId != d {
        ObserveTouchesOne(dist, pool, o, policy, regular, d);
      } else if !Accepted(dist, run, k, d) {
        RefusalChangesNothing(dist, pool, o, policy, regular);
      } else if d in pool.deviceZones {
        LeaveLaw(dist, pool, o, Assess(dist, o, policy, regular), ConfiguredSeconds(policy.stillSeconds));
      } else {
        RoamLaw(dist, pool, o, policy, regular, AwayFromHome(dist, pool.zones, d, o.location));
      }
  }

  lemma RunsAreLawful(dist: Metric, run: seq<Operation>, d: string)
    requires |run| <= U64_MAX
    ensures Lawful(HistoryOf(dist, run, d))
  {
    forall k | 0 <= k < |run|
      ensures Law(HistoryOf(dist, run, d).moments[k], HistoryOf(dist, run, d).sightings[k],
                  HistoryOf(dist, run, d).moments[k + 1])
    {
      RunFollowsLaw(dist, run, k, d);
    }
  }

  /** In every reachable state the timer map is an exact summary of the observations so far. */
  lemma TimersSummarizeHistory(dist: Metric, run: seq<Operation>, d: string, m: nat)
    requires m <= |run| <= U64_MAX
    ensures Lawful(HistoryOf(dist, run, d)) && TimerIsExact(HistoryOf(dist, run, d), m)
  {
    RunsAreLawful(dist, run, d);
    TimersAreExact(HistoryOf(dist, run, d), m);
  }

  /** An accepted observation takes a device into a stationary zone exactly when it was outside
      one, is seen still, and has been still by every sighting for the configured time. */
  lemma EntersExactlyAfterDwelling(dist: Metric, run: seq<Operation>, k: nat, d: string)
    requires k < |run| <= U64_MAX && Accepted(dist, run, k, d)
    ensures Lawful(HistoryOf(dist, run, d))
    ensures
      var h := HistoryOf(dist, run, d);
      d !in After(dist, run, k).deviceZones && d in After(dist, run, k + 1).deviceZones
      <==>
      && d !in After(dist, run, k).deviceZones
      && Counts(run[k].o, run[k].policy) && run[k].o.distanceMovedMeters <= run[k].policy.movementLimitMeters
      && !OffTheMap(run[k].regular) && !InRegularZone(dist, run[k].regular, run[k].o.location)
      && exists i :: 0 <= i <= k && StillSince(h, i, k + 1)
                     && run[k].o.observedAt - h.sightings[i].at >= Seconds(Min(run[k].policy.stillSeconds, I64_MAX))
  {
    var h := HistoryOf(dist, run, d);
    TimersSummarizeHistory(dist, run, d, k);
    AssessedExactly(dist, run[k].o, run[k].policy, run[k].regular);
    assert Law(h.moments[k], h.sightings[k], h.moments[k + 1]);
    if !h.moments[k].housed && h.sightings[k].assessment.Still? {
      CountsFrom(h, k, k + 1);
    }
  }
}
