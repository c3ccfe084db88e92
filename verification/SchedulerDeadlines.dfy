// The deadline a refresh gives a device: the earliest of the decisions made for it, never
// later than the deadline of any tracked zone whose distance is known.
module SchedulerDeadlines {
  import opened Core
  import opened Order
  import opened Scheduler
  import Interval

  /** The tracked zones a refresh decides about. */
  function Timed(config: Config, snapshot: Snapshot): set<string> {
    set z | z in config.trackedFromZones && z in snapshot.targets
  }

  /** The tracked zones whose interval is decided on its own; the closest one shares that of the
      base zone. */
  function OwnTimed(config: Config, snapshot: Snapshot): set<string> {
    set z | z in config.trackedFromZones && z in snapshot.targets && snapshot.closestZone != Some(z)
  }

  /** A refresh gets through: the location can be judged, no later stage fails, and every interval
      it needs can be decided. */
  predicate Decidable(config: Config, snapshot: Snapshot) {
    && GetsToZones(config, snapshot)
    && forall z | z in OwnTimed(config, snapshot) :: Interval.Decide(snapshot.targets[z]).Ok?
  }

  /** A refresh gets as far as deciding about the tracked zones. */
  predicate GetsToZones(config: Config, snapshot: Snapshot) {
    && (snapshot.location.Some? ==>
          && config.gpsThresholdMeters >= 0.0
          && (snapshot.location.value.accuracyMeters.Some? ==> snapshot.location.value.accuracyMeters.value >= 0.0))
    && !snapshot.stageFailed && Interval.Decide(snapshot.base).Ok?
  }

  /** When the interval decided for a zone runs out. */
  function DecidedAt(now: Instant, c: Interval.Context): Instant
    requires Interval.Decide(c).Ok?
  {
    now + Seconds(Min(Interval.Decide(c).value.seconds, I64_MAX))
  }

  /** The earliest of the deadlines decided for the base zone and for the tracked zones. */
  ghost predicate EarliestDecided(config: Config, snapshot: Snapshot, now: Instant, at: Instant)
    requires Decidable(config, snapshot)
  {
    && at <= DecidedAt(now, snapshot.base)
    && (forall z | z in OwnTimed(config, snapshot) :: at <= DecidedAt(now, snapshot.targets[z]))
    && (at == DecidedAt(now, snapshot.base)
        || exists z | z in OwnTimed(config, snapshot) :: at == DecidedAt(now, snapshot.targets[z]))
  }

  /** The tracks afterwards: tracked zones only, each with the deadline decided for it if its
      distance is known, and otherwise the one it had. */
  ghost predicate TracksDecided(config: Config, snapshot: Snapshot, now: Instant, before: map<string, Option<Instant>>,
                                after: map<string, Option<Instant>>)
    requires Decidable(config, snapshot)
  {
    && (forall z :: z in after <==> z in config.trackedFromZones && (z in before || z in snapshot.targets))
    && (forall z | z in after && z !in snapshot.targets :: after[z] == before[z])
    && (forall z | z in after && z in snapshot.targets ::
          after[z] == Some(if snapshot.closestZone == Some(z) then DecidedAt(now, snapshot.base)
                           else DecidedAt(now, snapshot.targets[z])))
  }

  function TargetSeconds(snapshot: Snapshot, base: Interval.Decision, zone: string): nat
    requires zone in snapshot.targets && TargetDecision(snapshot, base, zone).Ok?
  {
    TargetDecision(snapshot, base, zone).value.seconds
  }

  // ---- visiting the tracked zones ----

  ghost predicate AllDecided(snapshot: Snapshot, base: Interval.Decision, zones: seq<string>) {
    forall z | z in zones && z in snapshot.targets :: TargetDecision(snapshot, base, z).Ok?
  }

  /** The wait is one of the decisions, and none of them is shorter. */
  ghost predicate Shortest(snapshot: Snapshot, base: Interval.Decision, zones: seq<string>, start: nat, seconds: nat)
    requires AllDecided(snapshot, base, zones)
  {
    && seconds <= start
    && (forall z | z in zones && z in snapshot.targets :: seconds <= TargetSeconds(snapshot, base, z))
    && (seconds == start
        || exists z | z in zones && z in snapshot.targets :: seconds == TargetSeconds(snapshot, base, z))
  }

  /** The tracks of the zones decided about have their own deadlines; the others are as before. */
  ghost predicate Tracked(snapshot: Snapshot, base: Interval.Decision, paused: bool, now: Instant, zones: seq<string>,
                          before: map<string, Option<Instant>>, after: map<string, Option<Instant>>)
    requires AllDecided(snapshot, base, zones)
  {
    && (forall z :: z in after <==> z in before || (z in zones && z in snapshot.targets))
    && (forall z | z in before && !(z in zones && z in snapshot.targets) :: after[z] == before[z])
    && (forall z | z in zones && z in snapshot.targets ::
          after[z] == if paused then (if z in before then before[z] else None)
                      else Some(DeadlineAfter(now, TargetSeconds(snapshot, base, z))))
  }

  lemma OneMoreVisit(snapshot: Snapshot, base: Interval.Decision, paused: bool, now: Instant, front: seq<string>,
                     zone: string, start: Visit, v: Visit)
    requires AllDecided(snapshot, base, front + [zone]) && zone !in front
    requires v.ok && AllDecided(snapshot, base, front)
    requires Shortest(snapshot, base, front, start.seconds, v.seconds)
    requires Tracked(snapshot, base, paused, now, front, start.tracks, v.tracks)
    ensures
      var w := VisitZone(snapshot, base, paused, now, zone, v);
      && w.ok && Shortest(snapshot, base, front + [zone], start.seconds, w.seconds)
      && Tracked(snapshot, base, paused, now, front + [zone], start.tracks, w.tracks)
  {
    assert zone in front + [zone];
  }

  lemma {:induction false} VisitsDecide(snapshot: Snapshot, base: Interval.Decision, paused: bool, now: Instant,
                                        zones: seq<string>, start: Visit)
    requires start.ok && StrictlyAscending(zones)
    ensures
      var v := VisitZones(snapshot, base, paused, now, zones, start);
      && (v.ok <==> AllDecided(snapshot, base, zones))
      && (v.ok ==>
            && Shortest(snapshot, base, zones, start.seconds, v.seconds)
            && Tracked(snapshot, base, paused, now, zones, start.tracks, v.tracks))
  {
    if zones != [] {
      var front, last := zones[..|zones| - 1], zones[|zones| - 1];
      assert zones == front + [last];
      VisitsDecide(snapshot, base, paused, now, front, start);
      if AllDecided(snapshot, base, zones) {
        assert last !in front;
        OneMoreVisit(snapshot, base, paused, now, front, last, start,
                     VisitZones(snapshot, base, paused, now, front, start));
      }
    }
  }

  // ---- refreshing a device ----

  lemma TargetsAreFives(snapshot: Snapshot, base: Interval.Decision, zone: string)
    requires base.seconds >= 5 && base.seconds % 5 == 0
    requires zone in snapshot.targets && TargetDecision(snapshot, base, zone).Ok?
    ensures TargetSeconds(snapshot, base, zone) >= 5 && TargetSeconds(snapshot, base, zone) % 5 == 0
  {
    if snapshot.closestZone != Some(zone) {
      Interval.DecisionsAreFives(snapshot.targets[zone]);
    }
  }

  lemma ShortestIsFives(snapshot: Snapshot, base: Interval.Decision, zones: seq<string>, seconds: nat)
    requires base.seconds >= 5 && base.seconds % 5 == 0
    requires AllDecided(snapshot, base, zones) && Shortest(snapshot, base, zones, base.seconds, seconds)
    ensures seconds >= 5 && seconds % 5 == 0
  {
    if seconds != base.seconds {
      var z :| z in zones && z in snapshot.targets && seconds == TargetSeconds(snapshot, base, z);
      TargetsAreFives(snapshot, base, z);
    }
  }

  /** What the visit of the tracked zones gives the refresh of one device. */
  lemma RefreshVisits(config: Config, device: Device, snapshot: Snapshot, now: Instant) returns (visit: Visit)
    requires !Faulty(config, snapshot) && Interval.Decide(snapshot.base).Ok?
    ensures
      var base := Interval.Decide(snapshot.base).value;
      var zones := Ascending(config.trackedFromZones);
      var before := Restrict(device.tracks, config.trackedFromZones);
      && (visit.ok <==> Decidable(config, snapshot))
      && (Decidable(config, snapshot) ==>
            && AllDecided(snapshot, base, zones)
            && Shortest(snapshot, base, zones, base.seconds, visit.seconds)
            && visit.seconds >= 5 && visit.seconds % 5 == 0
            && Tracked(snapshot, base, device.paused, now, zones, before, visit.tracks))
      && RefreshDevice(config, device, snapshot, now)
         == if visit.ok then (Rescheduled(device, snapshot, visit.tracks, visit.seconds, now), snapshot.sinkOk)
            else (device.(tracks := visit.tracks), false)
  {
    var base := Interval.Decide(snapshot.base).value;
    var zones := Ascending(config.trackedFromZones);
    var start := Visit(Restrict(device.tracks, config.trackedFromZones), base.seconds, true);
    AscendingIsStrict(config.trackedFromZones);
    VisitsDecide(snapshot, base, device.paused, now, zones, start);
    visit := VisitZones(snapshot, base, device.paused, now, zones, start);
    assert AllDecided(snapshot, base, zones) <==> Decidable(config, snapshot);
    Interval.DecisionsAreFives(snapshot.base);
    if visit.ok {
      ShortestIsFives(snapshot, base, zones, visit.seconds);
    }
  }

  /** A refresh leaves the deadline of a device alone exactly when it may: a paused device keeps
      it, and so does one for which some interval could not be decided. A paused device keeps the
      deadlines of its tracks too. Nothing but deadlines and tracks changes. */
  lemma RefreshKeepsRest(config: Config, device: Device, snapshot: Snapshot, now: Instant)
    ensures
      var (after, ok) := RefreshDevice(config, device, snapshot, now);
      && (ok <==> Decidable(config, snapshot) && snapshot.sinkOk)
      && (device.paused || !Decidable(config, snapshot) ==> after.nextUpdateAt == device.nextUpdateAt)
      && after.paused == device.paused && after.errorCount == device.errorCount
      && after.nearbyGroup == device.nearbyGroup
      && (!GetsToZones(config, snapshot) ==> after == device)
      && (device.paused && Decidable(config, snapshot) ==>
            forall z | z in after.tracks :: after.tracks[z] == if z in device.tracks then device.tracks[z] else None)
  {
    if !Faulty(config, snapshot) && Interval.Decide(snapshot.base).Ok? {
      var _ := RefreshVisits(config, device, snapshot, now);
    }
  }

  lemma DeadlineMonotone(now: Instant, a: nat, b: nat)
    requires a <= b
    ensures DeadlineAfter(now, a) <= DeadlineAfter(now, b)
  {
  }

  lemma ShortestIsEarliest(config: Config, snapshot: Snapshot, now: Instant, seconds: nat)
    requires Decidable(config, snapshot)
    requires
      var base := Interval.Decide(snapshot.base).value;
      var zones := Ascending(config.trackedFromZones);
      AllDecided(snapshot, base, zones) && Shortest(snapshot, base, zones, base.seconds, seconds)
    ensures EarliestDecided(config, snapshot, now, DeadlineAfter(now, seconds))
  {
    var base := Interval.Decide(snapshot.base).value;
    var zones := Ascending(config.trackedFromZones);
    forall z | z in OwnTimed(config, snapshot)
      ensures DeadlineAfter(now, seconds) <= DecidedAt(now, snapshot.targets[z])
    {
      assert z in zones;
      DeadlineMonotone(now, seconds, TargetSeconds(snapshot, base, z));
    }
    DeadlineMonotone(now, seconds, base.seconds);
    if seconds != base.seconds {
      var z :| z in zones && z in snapshot.targets && seconds == TargetSeconds(snapshot, base, z);
      assert z in OwnTimed(config, snapshot);
    }
  }

  lemma OwnDeadline(config: Config, snapshot: Snapshot, now: Instant, z: string)
    requires Decidable(config, snapshot) && z in config.trackedFromZones && z in snapshot.targets
    ensures
      var base := Interval.Decide(snapshot.base).value;
      && TargetDecision(snapshot, base, z).Ok?
      && DeadlineAfter(now, TargetSeconds(snapshot, base, z))
         == if snapshot.closestZone == Some(z) then DecidedAt(now, snapshot.base)
            else DecidedAt(now, snapshot.targets[z])
  {
    assert snapshot.closestZone != Some(z) ==> z in OwnTimed(config, snapshot);
  }

  lemma TrackedAreDecided(config: Config, snapshot: Snapshot, now: Instant, known: map<string, Option<Instant>>,
                          tracks: map<string, Option<Instant>>)
    requires Decidable(config, snapshot)
    requires
      var base := Interval.Decide(snapshot.base).value;
      var zones := Ascending(config.trackedFromZones);
      && AllDecided(snapshot, base, zones)
      && Tracked(snapshot, base, false, now, zones, Restrict(known, config.trackedFromZones), tracks)
    ensures TracksDecided(config, snapshot, now, known, tracks)
  {
    var zones := Ascending(config.trackedFromZones);
    assert forall z :: z in zones <==> z in config.trackedFromZones;
    forall z | z in tracks && z in snapshot.targets
      ensures tracks[z] == Some(if snapshot.closestZone == Some(z) then DecidedAt(now, snapshot.base)
                                else DecidedAt(now, snapshot.targets[z]))
    {
      OwnDeadline(config, snapshot, now, z);
    }
  }

  lemma RescheduledOnline(device: Device, snapshot: Snapshot, tracks: map<string, Option<Instant>>, seconds: nat,
                          now: Instant)
    requires !device.paused && !snapshot.offline
    ensures
      Rescheduled(device, snapshot, tracks, seconds, now)
      == device.(nextUpdateAt := Some(DeadlineAfter(now, seconds)), tracks := tracks)
  {
  }

  /** The deadlines of a device after an online refresh: its own is the earliest of those decided,
      a positive multiple of five seconds away, and each tracked zone has the one decided for it. */
  ghost predicate OnlineDeadlines(config: Config, snapshot: Snapshot, now: Instant, before: Device, after: Device)
    requires Decidable(config, snapshot)
  {
    && after.nextUpdateAt.Some? && EarliestDecided(config, snapshot, now, after.nextUpdateAt.value)
    && (exists w: nat :: after.nextUpdateAt == Some(now + Seconds(Min(w, I64_MAX))) && w >= 5 && w % 5 == 0)
    && TracksDecided(config, snapshot, now, before.tracks, after.tracks)
  }

  lemma VisitGivesDeadlines(config: Config, device: Device, snapshot: Snapshot, visit: Visit, now: Instant)
    requires Decidable(config, snapshot) && visit.seconds >= 5 && visit.seconds % 5 == 0
    requires EarliestDecided(config, snapshot, now, DeadlineAfter(now, visit.seconds))
    requires TracksDecided(config, snapshot, now, device.tracks, visit.tracks)
    ensures
      OnlineDeadlines(config, snapshot, now, device,
                      device.(nextUpdateAt := Some(DeadlineAfter(now, visit.seconds)), tracks := visit.tracks))
  {
  }

  /** Online, the device's deadline is the earliest of those decided for its base zone and for the
      tracked zones whose distance is known, and each of these zones gets the deadline decided
      for it, the closest one that of the base zone. */
  lemma EarliestIntervalWins(config: Config, device: Device, snapshot: Snapshot, now: Instant)
    requires Decidable(config, snapshot) && !device.paused && !snapshot.offline
    ensures OnlineDeadlines(config, snapshot, now, device, RefreshDevice(config, device, snapshot, now).0)
  {
    var visit := RefreshVisits(config, device, snapshot, now);
    RescheduledOnline(device, snapshot, visit.tracks, visit.seconds, now);
    ShortestIsEarliest(config, snapshot, now, visit.seconds);
    TrackedAreDecided(config, snapshot, now, device.tracks, visit.tracks);
    VisitGivesDeadlines(config, device, snapshot, visit, now);
  }

  // ---- a refresh that stops ----

  /** The first of the zones decided on their own, in order, for which nothing can be decided. */
  predicate StopsAtZone(config: Config, snapshot: Snapshot, z: string) {
    && z in OwnTimed(config, snapshot) && Interval.Decide(snapshot.targets[z]).Err?
    && forall y | y in OwnTimed(config, snapshot) && y != z && StringLe(y, z) ::
         Interval.Decide(snapshot.targets[y]).Ok?
  }

  lemma PlaceOfZone(config: Config, z: string) returns (i: nat)
    requires z in config.trackedFromZones
    ensures
      var zones := Ascending(config.trackedFromZones);
      && i < |zones| && zones[i] == z && StrictlyAscending(zones) && StrictlyAscending(zones[..i])
      && forall y :: y in zones[..i] <==> y in config.trackedFromZones && y != z && StringLe(y, z)
  {
    var zones := Ascending(config.trackedFromZones);
    AscendingIsStrict(config.trackedFromZones);
    i :| 0 <= i < |zones| && zones[i] == z;
    forall y | y in config.trackedFromZones && y != z && StringLe(y, z) ensures y in zones[..i] {
      var j :| 0 <= j < |zones| && zones[j] == y;
      if j > i {
        StringLeAntisymmetric(y, z);
      }
    }
  }

  /** The zones before the one that stops the refresh. */
  ghost predicate ZonesBefore(config: Config, z: string, zones: seq<string>) {
    StrictlyAscending(zones) && forall y :: y in zones <==> y in config.trackedFromZones && y != z && StringLe(y, z)
  }

  lemma DecidedBefore(config: Config, snapshot: Snapshot, base: Interval.Decision, z: string, zones: seq<string>)
    requires StopsAtZone(config, snapshot, z) && ZonesBefore(config, z, zones)
    ensures AllDecided(snapshot, base, zones)
  {
    forall y | y in zones && y in snapshot.targets ensures TargetDecision(snapshot, base, y).Ok? {
      assert snapshot.closestZone != Some(y) ==> y in OwnTimed(config, snapshot);
    }
  }

  lemma VisitFailsAt(config: Config, snapshot: Snapshot, base: Interval.Decision, paused: bool, now: Instant, z: string,
                     v: Visit)
    requires StopsAtZone(config, snapshot, z) && v.ok
    ensures
      VisitZone(snapshot, base, paused, now, z, v)
      == Visit(v.tracks[z := if z in v.tracks then v.tracks[z] else None], v.seconds, false)
  {
  }

  lemma VisitsGoThrough(snapshot: Snapshot, base: Interval.Decision, paused: bool, now: Instant, zones: seq<string>,
                        start: Visit)
    requires start.ok && StrictlyAscending(zones) && AllDecided(snapshot, base, zones)
    ensures VisitZones(snapshot, base, paused, now, zones, start).ok
  {
    VisitsDecide(snapshot, base, paused, now, zones, start);
  }

  lemma VisitsUpTo(snapshot: Snapshot, base: Interval.Decision, paused: bool, now: Instant, all: seq<string>,
                   start: Visit, i: nat, v: Visit)
    requires i < |all| && v == VisitZones(snapshot, base, paused, now, all[..i], start)
    requires !VisitZone(snapshot, base, paused, now, all[i], v).ok
    ensures VisitZones(snapshot, base, paused, now, all, start) == VisitZone(snapshot, base, paused, now, all[i], v)
  {
    var m := i + 1;
    assert all[..m][..i] == all[..i];
    VisitsStop(snapshot, base, paused, now, all, start, m);
  }

  /** The visit of all zones is that of the zones before, and the failure at the next one. */
  lemma VisitStopsAt(config: Config, snapshot: Snapshot, base: Interval.Decision, paused: bool, now: Instant, z: string,
                     start: Visit) returns (v: Visit, zones: seq<string>)
    requires StopsAtZone(config, snapshot, z) && start.ok
    ensures ZonesBefore(config, z, zones) && v == VisitZones(snapshot, base, paused, now, zones, start) && v.ok
    ensures
      VisitZones(snapshot, base, paused, now, Ascending(config.trackedFromZones), start)
      == Visit(v.tracks[z := if z in v.tracks then v.tracks[z] else None], v.seconds, false)
  {
    var all := Ascending(config.trackedFromZones);
    var i := PlaceOfZone(config, z);
    zones := all[..i];
    v := VisitZones(snapshot, base, paused, now, zones, start);
    DecidedBefore(config, snapshot, base, z, zones);
    VisitsGoThrough(snapshot, base, paused, now, zones, start);
    VisitFailsAt(config, snapshot, base, paused, now, z, v);
    VisitsUpTo(snapshot, base, paused, now, all, start, i, v);
  }

  /** The track a stopped refresh leaves for a zone: a new deadline for the zones before, and the one
      it had for the others and for this one. */
  predicate TrackUpTo(config: Config, snapshot: Snapshot, now: Instant, device: Device, z: string,
                      after: map<string, Option<Instant>>, y: string)
    requires GetsToZones(config, snapshot) && StopsAtZone(config, snapshot, z)
  {
    && (y in after
        <==> y in config.trackedFromZones && (y in device.tracks || (y in snapshot.targets && StringLe(y, z))))
    && (y in after ==>
          after[y]
          == if y in snapshot.targets && StringLe(y, z) && y != z && !device.paused then
               Some(if snapshot.closestZone == Some(y) then DecidedAt(now, snapshot.base)
                    else DecidedAt(now, snapshot.targets[y]))
             else if y in device.tracks then device.tracks[y] else None)
  }

  lemma TrackBefore(config: Config, snapshot: Snapshot, now: Instant, z: string, zones: seq<string>, y: string)
    requires GetsToZones(config, snapshot) && StopsAtZone(config, snapshot, z) && ZonesBefore(config, z, zones)
    requires y in zones && y in snapshot.targets
    ensures
      var base := Interval.Decide(snapshot.base).value;
      && TargetDecision(snapshot, base, y).Ok?
      && DeadlineAfter(now, TargetSeconds(snapshot, base, y))
         == if snapshot.closestZone == Some(y) then DecidedAt(now, snapshot.base)
            else DecidedAt(now, snapshot.targets[y])
  {
    assert snapshot.closestZone != Some(y) ==> y in OwnTimed(config, snapshot);
  }

  lemma ZonesTouched(config: Config, snapshot: Snapshot, z: string, zones: seq<string>, y: string)
    requires StopsAtZone(config, snapshot, z) && ZonesBefore(config, z, zones)
    ensures
      y in config.trackedFromZones && y in snapshot.targets && StringLe(y, z)
      <==> (y in zones && y in snapshot.targets) || y == z
  {
    StringLeTotal(z, z);
  }

  lemma TrackLeft(config: Config, snapshot: Snapshot, now: Instant, device: Device, z: string, zones: seq<string>,
                  tracks: map<string, Option<Instant>>, y: string)
    requires GetsToZones(config, snapshot) && StopsAtZone(config, snapshot, z) && ZonesBefore(config, z, zones)
    requires
      var base := Interval.Decide(snapshot.base).value;
      && AllDecided(snapshot, base, zones)
      && Tracked(snapshot, base, device.paused, now, zones, Restrict(device.tracks, config.trackedFromZones), tracks)
    ensures TrackUpTo(config, snapshot, now, device, z, tracks[z := if z in tracks then tracks[z] else None], y)
  {
    ZonesTouched(config, snapshot, z, zones, y);
    if y in zones && y in snapshot.targets {
      TrackBefore(config, snapshot, now, z, zones, y);
    }
  }

  lemma FailedVisit(config: Config, device: Device, snapshot: Snapshot, now: Instant, visit: Visit)
    requires GetsToZones(config, snapshot) && !visit.ok
    requires
      var base := Interval.Decide(snapshot.base).value;
      visit == VisitZones(snapshot, base, device.paused, now, Ascending(config.trackedFromZones),
                          Visit(Restrict(device.tracks, config.trackedFromZones), base.seconds, true))
    ensures RefreshDevice(config, device, snapshot, now) == (device.(tracks := visit.tracks), false)
  {
  }

  lemma TracksBefore(config: Config, snapshot: Snapshot, base: Interval.Decision, paused: bool, now: Instant, z: string,
                     zones: seq<string>, start: Visit, v: Visit)
    requires StopsAtZone(config, snapshot, z) && ZonesBefore(config, z, zones) && start.ok
    requires v == VisitZones(snapshot, base, paused, now, zones, start)
    ensures AllDecided(snapshot, base, zones) && Tracked(snapshot, base, paused, now, zones, start.tracks, v.tracks)
  {
    DecidedBefore(config, snapshot, base, z, zones);
    VisitsDecide(snapshot, base, paused, now, zones, start);
  }

  lemma StoppedRefresh(config: Config, device: Device, snapshot: Snapshot, now: Instant, z: string)
    returns (v: Visit, zones: seq<string>)
    requires GetsToZones(config, snapshot) && StopsAtZone(config, snapshot, z)
    ensures ZonesBefore(config, z, zones)
    ensures
      var base := Interval.Decide(snapshot.base).value;
      && AllDecided(snapshot, base, zones)
      && Tracked(snapshot, base, device.paused, now, zones, Restrict(device.tracks, config.trackedFromZones), v.tracks)
    ensures
      RefreshDevice(config, device, snapshot, now)
      == (device.(tracks := v.tracks[z := if z in v.tracks then v.tracks[z] else None]), false)
  {
    var base := Interval.Decide(snapshot.base).value;
    var start := Visit(Restrict(device.tracks, config.trackedFromZones), base.seconds, true);
    v, zones := VisitStopsAt(config, snapshot, base, device.paused, now, z, start);
    TracksBefore(config, snapshot, base, device.paused, now, z, zones, start, v);
    FailedVisit(config, device, snapshot, now,
                Visit(v.tracks[z := if z in v.tracks then v.tracks[z] else None], v.seconds, false));
  }

  /** A zone for which nothing can be decided ends the refresh: the tracks of the zones before it
      have their new deadlines, it has the one it had, and nothing else changes. */
  lemma UndecidedZoneStops(config: Config, device: Device, snapshot: Snapshot, now: Instant, z: string, y: string)
    requires GetsToZones(config, snapshot) && StopsAtZone(config, snapshot, z)
    ensures
      var (after, ok) := RefreshDevice(config, device, snapshot, now);
      && !ok && after == device.(tracks := after.tracks)
      && TrackUpTo(config, snapshot, now, device, z, after.tracks, y)
  {
    var v, zones := StoppedRefresh(config, device, snapshot, now, z);
    TrackLeft(config, snapshot, now, device, z, zones, v.tracks, y);
  }

  lemma TrackedKeys(config: Config, device: Device, snapshot: Snapshot, base: Interval.Decision, now: Instant,
                    tracks: map<string, Option<Instant>>)
    requires AllDecided(snapshot, base, Ascending(config.trackedFromZones))
    requires Tracked(snapshot, base, device.paused, now, Ascending(config.trackedFromZones),
                     Restrict(device.tracks, config.trackedFromZones), tracks)
    ensures tracks.Keys == config.trackedFromZones * (device.tracks.Keys + snapshot.targets.Keys)
  {
    assert forall z :: z in Ascending(config.trackedFromZones) <==> z in config.trackedFromZones;
  }

  lemma RescheduledOffline(device: Device, snapshot: Snapshot, tracks: map<string, Option<Instant>>, seconds: nat,
                           now: Instant)
    requires !device.paused && snapshot.offline
    ensures
      var after := Rescheduled(device, snapshot, tracks, seconds, now);
      && after.nextUpdateAt == Some(now + Seconds(OfflineWait(snapshot.locationAgeSeconds)))
      && after.tracks == AllAt(tracks, after.nextUpdateAt)
  {
  }

  /** The wait of an offline device: from three minutes to an hour, growing with the age of its
      location; an hour when it has none. */
  function OfflineWait(age: Option<nat>): nat {
    if age.None? then 3600
    else if age.value <= 180 then 180
    else if age.value <= 1800 then 300
    else if age.value <= 3600 then 1800
    else 3600
  }

  /** Offline, the wait depends on the age of the location alone, and every tracked zone gets
      the device's deadline. */
  lemma OfflineTogether(config: Config, device: Device, snapshot: Snapshot, now: Instant)
    requires Decidable(config, snapshot) && !device.paused && snapshot.offline
    ensures
      var after := RefreshDevice(config, device, snapshot, now).0;
      && after.nextUpdateAt == Some(now + Seconds(OfflineWait(snapshot.locationAgeSeconds)))
      && after.tracks.Keys == config.trackedFromZones * (device.tracks.Keys + snapshot.targets.Keys)
      && forall z | z in after.tracks :: after.tracks[z] == after.nextUpdateAt
  {
    var visit := RefreshVisits(config, device, snapshot, now);
    TrackedKeys(config, device, snapshot, Interval.Decide(snapshot.base).value, now, visit.tracks);
    RescheduledOffline(device, snapshot, visit.tracks, visit.seconds, now);
  }

  // ---- refreshing all the devices of an answer ----

  ghost predicate DistinctIds(snapshots: seq<Snapshot>) {
    forall i, j | 0 <= i < j < |snapshots| :: snapshots[i].id != snapshots[j].id
  }

  function KnownOrNew(devices: map<string, Device>, id: string): Device {
    if id in devices then devices[id] else NEW_DEVICE
  }

  /** Each device ends as a refresh of its own snapshot leaves it, and the devices not answered
      for are untouched. */
  ghost predicate Independently(config: Config, devices: map<string, Device>, snapshots: seq<Snapshot>, now: Instant,
                                after: map<string, Device>)
  {
    && (forall d | d in after :: d in devices || exists i | 0 <= i < |snapshots| :: snapshots[i].id == d)
    && (forall i | 0 <= i < |snapshots| ::
          snapshots[i].id in after
          && after[snapshots[i].id] == RefreshDevice(config, KnownOrNew(devices, snapshots[i].id), snapshots[i], now).0)
    && (forall d | d in devices && (forall i | 0 <= i < |snapshots| :: snapshots[i].id != d) ::
          d in after && after[d] == devices[d])
  }

  lemma OneMoreRefresh(config: Config, devices: map<string, Device>, front: seq<Snapshot>, last: Snapshot, now: Instant,
                       before: map<string, Device>)
    requires Independently(config, devices, front, now, before)
    requires forall i | 0 <= i < |front| :: front[i].id != last.id
    ensures Independently(config, devices, front + [last], now, RefreshOne(config, before, last, now).devices)
  {
    var snapshots := front + [last];
    var after := RefreshOne(config, before, last, now).devices;
    assert snapshots[|front|] == last;
    assert KnownOrNew(before, last.id) == KnownOrNew(devices, last.id);
    forall d | d in after ensures d in devices || exists i | 0 <= i < |snapshots| :: snapshots[i].id == d {
      if d in before && d !in devices {
        var i :| 0 <= i < |front| && front[i].id == d;
        assert snapshots[i].id == d;
      }
    }
    forall d | d in devices && (forall i | 0 <= i < |snapshots| :: snapshots[i].id != d)
      ensures d in after && after[d] == devices[d]
    {
      assert forall i | 0 <= i < |front| :: front[i] == snapshots[i];
      assert snapshots[|front|].id != d;
    }
  }

  /** The refreshes of one answer do not disturb each other. */
  lemma {:induction false} RefreshesAreIndependent(config: Config, devices: map<string, Device>,
                                                   snapshots: seq<Snapshot>, now: Instant)
    requires DistinctIds(snapshots) && RefreshAll(config, devices, snapshots, now).ok
    ensures Independently(config, devices, snapshots, now, RefreshAll(config, devices, snapshots, now).devices)
  {
    if snapshots != [] {
      var front, last := snapshots[..|snapshots| - 1], snapshots[|snapshots| - 1];
      assert snapshots == front + [last];
      RefreshesAreIndependent(config, devices, front, now);
      OneMoreRefresh(config, devices, front, last, now, RefreshAll(config, devices, front, now).devices);
    }
  }

  // ---- companions of a device that left a zone ----

  predicate SameGroup(devices: map<string, Device>, a: string, b: string) {
    a in devices && b in devices && devices[a].nearbyGroup.Some? && devices[a].nearbyGroup == devices[b].nearbyGroup
  }

  /** The tracks of a device that was brought forward, or not. */
  ghost predicate TracksMoved(before: map<string, Option<Instant>>, after: map<string, Option<Instant>>, moved: bool,
                              at: Instant)
  {
    after.Keys == before.Keys && forall z | z in before :: after[z] == if moved then Some(at) else before[z]
  }

  lemma MovedOrNot(device: Device, at: Instant)
    ensures
      var moved := BroughtForward(at)(device);
      && moved.paused == device.paused && moved.errorCount == device.errorCount
      && moved.nextUpdateAt == (if device.paused then device.nextUpdateAt else Earlier(device.nextUpdateAt, Some(at)))
      && TracksMoved(device.tracks, moved.tracks, moved.nextUpdateAt != device.nextUpdateAt, at)
  {
  }

  /** An external update moves no other device's deadline, except that when it reports a zone
      exit every unpaused device that was in the source's nearby group is due within two minutes,
      and its tracks with it if it was due later. */
  lemma ZoneExitHastensCompanions(config: Config, s: System, snapshot: Snapshot, zoneExit: bool,
                                  groups: map<string, nat>, io: Io, now: Instant, d: string)
    requires Decidable(config, snapshot) && snapshot.sinkOk
    requires d in s.state.devices && d != snapshot.id
    ensures
      var before := s.state.devices[d];
      var after := External(config, s, snapshot, zoneExit, groups, io, now).state.devices;
      && d in after && after[d].paused == before.paused && after[d].errorCount == before.errorCount
      && after[d].nextUpdateAt
         == (if zoneExit && SameGroup(s.state.devices, snapshot.id, d) && !before.paused
             then Earlier(before.nextUpdateAt, Some(now + Seconds(120)))
             else before.nextUpdateAt)
      && TracksMoved(before.tracks, after[d].tracks, after[d].nextUpdateAt != before.nextUpdateAt, now + Seconds(120))
  {
    var devices := s.state.devices;
    RefreshKeepsRest(config, KnownOrNew(devices, snapshot.id), snapshot, now);
    var refresh := RefreshOne(config, devices, snapshot, now);
    assert refresh.ok && d in refresh.devices && refresh.devices[d] == devices[d];
    var regrouped := Regrouped(refresh.devices, groups);
    MovedOrNot(regrouped[d], now + Seconds(120));
    var after := External(config, s, snapshot, zoneExit, groups, io, now).state.devices;
    assert after[d] == if d in Companions(devices, snapshot.id, zoneExit)
                       then BroughtForward(now + Seconds(120))(regrouped[d]) else regrouped[d];
  }

  // ---- when an account is next due ----

  lemma SettledDates(devices: map<string, Device>, ids: set<string>, fallback: Instant)
    ensures
      var after := UpdateDevices(devices, ids, Settled(fallback));
      var next := EarliestUpdate(Ascending(ids), after).GetOr(fallback);
      && (forall d | d in ids && d in devices ::
            after[d].nextUpdateAt.Some? && next <= after[d].nextUpdateAt.value && after[d].paused == devices[d].paused)
      && ((exists d :: d in ids && d in devices) ==>
            exists d :: d in ids && d in devices && after[d].nextUpdateAt == Some(next))
  {
    var after := UpdateDevices(devices, ids, Settled(fallback));
    EarliestBounds(Ascending(ids), after);
    assert forall d | d in ids && d in devices :: d in Ascending(ids) && after[d].nextUpdateAt.Some?;
  }

  /** After a successful poll every known device of the account has a deadline, and the account
      remembers the earliest one. */
  lemma RemembersEarliest(config: Config, s: System, a: string, refreshed: set<string>, now: Instant)
    requires a in s.accounts
    ensures
      var after := FinishPoll(config, s, a, refreshed, now);
      var account, devices := after.accounts[a], after.state.devices;
      && account.errorCount == 0 && account.deviceIds == FinishedIds(s.accounts[a], refreshed)
      && (forall d | d in account.deviceIds && d in devices ::
            devices[d].nextUpdateAt.Some? && account.nextDiscoveryAt <= devices[d].nextUpdateAt.value)
      && ((exists d :: d in account.deviceIds && d in devices) ==>
            exists d ::
              d in account.deviceIds && d in devices && devices[d].nextUpdateAt == Some(account.nextDiscoveryAt))
  {
    SettledDates(s.state.devices, FinishedIds(s.accounts[a], refreshed), now + config.defaultInterval);
  }

  /** The known devices of an account that are not paused. */
  function Awake(account: Account, devices: map<string, Device>): set<string> {
    set d | d in account.deviceIds && d in devices && !devices[d].paused
  }

  /** The deadline an account that is not in error waits for. */
  function NextDue(account: Account, devices: map<string, Device>): Option<Instant> {
    if account.deviceIds == {} then Some(account.nextDiscoveryAt)
    else EarliestUpdate(Ascending(Awake(account, devices)), devices)
  }

  /** After a successful poll the account is next due exactly when the earliest deadline of its
      devices that are not paused comes within the prefetch window, which is not before the
      discovery time does; with all of them paused it is never due. */
  lemma DueWithFirstDevice(config: Config, s: System, a: string, refreshed: set<string>, now: Instant, t: Instant)
    requires a in s.accounts
    ensures
      var after := FinishPoll(config, s, a, refreshed, now);
      var account, devices := after.accounts[a], after.state.devices;
      && (IsDue(config, account, devices, t)
          <==> NextDue(account, devices).Some? && NextDue(account, devices).value <= t + config.prefetch)
      && (NextDue(account, devices).Some? ==> account.nextDiscoveryAt <= NextDue(account, devices).value)
  {
    RemembersEarliest(config, s, a, refreshed, now);
    var after := FinishPoll(config, s, a, refreshed, now);
    DueWithEarliestAwake(config, after.accounts[a], after.state.devices, t);
  }

  lemma DueWithEarliestAwake(config: Config, account: Account, devices: map<string, Device>, t: Instant)
    requires account.errorCount == 0
    requires
      forall d | d in account.deviceIds && d in devices ::
        devices[d].nextUpdateAt.Some? && account.nextDiscoveryAt <= devices[d].nextUpdateAt.value
    ensures
      IsDue(config, account, devices, t)
      <==> NextDue(account, devices).Some? && NextDue(account, devices).value <= t + config.prefetch
    ensures NextDue(account, devices).Some? ==> account.nextDiscoveryAt <= NextDue(account, devices).value
  {
    var awake := Awake(account, devices);
    EarliestBounds(Ascending(awake), devices);
    assert forall d :: d in Ascending(awake) <==> d in awake;
  }
}
