// What the tracker remembers of one device: its location, battery and availability, and
// what those are after any interleaving of Apple and external updates.
module DeviceState {
  import opened Core
  import opened Quality

  /** The location part of a device's state. */
  datatype Track = Track(
    current: Option<Sample>, previous: Option<Sample>, lastUpdateAt: Option<Instant>,
    distanceMovedMeters: Option<real>, badUpdates: nat)

  const UNTRACKED := Track(None, None, None, None, 0)

  function Accepted(dist: Metric, t: Track, sample: Sample): Track {
    t.(distanceMovedMeters :=
         if t.current.Some? then Some(dist(t.current.value.coordinates, sample.coordinates)) else None,
       previous := t.current,
       current := Some(sample),
       lastUpdateAt := Some(sample.timestamp))
  }

  function Applied(dist: Metric, t: Track, sample: Sample, quality: LocationQuality): Track {
    match quality
    case Good => Accepted(dist, t, sample).(badUpdates := 0)
    case Grace(_) => Accepted(dist, t, sample).(badUpdates := IncrementU32(t.badUpdates))
    case Rejected(_) => t.(badUpdates := IncrementU32(t.badUpdates))
  }

  datatype Availability = Unknown | Online | Offline | Pending | Unregistered | Other(code: int)

  datatype Battery = Battery(levelPercent: Option<nat>, status: Option<string>, lowPowerMode: Option<bool>)

  class DeviceTrackingState {
    var current: Option<Sample>
    var previous: Option<Sample>
    var lastUpdateAt: Option<Instant>
    var distanceMovedMeters: Option<real>
    var badUpdates: nat
    var battery: Option<Battery>
    var batteryUpdatedAt: Option<Instant>
    var availability: Option<Availability>
    var offlineSince: Option<Instant>

    ghost function Location(): Track
      reads this
    {
      Track(current, previous, lastUpdateAt, distanceMovedMeters, badUpdates)
    }

    constructor ()
      ensures Location() == UNTRACKED
      ensures battery.None? && batteryUpdatedAt.None? && availability.None? && offlineSince.None?
    {
      current, previous, lastUpdateAt, distanceMovedMeters, badUpdates := None, None, None, None, 0;
      battery, batteryUpdatedAt, availability, offlineSince := None, None, None, None;
    }

    method ApplyLocation(dist: Metric, sample: Sample, quality: LocationQuality)
      modifies `current, `previous, `lastUpdateAt, `distanceMovedMeters, `badUpdates
      ensures Location() == Applied(dist, old(Location()), sample, quality)
    {
      match quality {
        case Good =>
          AcceptLocation(dist, sample);
          badUpdates := 0;
        case Grace(_) =>
          AcceptLocation(dist, sample);
          badUpdates := IncrementU32(badUpdates);
        case Rejected(_) =>
          badUpdates := IncrementU32(badUpdates);
      }
    }

    method AcceptLocation(dist: Metric, sample: Sample)
      modifies `current, `previous, `lastUpdateAt, `distanceMovedMeters
      ensures Location() == Accepted(dist, old(Location()), sample)
    {
      distanceMovedMeters :=
        if current.Some? then Some(dist(current.value.coordinates, sample.coordinates)) else None;
      previous := current;
      current := Some(sample);
      lastUpdateAt := Some(sample.timestamp);
    }

    method UpdateBattery(reading: Battery, timestamp: Instant)
      modifies `battery, `batteryUpdatedAt
      ensures Charge(battery, batteryUpdatedAt)
           == ReadBattery(old(Charge(battery, batteryUpdatedAt)), BatteryReading(reading, timestamp))
    {
      if batteryUpdatedAt.None? || timestamp >= batteryUpdatedAt.value {
        battery := Some(reading);
        batteryUpdatedAt := Some(timestamp);
      }
    }

    method UpdateAvailability(seen: Availability, now: Instant)
      modifies `availability, `offlineSince
      ensures availability == Some(seen)
      ensures offlineSince == SeenAvailability(old(offlineSince), seen, now)
    {
      if seen.Online? {
        offlineSince := None;
      } else if offlineSince.None? {
        offlineSince := Some(now);
      }
      availability := Some(seen);
    }
  }

  // ---- whole histories of location updates ----

  /** The configuration that stays fixed; the age threshold is chosen anew for each sample. */
  datatype Limits = Limits(gpsThresholdMeters: real, graceUpdates: nat)

  datatype Update =
    | FromApple(sample: Sample, now: Instant, oldThresholdSeconds: nat)
    | FromElsewhere(sample: Sample, now: Instant, oldThresholdSeconds: nat)

  /** What became of an update: the quality it was given, or nothing if it was refused first. */
  function Verdict(limits: Limits, t: Track, u: Update): Option<LocationQuality> {
    var external := ExternalPolicy(limits.gpsThresholdMeters, MINIMUM_NEWER_BY_SECONDS);
    if u.FromElsewhere? && Arbitrate(external, t.current, u.sample) != Ok(Accept(u.sample)) then None
    else
      var policy := Policy(limits.gpsThresholdMeters, u.oldThresholdSeconds, limits.graceUpdates);
      match Evaluate(policy, t.current, u.sample, u.now, t.badUpdates)
      case Err(_) => None
      case Ok(quality) => Some(quality)
  }

  function Next(dist: Metric, limits: Limits, t: Track, u: Update): Track {
    match Verdict(limits, t, u)
    case None => t
    case Some(quality) => Applied(dist, t, u.sample, quality)
  }

  function After(dist: Metric, limits: Limits, h: seq<Update>, m: nat): Track
    requires m <= |h|
  {
    if m == 0 then UNTRACKED else Next(dist, limits, After(dist, limits, h, m - 1), h[m - 1])
  }

  function VerdictAt(dist: Metric, limits: Limits, h: seq<Update>, k: nat): Option<LocationQuality>
    requires k < |h|
  {
    Verdict(limits, After(dist, limits, h, k), h[k])
  }

  predicate Admits(verdict: Option<LocationQuality>) {
    verdict.Some? && !verdict.value.Rejected?
  }

  /** The samples accepted by the first `m` updates, oldest first. */
  function Kept(dist: Metric, limits: Limits, h: seq<Update>, m: nat): seq<Sample>
    requires m <= |h|
  {
    if m == 0 then []
    else Kept(dist, limits, h, m - 1) + (if Admits(VerdictAt(dist, limits, h, m - 1)) then [h[m - 1].sample] else [])
  }

  predicate InOrder(samples: seq<Sample>) {
    forall i, j | 0 <= i <= j < |samples| :: samples[i].timestamp <= samples[j].timestamp
  }

  /** The state is the last two accepted samples, whose times never go back. */
  ghost predicate Remembers(dist: Metric, t: Track, kept: seq<Sample>) {
    && InOrder(kept)
    && t.current == (if |kept| >= 1 then Some(kept[|kept| - 1]) else None)
    && t.previous == (if |kept| >= 2 then Some(kept[|kept| - 2]) else None)
    && t.lastUpdateAt == (if |kept| >= 1 then Some(kept[|kept| - 1].timestamp) else None)
    && t.distanceMovedMeters
       == if |kept| >= 2 then Some(dist(kept[|kept| - 2].coordinates, kept[|kept| - 1].coordinates)) else None
  }

  lemma AdmittedNotOlder(limits: Limits, t: Track, u: Update)
    requires Admits(Verdict(limits, t, u)) && t.current.Some?
    ensures t.current.value.timestamp <= u.sample.timestamp
  {
  }

  lemma RemembersKept(dist: Metric, limits: Limits, t: Track, kept: seq<Sample>, u: Update)
    requires Remembers(dist, t, kept)
    ensures Remembers(dist, Next(dist, limits, t, u), kept + (if Admits(Verdict(limits, t, u)) then [u.sample] else []))
  {
    if Admits(Verdict(limits, t, u)) && kept != [] {
      AdmittedNotOlder(limits, t, u);
    }
  }

  /** Through any interleaving of Apple and external updates, the state holds the last two
      accepted samples and accepted times never go back. */
  lemma {:induction false} StateRemembersAccepted(dist: Metric, limits: Limits, h: seq<Update>, m: nat)
    requires m <= |h|
    ensures Remembers(dist, After(dist, limits, h, m), Kept(dist, limits, h, m))
  {
    if m > 0 {
      var n := m - 1;
      StateRemembersAccepted(dist, limits, h, n);
      RemembersKept(dist, limits, After(dist, limits, h, n), Kept(dist, limits, h, n), h[n]);
    }
  }

  lemma {:induction false} KeptGrows(dist: Metric, limits: Limits, h: seq<Update>, m: nat, n: nat)
    requires m <= n <= |h|
    ensures Kept(dist, limits, h, m) <= Kept(dist, limits, h, n)
    decreases n
  {
    if m < n {
      KeptGrows(dist, limits, h, m, n - 1);
    }
  }

  /** The current location never gets older, and the previous one is never newer than it. */
  lemma {:induction false} LocationNeverGoesBack(dist: Metric, limits: Limits, h: seq<Update>, m: nat, n: nat)
    requires m <= n <= |h| && After(dist, limits, h, m).current.Some?
    ensures
      var early, late := After(dist, limits, h, m), After(dist, limits, h, n);
      && late.current.Some?
      && early.current.value.timestamp <= late.current.value.timestamp
      && late.lastUpdateAt == Some(late.current.value.timestamp)
      && (late.previous.Some? ==> late.previous.value.timestamp <= late.current.value.timestamp)
  {
    StateRemembersAccepted(dist, limits, h, m);
    StateRemembersAccepted(dist, limits, h, n);
    KeptGrows(dist, limits, h, m, n);
    var early, late := Kept(dist, limits, h, m), Kept(dist, limits, h, n);
    assert early[|early| - 1] == late[|early| - 1];
  }

  /** The current location of a device never has an invalid accuracy. */
  lemma {:induction false} CurrentIsValid(dist: Metric, limits: Limits, h: seq<Update>, m: nat)
    requires m <= |h|
    ensures
      var current := After(dist, limits, h, m).current;
      current.Some? ==> ValidAccuracy(current.value)
  {
    if m > 0 {
      CurrentIsValid(dist, limits, h, m - 1);
    }
  }

  /** An external sample is considered at all exactly when it is accurate and, if a location is
      known, at least six seconds newer; an Apple one unless its accuracy is negative. What is
      considered is good exactly when it is in order, recent by the threshold chosen for it, and
      accurate. */
  lemma ConsideredExactly(limits: Limits, t: Track, u: Update)
    requires limits.gpsThresholdMeters >= 0.0
    ensures
      var (accuracy, verdict) := (u.sample.accuracyMeters, Verdict(limits, t, u));
      && (verdict.Some?
          <==> (accuracy.Some? ==> accuracy.value >= 0.0)
               && (u.FromElsewhere? ==>
                     && accuracy.Some? && accuracy.value <= limits.gpsThresholdMeters
                     && (t.current.Some? ==> u.sample.timestamp >= t.current.value.timestamp + Seconds(6))))
      && (verdict.Some? ==>
            (verdict.value.Good?
             <==> && (t.current.Some? ==> u.sample.timestamp >= t.current.value.timestamp)
                  && !u.sample.isOld
                  && u.now - u.sample.timestamp < Seconds(Min(u.oldThresholdSeconds, I64_MAX) + 1)
                  && accuracy.Some? && accuracy.value <= limits.gpsThresholdMeters))
  {
    AcceptedExactly(ExternalPolicy(limits.gpsThresholdMeters, MINIMUM_NEWER_BY_SECONDS), t.current, u.sample);
    if Verdict(limits, t, u).Some? {
      VerdictExactly(Policy(limits.gpsThresholdMeters, u.oldThresholdSeconds, limits.graceUpdates), t.current, u.sample,
                     u.now, t.badUpdates);
    }
  }

  // ---- the grace period ----

  /** Classified updates since the last good one. */
  function BadRun(dist: Metric, limits: Limits, h: seq<Update>, m: nat): nat
    requires m <= |h|
  {
    if m == 0 then 0
    else
      match VerdictAt(dist, limits, h, m - 1)
      case None => BadRun(dist, limits, h, m - 1)
      case Some(Good) => 0
      case Some(_) => BadRun(dist, limits, h, m - 1) + 1
  }

  /** Updates `i` up to `j` that were accepted by grace. */
  function GraceCount(dist: Metric, limits: Limits, h: seq<Update>, i: nat, j: nat): nat
    requires i <= j <= |h|
    decreases j
  {
    if i == j then 0
    else
      var verdict := VerdictAt(dist, limits, h, j - 1);
      GraceCount(dist, limits, h, i, j - 1) + (if verdict.Some? && verdict.value.Grace? then 1 else 0)
  }

  lemma {:induction false} BadUpdatesCounted(dist: Metric, limits: Limits, h: seq<Update>, m: nat)
    requires m <= |h|
    ensures After(dist, limits, h, m).badUpdates == Min(BadRun(dist, limits, h, m), U32_MAX)
  {
    if m > 0 {
      BadUpdatesCounted(dist, limits, h, m - 1);
    }
  }

  /** A defective sample that is not out of order is accepted exactly when fewer than the
      configured number of bad samples came since the last good one. */
  lemma GraceExactly(dist: Metric, limits: Limits, h: seq<Update>, k: nat)
    requires k < |h| && limits.graceUpdates <= U32_MAX
    requires VerdictAt(dist, limits, h, k).Some? && !VerdictAt(dist, limits, h, k).value.Good?
    requires VerdictAt(dist, limits, h, k).value.reason != OutOfOrder
    ensures VerdictAt(dist, limits, h, k).value.Grace? <==> BadRun(dist, limits, h, k) < limits.graceUpdates
  {
    BadUpdatesCounted(dist, limits, h, k);
  }

  predicate NoneGood(dist: Metric, limits: Limits, h: seq<Update>, i: nat, j: nat)
    requires i <= j <= |h|
  {
    forall k | i <= k < j :: VerdictAt(dist, limits, h, k) != Some(Good)
  }

  lemma {:induction false} GraceWithinRun(dist: Metric, limits: Limits, h: seq<Update>, i: nat, j: nat)
    requires i <= j <= |h| && NoneGood(dist, limits, h, i, j) && limits.graceUpdates <= U32_MAX
    ensures GraceCount(dist, limits, h, i, j) <= Min(BadRun(dist, limits, h, j), limits.graceUpdates)
    decreases j
  {
    if i < j {
      var n := j - 1;
      GraceWithinRun(dist, limits, h, i, n);
      assert VerdictAt(dist, limits, h, n) != Some(Good);
      var verdict := VerdictAt(dist, limits, h, n);
      if verdict.Some? && verdict.value.Grace? {
        BadUpdatesCounted(dist, limits, h, n);
      }
    }
  }

  /** Between two good samples, at most the configured number of bad ones are accepted. */
  lemma GraceBounded(dist: Metric, limits: Limits, h: seq<Update>, i: nat, j: nat)
    requires i <= j <= |h| && NoneGood(dist, limits, h, i, j) && limits.graceUpdates <= U32_MAX
    ensures GraceCount(dist, limits, h, i, j) <= limits.graceUpdates
  {
    GraceWithinRun(dist, limits, h, i, j);
  }

  // ---- battery ----

  datatype BatteryReading = BatteryReading(battery: Battery, at: Instant)

  /** The battery part of a device's state. */
  datatype Charge = Charge(battery: Option<Battery>, updatedAt: Option<Instant>)

  function ReadBattery(known: Charge, reading: BatteryReading): Charge {
    if known.updatedAt.None? || reading.at >= known.updatedAt.value then
      Charge(Some(reading.battery), Some(reading.at))
    else known
  }

  function KnownCharge(h: seq<BatteryReading>): Charge {
    if h == [] then Charge(None, None) else ReadBattery(KnownCharge(h[..|h| - 1]), h[|h| - 1])
  }

  /** Reading `k` is the newest, the last one received among equals. */
  ghost predicate IsNewest(h: seq<BatteryReading>, k: nat) {
    && k < |h|
    && (forall i | 0 <= i < |h| :: h[i].at <= h[k].at)
    && (forall i | k < i < |h| :: h[i].at < h[k].at)
  }

  /** The battery shown is the newest reading received. */
  lemma {:induction false} BatteryIsNewest(h: seq<BatteryReading>) returns (k: nat)
    requires h != []
    ensures IsNewest(h, k) && KnownCharge(h) == Charge(Some(h[k].battery), Some(h[k].at))
  {
    var front, last := h[..|h| - 1], h[|h| - 1];
    k := |h| - 1;
    if front != [] {
      var n := BatteryIsNewest(front);
      if last.at < front[n].at {
        k := n;
      }
      assert forall i | 0 <= i < |front| :: h[i] == front[i];
    }
  }

  // ---- availability ----

  datatype AvailabilityReport = AvailabilityReport(seen: Availability, at: Instant)

  function SeenAvailability(offlineSince: Option<Instant>, seen: Availability, now: Instant): Option<Instant> {
    if seen.Online? then None else if offlineSince.None? then Some(now) else offlineSince
  }

  function OfflineSince(h: seq<AvailabilityReport>, m: nat): Option<Instant>
    requires m <= |h|
  {
    if m == 0 then None else SeenAvailability(OfflineSince(h, m - 1), h[m - 1].seen, h[m - 1].at)
  }

  /** Reports `i` up to `m` are an unbroken run of not being online. */
  ghost predicate OfflineRun(h: seq<AvailabilityReport>, i: nat, m: nat)
    requires m <= |h|
  {
    && i < m
    && (i > 0 ==> h[i - 1].seen.Online?)
    && forall j | i <= j < m :: !h[j].seen.Online?
  }

  /** A device counts as offline since the first report of the current unbroken offline run. */
  lemma {:induction false} OfflineSinceRunBegan(h: seq<AvailabilityReport>, m: nat)
    requires m <= |h|
    ensures OfflineSince(h, m).None? ==> m == 0 || h[m - 1].seen.Online?
    ensures OfflineSince(h, m).Some? ==> exists i: nat :: OfflineRun(h, i, m) && h[i].at == OfflineSince(h, m).value
  {
    if m > 0 {
      var n := m - 1;
      OfflineSinceRunBegan(h, n);
      if !h[n].seen.Online? {
        if OfflineSince(h, n).None? {
          assert OfflineRun(h, n, m);
        } else {
          var i: nat :| OfflineRun(h, i, n) && h[i].at == OfflineSince(h, n).value;
          assert OfflineRun(h, i, m);
        }
      }
    }
  }

  // ---- the event history ----

  const HISTORY_LIMIT: nat := 1_000

  function Recorded<T>(history: seq<T>, event: T): seq<T> {
    var longer := history + [event];
    if |longer| > HISTORY_LIMIT then longer[|longer| - HISTORY_LIMIT..] else longer
  }

  function RecordedAll<T>(events: seq<T>): seq<T> {
    if events == [] then [] else Recorded(RecordedAll(events[..|events| - 1]), events[|events| - 1])
  }

  /** The event history is always the latest thousand events, in order. */
  lemma {:induction false} HistoryIsLatest<T>(events: seq<T>)
    ensures RecordedAll(events) == events[Max(0, |events| - 1_000)..]
  {
    if events != [] {
      HistoryIsLatest(events[..|events| - 1]);
    }
  }
}
