// Whether a location sample is good enough: the quality of Apple samples, the arbitration
// of external ones, and the dynamic age threshold.
module Quality {
  import opened Core

  datatype Source = Apple | External(sourceId: string)

  datatype Sample = Sample(
    coordinates: Coordinates, accuracyMeters: Option<real>, timestamp: Instant, source: Source, isOld: bool)

  datatype Reason = OldLocation | PoorGps | OutOfOrder

  datatype LocationQuality = Good | Grace(reason: Reason) | Rejected(reason: Reason)

  datatype Policy = Policy(gpsThresholdMeters: real, oldThresholdSeconds: nat, graceUpdates: nat)

  predicate ValidAccuracy(sample: Sample) {
    sample.accuracyMeters.Some? ==> sample.accuracyMeters.value >= 0.0
  }

  predicate PoorFix(sample: Sample, gpsThresholdMeters: real) {
    sample.accuracyMeters.None? || sample.accuracyMeters.value > gpsThresholdMeters
  }

  /** What is wrong with a sample, the most serious defect first. */
  function Defect(policy: Policy, previous: Option<Sample>, candidate: Sample, now: Instant): Option<Reason> {
    if previous.Some? && candidate.timestamp < previous.value.timestamp then Some(OutOfOrder)
    else if candidate.isOld || WholeSeconds(now - candidate.timestamp) > Min(policy.oldThresholdSeconds, I64_MAX) then
      Some(OldLocation)
    else if PoorFix(candidate, policy.gpsThresholdMeters) then Some(PoorGps)
    else None
  }

  /** Whether a sample can be judged at all. */
  predicate Judgeable(gpsThresholdMeters: real, sample: Sample) {
    gpsThresholdMeters >= 0.0 && ValidAccuracy(sample)
  }

  function Evaluate(policy: Policy, previous: Option<Sample>, candidate: Sample, now: Instant, badUpdates: nat)
    : Result<LocationQuality, TrackingError>
  {
    if !Judgeable(policy.gpsThresholdMeters, candidate) then
      Err(InvalidInput("GPS accuracy threshold must be non-negative"))
    else
      match Defect(policy, previous, candidate, now)
      case None => Ok(Good)
      case Some(OutOfOrder) => Ok(Rejected(OutOfOrder))
      case Some(reason) => Ok(if badUpdates < policy.graceUpdates then Grace(reason) else Rejected(reason))
  }

  /** The first instant a sample must come after to be fresh enough. */
  function FreshAfter(policy: Policy, now: Instant): int {
    now - Seconds(Min(policy.oldThresholdSeconds, I64_MAX) + 1)
  }

  function ReasonOf(quality: LocationQuality): Option<Reason> {
    match quality
    case Good => None
    case Grace(reason) => Some(reason)
    case Rejected(reason) => Some(reason)
  }

  /** What each verdict says about the sample. Truncating the age to whole seconds gives a
      sample almost a second more than the threshold. */
  lemma VerdictExactly(policy: Policy, previous: Option<Sample>, candidate: Sample, now: Instant, badUpdates: nat)
    requires Evaluate(policy, previous, candidate, now, badUpdates).Ok?
    ensures
      var quality := Evaluate(policy, previous, candidate, now, badUpdates).value;
      var inOrder := previous.Some? ==> previous.value.timestamp <= candidate.timestamp;
      var recent := !candidate.isOld && candidate.timestamp > FreshAfter(policy, now);
      var accurate := candidate.accuracyMeters.Some? && candidate.accuracyMeters.value <= policy.gpsThresholdMeters;
      && (quality.Good? <==> inOrder && recent && accurate)
      && (ReasonOf(quality) == Some(OutOfOrder) <==> !inOrder)
      && (ReasonOf(quality) == Some(OldLocation) <==> inOrder && !recent)
      && (ReasonOf(quality) == Some(PoorGps) <==> inOrder && recent && !accurate)
      && (quality.Grace? <==> inOrder && !(recent && accurate) && badUpdates < policy.graceUpdates)
  {
    var age := now - candidate.timestamp;
    assert WholeSeconds(age) > Min(policy.oldThresholdSeconds, I64_MAX)
        <==> candidate.timestamp <= FreshAfter(policy, now);
  }

  /** With a threshold of 120 seconds, a location 120.9 seconds old is still good; at 121 seconds
      it is old. */
  lemma AgeIsTruncated(now: Instant, here: Coordinates)
    requires now - Seconds(121) >= MIN_UTC
    ensures
      var policy := Policy(100.0, 120, 2);
      var younger := Sample(here, Some(5.0), now - 120_900_000_000, Apple, false);
      var older := younger.(timestamp := now - Seconds(121));
      && Evaluate(policy, None, younger, now, 0) == Ok(Good)
      && Evaluate(policy, None, older, now, 0) == Ok(Grace(OldLocation))
  {
  }

  function Rank(quality: LocationQuality): nat {
    if quality.Good? then 0 else if quality.Grace? then 1 else 2
  }

  /** A sample that is newer, more accurate, and comes after fewer bad ones is never judged worse. */
  lemma BetterIsNoWorse(policy: Policy, previous: Option<Sample>, worse: Sample, better: Sample, now: Instant,
                        badUpdates: nat, fewer: nat)
    requires Evaluate(policy, previous, worse, now, badUpdates).Ok?
    requires worse.timestamp <= better.timestamp && (better.isOld ==> worse.isOld) && fewer <= badUpdates
    requires worse.accuracyMeters.Some? ==>
               better.accuracyMeters.Some? && 0.0 <= better.accuracyMeters.value <= worse.accuracyMeters.value
    requires ValidAccuracy(better)
    ensures Evaluate(policy, previous, better, now, fewer).Ok?
    ensures
      Rank(Evaluate(policy, previous, better, now, fewer).value)
        <= Rank(Evaluate(policy, previous, worse, now, badUpdates).value)
  {
    VerdictExactly(policy, previous, worse, now, badUpdates);
    VerdictExactly(policy, previous, better, now, fewer);
  }

  // ---- external samples ----

  datatype ExternalReason = Stale | ExternalPoorGps | Duplicate

  datatype Decision = Accept(sample: Sample) | Reject(reason: ExternalReason)

  datatype ExternalPolicy = ExternalPolicy(gpsThresholdMeters: real, minimumNewerBySeconds: int)

  const MINIMUM_NEWER_BY_SECONDS: int := 5

  function Arbitrate(policy: ExternalPolicy, current: Option<Sample>, update: Sample): Result<Decision, TrackingError> {
    if policy.gpsThresholdMeters < 0.0 || policy.minimumNewerBySeconds < 0 || !ValidAccuracy(update) then
      Err(InvalidInput("external arbitration thresholds must be non-negative"))
    else if PoorFix(update, policy.gpsThresholdMeters) then Ok(Reject(ExternalPoorGps))
    else
      match current
      case None => Ok(Accept(update))
      case Some(selected) =>
        var delta := update.timestamp - selected.timestamp;
        if delta == 0 && update.coordinates == selected.coordinates then Ok(Reject(Duplicate))
        else if WholeSeconds(delta) <= policy.minimumNewerBySeconds then Ok(Reject(Stale))
        else Ok(Accept(update))
  }

  /** The arbiter lets a sample through exactly when it is accurate enough and, if there is a
      current location, at least one whole second beyond the margin newer. It refuses the others
      as inaccurate, as the very location already known, or else as stale. */
  lemma AcceptedExactly(policy: ExternalPolicy, current: Option<Sample>, update: Sample)
    ensures
      Arbitrate(policy, current, update).Ok?
      <==> policy.gpsThresholdMeters >= 0.0 && policy.minimumNewerBySeconds >= 0
           && (update.accuracyMeters.Some? ==> update.accuracyMeters.value >= 0.0)
    ensures
      Arbitrate(policy, current, update).Ok? ==>
        var decision := Arbitrate(policy, current, update).value;
        var accurate := update.accuracyMeters.Some? && update.accuracyMeters.value <= policy.gpsThresholdMeters;
        var fresher :=
          current.Some? ==> update.timestamp >= current.value.timestamp + Seconds(policy.minimumNewerBySeconds + 1);
        var known :=
          current.Some? && update.timestamp == current.value.timestamp
          && update.coordinates == current.value.coordinates;
        && (decision == Accept(update) <==> accurate && fresher)
        && (decision == Reject(ExternalPoorGps) <==> !accurate)
        && (decision == Reject(Duplicate) <==> accurate && known)
        && (decision == Reject(Stale) <==> accurate && !fresher && !known)
  {
  }

  /** What the arbiter lets through, the quality policy never refuses for its order or its
      accuracy; only its age can still count against it. */
  lemma ArbitratedOnlyFailsOnAge(policy: ExternalPolicy, quality: Policy, current: Option<Sample>, update: Sample,
                                 now: Instant, badUpdates: nat)
    requires policy.gpsThresholdMeters == quality.gpsThresholdMeters
    requires Arbitrate(policy, current, update) == Ok(Accept(update))
    ensures Evaluate(quality, current, update, now, badUpdates).Ok?
    ensures
      match Evaluate(quality, current, update, now, badUpdates).value
      case Good => true
      case Grace(reason) => reason == OldLocation
      case Rejected(reason) => reason == OldLocation
  {
    AcceptedExactly(policy, current, update);
  }

  // ---- the dynamic age threshold ----

  datatype OldLocationContext = OldLocationContext(
    approachingTrackedZone: bool, oldLocationCount: nat, trackedIntervalSeconds: seq<nat>, inZone: bool,
    distanceFromZoneKm: real, passThroughTimerActive: bool, configuredMaximumSeconds: Option<nat>,
    adjustmentSeconds: int)

  function Shortest(intervals: seq<nat>): nat {
    if intervals == [] then 120
    else if |intervals| == 1 then intervals[0]
    else Min(intervals[0], Shortest(intervals[1..]))
  }

  function Share(seconds: nat, factor: real): int {
    (seconds as real * factor).Floor
  }

  function Clamp(n: int, low: int, high: int): int {
    Max(low, Min(n, high))
  }

  function UnclampedThreshold(c: OldLocationContext, interval: nat): int {
    if c.inZone then Max(Share(interval, 0.025), 120)
    else if c.distanceFromZoneKm > 5.0 then 180
    else if interval < 90 then 60
    else Share(interval, 0.125)
  }

  function BaseThreshold(c: OldLocationContext, interval: nat): int {
    if c.approachingTrackedZone && c.oldLocationCount <= 4 then 30
    else
      var threshold := if c.passThroughTimerActive then 15 else Clamp(UnclampedThreshold(c, interval), 60, 600);
      if c.configuredMaximumSeconds.Some? then Min(threshold, c.configuredMaximumSeconds.value) else threshold
  }

  function OldLocationThreshold(c: OldLocationContext): Result<nat, TrackingError> {
    if c.distanceFromZoneKm < 0.0 then Err(InvalidInput("distance from zone must be non-negative"))
    else Ok(Clamp(BaseThreshold(c, Shortest(c.trackedIntervalSeconds)) + c.adjustmentSeconds, 0, U64_MAX))
  }

  lemma ShareMonotone(a: nat, b: nat, factor: real)
    requires a <= b && factor >= 0.0
    ensures Share(a, factor) <= Share(b, factor)
  {
    assert a as real * factor <= b as real * factor;
  }

  /** Before the configured adjustment the threshold is 15 while a zone is being confirmed, 30
      on approach, and otherwise between one and ten minutes, capped by the configuration; and a
      device polled more rarely is never held to a stricter age. */
  lemma ThresholdShape(c: OldLocationContext, longer: seq<nat>)
    requires c.distanceFromZoneKm >= 0.0 && Shortest(c.trackedIntervalSeconds) <= Shortest(longer)
    ensures
      var base := BaseThreshold(c, Shortest(c.trackedIntervalSeconds));
      var maximum := c.configuredMaximumSeconds.GetOr(600);
      if c.approachingTrackedZone && c.oldLocationCount <= 4 then base == 30
      else if c.passThroughTimerActive then base == Min(15, maximum)
      else Min(60, maximum) <= base <= Min(600, maximum)
    ensures OldLocationThreshold(c).value <= OldLocationThreshold(c.(trackedIntervalSeconds := longer)).value
  {
    ShareMonotone(Shortest(c.trackedIntervalSeconds), Shortest(longer), 0.025);
    ShareMonotone(Shortest(c.trackedIntervalSeconds), Shortest(longer), 0.125);
  }

  /** The value, or the nearer end of the range. */
  function Between(low: int, n: int, high: int): int
    requires low <= high
  {
    if n < low then low else if n > high then high else n
  }

  lemma SharesAreQuotients(seconds: nat)
    ensures Share(seconds, 0.125) == seconds / 8 && Share(seconds, 0.025) == seconds / 40
  {
    var eighths, fortieths := seconds / 8, seconds / 40;
    assert seconds as real == 8.0 * eighths as real + (seconds % 8) as real;
    assert seconds as real == 40.0 * fortieths as real + (seconds % 40) as real;
  }

  lemma {:induction false} ShortestIsLeast(intervals: seq<nat>)
    requires intervals != []
    ensures Shortest(intervals) in intervals && forall i | i in intervals :: Shortest(intervals) <= i
  {
    assert intervals == [intervals[0]] + intervals[1..];
    if |intervals| > 1 {
      ShortestIsLeast(intervals[1..]);
    }
  }

  /** The age a location may have: half a minute on approach while few locations were old, a
      quarter of a minute while a zone is being confirmed, and otherwise a fortieth of the shortest
      interval in a zone, three minutes far out, and an eighth of that interval in between, within
      bounds, never over the configured maximum; then the configured adjustment. */
  lemma ThresholdExactly(c: OldLocationContext, shortest: nat)
    requires c.distanceFromZoneKm >= 0.0
    requires if c.trackedIntervalSeconds == [] then shortest == 120
             else shortest in c.trackedIntervalSeconds && forall i | i in c.trackedIntervalSeconds :: shortest <= i
    ensures
      var age :=
        if c.passThroughTimerActive then 15
        else if c.inZone then Between(120, shortest / 40, 600)
        else if c.distanceFromZoneKm > 5.0 then 180
        else Between(60, shortest / 8, 600);
      var base :=
        if c.approachingTrackedZone && c.oldLocationCount <= 4 then 30
        else if c.configuredMaximumSeconds.Some? then Min(age, c.configuredMaximumSeconds.value)
        else age;
      OldLocationThreshold(c) == Ok(Between(0, base + c.adjustmentSeconds, U64_MAX))
  {
    SharesAreQuotients(shortest);
    if c.trackedIntervalSeconds != [] {
      ShortestIsLeast(c.trackedIntervalSeconds);
    }
  }
}
