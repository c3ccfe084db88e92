// The interval policy read as a table: which situation decides, with how many seconds and for
// what reason, and when a later layer replaces that choice.
module IntervalSituations {
  import opened Core
  import opened Interval

  // ---- the elementary tables ----

  /** The retry intervals in order; they last two failures each up to the third, then four. */
  const RETRIES: seq<nat> := [5, 15, 30, 60, 300, 900, 1800, 3600]

  lemma RetriesExactly(errorCount: nat)
    ensures RetrySeconds(errorCount) == RETRIES[if errorCount < 4 then errorCount / 2 else Min(errorCount / 4 + 1, 7)]
  {
    assert errorCount >= 24 <==> errorCount / 4 >= 6;
  }

  /** The whole number nearest to a value, the even one of two. */
  predicate Nearest(value: real, n: int) {
    && -0.5 <= value - n as real <= 0.5
    && (value - n as real == 0.5 || value - n as real == -0.5 ==> n % 2 == 0)
  }

  lemma NearestExactly(value: real)
    ensures Nearest(value, RoundTiesEven(value))
  {
  }

  /** With a known direction the wait grows in steps up to 40 km; from there on it is a minute for
      every two miles, and beyond 150 km an hour. */
  lemma DistanceExactly(d: real, direction: Direction, wentBeyondThreeKm: bool)
    requires d >= 0.0
    ensures
      var seconds := DistanceSeconds(d, direction, wentBeyondThreeKm);
      && (direction.Unknown? ==> seconds == 150)
      && (!direction.Unknown? ==>
            && (d < 2.0 ==> seconds == if wentBeyondThreeKm then 15 else 60)
            && (2.0 <= d < 3.5 ==> seconds == 90)
            && (3.5 <= d < 5.0 ==> seconds == 120)
            && (5.0 <= d < 8.0 ==> seconds == 180)
            && (8.0 <= d < 12.0 ==> seconds == 300)
            && (12.0 <= d < 20.0 ==> seconds == 600)
            && (20.0 <= d < 40.0 ==> seconds == 900)
            && (40.0 <= d <= 150.0 ==> exists n :: Nearest(d * 0.621371 / 2.0, n) && seconds == 60 * n)
            && (d > 150.0 ==> seconds == 3600))
  {
    if 40.0 <= d <= 150.0 {
      var n := RoundTiesEven(HalfMiles(d));
      assert HalfMiles(d) == d * 0.621371 / 2.0;
      NearestExactly(HalfMiles(d));
      assert DistanceSeconds(d, direction, wentBeyondThreeKm) == if direction.Unknown? then 150 else 60 * n;
    }
  }

  // ---- the situations ----

  /** Nothing more urgent than distance and direction: the same zone as before, and a good, recent
      fix that no exit trigger has overtaken. */
  predicate Undisturbed(c: Context) {
    !c.stateChanged && !c.externalExitTriggerRecent && !c.gpsPoor && !c.locationOld
  }

  predicate Low(c: Context) {
    c.batteryPercent.Some? && c.batteryPercent.value <= 10
  }

  predicate NearlyEmpty(c: Context) {
    c.batteryPercent.Some? && c.batteryPercent.value <= 5
  }

  function Travel(c: Context): nat {
    if c.wazeTravelSeconds.Some? then c.wazeTravelSeconds.value else 0
  }

  /** The device stays: it is in a zone and close to its center, or would need less time to travel
      than the zone's interval. */
  predicate Stays(c: Context) {
    c.inZone && (c.distanceKm < 0.05 || c.inZoneIntervalSeconds > Travel(c))
  }

  /** Undisturbed, and not saving a low battery far from home. */
  predicate Roaming(c: Context) {
    Undisturbed(c) && !(Low(c) && c.distanceKm > 1.0)
  }

  /** When a reason is the one for the base choice. */
  predicate Because(c: Context, reason: Reason) {
    var badFix := c.locationOld || c.gpsPoor;
    match reason
    case OldLocation =>
      if c.stateChanged then c.inZone && badFix else !c.externalExitTriggerRecent && !c.gpsPoor && c.locationOld
    case PoorGps => !c.stateChanged && !c.externalExitTriggerRecent && c.gpsPoor
    case EnterZone => c.stateChanged && c.inZone && !badFix && !c.inStationaryZone
    case ExitZone => c.stateChanged && !c.inZone && c.wasInZone && !Low(c)
    case ZoneChange =>
      c.stateChanged && !Low(c) && if c.inZone then c.inStationaryZone && !badFix else !c.wasInZone
    case LowBattery =>
      && Low(c)
      && if c.stateChanged then c.inZone ==> c.inStationaryZone && !badFix else Undisturbed(c) && c.distanceKm > 1.0
    case ExternalExitTrigger => !c.stateChanged && c.externalExitTriggerRecent
    case AtHome => Undisturbed(c) && c.distanceKm < 0.05 && (c.inZone || c.direction.Towards?)
    case WithinZone => Roaming(c) && c.inZone && c.distanceKm >= 0.05 && c.inZoneIntervalSeconds > Travel(c)
    case NeedInformation => Roaming(c) && !Stays(c) && c.direction.Unknown?
    case AwayCloseToZone =>
      Roaming(c) && !Stays(c) && c.direction.AwayFrom? && c.distanceKm < 2.0 && Travel(c) > 0
    case TravelTime =>
      Roaming(c) && !Stays(c) && !c.direction.Unknown? && c.distanceKm >= 3.5 && Travel(c) > 300
    case Distance =>
      && Roaming(c) && !Stays(c) && !c.direction.Unknown?
      && (c.distanceKm < 0.05 ==> !c.direction.Towards?)
      && (c.direction.AwayFrom? && c.distanceKm < 2.0 ==> Travel(c) == 0)
      && (c.distanceKm >= 3.5 ==> Travel(c) <= 300)
    case StationaryZone => false
    case Fixed => false
    case Maximum => false
  }

  /** The wait a reason stands for. */
  function SecondsFor(c: Context, reason: Reason): nat
    requires ValidContext(c)
  {
    match reason
    case OldLocation => RetrySeconds(c.errorCount)
    case PoorGps => RetrySeconds(c.errorCount)
    case EnterZone => c.inZoneIntervalSeconds
    case AtHome => c.inZoneIntervalSeconds
    case WithinZone => c.inZoneIntervalSeconds
    case ExitZone => c.exitZoneIntervalSeconds
    case ExternalExitTrigger => c.exitZoneIntervalSeconds
    case ZoneChange => 240
    case NeedInformation => 150
    case LowBattery =>
      if c.stateChanged && NearlyEmpty(c) && c.distanceKm <= 1.0 then 15 else c.stationaryIntervalSeconds
    case AwayCloseToZone => c.oldLocationThresholdSeconds
    case TravelTime => Scaled(Travel(c), c.travelTimeFactor)
    case _ => DistanceSeconds(c.distanceKm, c.direction, c.wentBeyondThreeKm)
  }

  /** Exactly one reason applies to the base choice, and it decides the wait. */
  lemma BaseExactly(c: Context, reason: Reason)
    requires ValidContext(c)
    ensures BaseDecision(c).reason == reason <==> Because(c, reason)
    ensures BaseDecision(c).seconds == SecondsFor(c, BaseDecision(c).reason)
  {
  }

  // ---- the later layers ----

  /** The wait once the layers for the direction and for external updates have had their say. */
  ghost predicate Adjusted(c: Context, chosen: nat, wait: nat) {
    var doubled :=
      c.direction.AwayFrom? && c.distanceKm >= 3.0 && !c.wazeEnabled && c.fixedIntervalSeconds == 0 && chosen > 60;
    var turned :=
      if doubled then Min(2 * chosen, U64_MAX) else if c.direction.Unknown? then Min(chosen, 180) else chosen;
    wait == if c.externalUpdate && 30 < turned < 180 then 180 else turned
  }

  predicate GoodAndOutside(c: Context) {
    !c.inZone && c.locationGood && !c.offline && !c.passThroughTimerActive
  }

  /** The travel time known for a device on the road cuts a wait short. */
  predicate CutShort(c: Context, wait: nat)
    requires c.travelTimeFactor > 0.0
  {
    && (c.direction.AwayFrom? || c.direction.Towards?) && Travel(c) > 0
    && wait > Scaled(Travel(c), c.travelTimeFactor * 1.5)
  }

  /** Why the wait is what it is before the travel time is looked at. */
  ghost predicate Overrides(c: Context, wait: nat, reason: Reason, final: Decision) {
    if c.inStationaryZone then
      final == Decision(if c.stationaryZoneIsSmall then 300 else c.stationaryIntervalSeconds, StationaryZone)
    else if GoodAndOutside(c) && c.fixedIntervalSeconds >= 300 && wait > 300 then
      final == Decision(c.fixedIntervalSeconds, Fixed)
    else if GoodAndOutside(c) && wait > c.maximumIntervalSeconds then
      final == Decision(c.maximumIntervalSeconds, Maximum)
    else final == Decision(wait, reason)
  }

  /** The largest multiple of five that is not above the wait, but at least five. */
  predicate InFives(wait: nat, seconds: nat) {
    seconds % 5 == 0 && seconds >= 5 && (if wait < 5 then seconds == 5 else seconds <= wait < seconds + 5)
  }

  /** A travel time scaled by a factor is the whole number of seconds not above the product. */
  lemma ScaledExactly(seconds: nat, factor: real)
    requires factor >= 0.0
    ensures Scaled(seconds, factor) as real <= seconds as real * factor < Scaled(seconds, factor) as real + 1.0
  {
  }

  lemma FivesExactly(wait: nat)
    ensures InFives(wait, RoundedDown(wait))
  {
  }

  lemma AdjustedExactly(c: Context, chosen: nat)
    ensures Adjusted(c, chosen, ExternallyAdjusted(c, DirectionAdjusted(c, chosen)))
  {
  }

  lemma OverridesExactly(c: Context, wait: nat, reason: Reason)
    ensures Overrides(c, wait, reason, Overridden(c, Decision(wait, reason)))
  {
  }

  /** A decision is made exactly when distances, factor and intervals are in range. It is then that
      of the reason that applies, adjusted, overridden, cut short by the travel time and put into
      fives as the layers say. */
  lemma DecidedExactly(c: Context) returns (reason: Reason, wait: nat, final: Decision)
    ensures
      Decide(c).Ok?
      <==> c.distanceKm >= 0.0 && c.travelTimeFactor > 0.0 && c.inZoneIntervalSeconds >= 1
           && c.stationaryIntervalSeconds >= 1 && c.exitZoneIntervalSeconds >= 1 && c.maximumIntervalSeconds >= 1
    ensures
      Decide(c).Ok? ==>
        && Because(c, reason)
        && Adjusted(c, SecondsFor(c, reason), wait)
        && Overrides(c, wait, reason, final)
        && if CutShort(c, final.seconds) then
             && Decide(c).value.reason == TravelTime
             && InFives(Scaled(Travel(c), c.travelTimeFactor), Decide(c).value.seconds)
           else
             Decide(c).value.reason == final.reason && InFives(final.seconds, Decide(c).value.seconds)
  {
    reason, wait, final := Distance, 0, Decision(0, Distance);
    if Decide(c).Ok? {
      reason := BaseDecision(c).reason;
      BaseExactly(c, reason);
      wait := ExternallyAdjusted(c, DirectionAdjusted(c, BaseDecision(c).seconds));
      AdjustedExactly(c, BaseDecision(c).seconds);
      final := Overridden(c, Decision(wait, reason));
      OverridesExactly(c, wait, reason);
      FivesExactly(TravelCapped(c, final).seconds);
    }
  }
}
