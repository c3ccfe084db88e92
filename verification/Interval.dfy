// How long to wait before a device is polled again: a base choice from state, quality,
// battery, zone and distance, then layers that adjust, override, cap and round it.
module Interval {
  import opened Core

  datatype Direction = Towards | AwayFrom | Stationary | InZone | FarAway | Unknown

  datatype Reason =
    | EnterZone | ExitZone | ZoneChange | ExternalExitTrigger | OldLocation | PoorGps | LowBattery | AtHome
    | WithinZone | NeedInformation | AwayCloseToZone | Distance | TravelTime | StationaryZone | Fixed | Maximum

  datatype Decision = Decision(seconds: nat, reason: Reason)

  datatype Context = Context(
    stateChanged: bool, inZone: bool, wasInZone: bool, inStationaryZone: bool, stationaryZoneIsSmall: bool,
    externalExitTriggerRecent: bool, externalUpdate: bool, locationOld: bool, gpsPoor: bool, locationGood: bool,
    offline: bool, passThroughTimerActive: bool, batteryPercent: Option<nat>, distanceKm: real,
    direction: Direction, wentBeyondThreeKm: bool, wazeEnabled: bool, wazeTravelSeconds: Option<nat>,
    travelTimeFactor: real, inZoneIntervalSeconds: nat, stationaryIntervalSeconds: nat,
    exitZoneIntervalSeconds: nat, oldLocationThresholdSeconds: nat, fixedIntervalSeconds: nat,
    maximumIntervalSeconds: nat, errorCount: nat)

  // ---- the elementary intervals ----

  function RetrySeconds(errorCount: nat): nat {
    if errorCount <= 1 then 5
    else if errorCount <= 3 then 15
    else if errorCount <= 7 then 30
    else if errorCount <= 11 then 60
    else if errorCount <= 15 then 300
    else if errorCount <= 19 then 900
    else if errorCount <= 23 then 1800
    else 3600
  }

  function OfflineSeconds(locationAgeSeconds: nat): nat {
    if locationAgeSeconds > 3600 then 3600
    else if locationAgeSeconds > 1800 then 1800
    else if locationAgeSeconds > 180 then 300
    else 180
  }

  function RoundTiesEven(x: real): int {
    var below := x.Floor;
    var rest := x - below as real;
    if rest < 0.5 then below
    else if rest > 0.5 then below + 1
    else if below % 2 == 0 then below
    else below + 1
  }

  function HalfMiles(distanceKm: real): real {
    distanceKm * 0.621371 * 0.5
  }

  function CalculatedSeconds(distanceKm: real): nat
    requires distanceKm >= 0.0
  {
    RoundTiesEven(HalfMiles(distanceKm)) * 60
  }

  function DistanceSeconds(distanceKm: real, direction: Direction, wentBeyondThreeKm: bool): nat
    requires distanceKm >= 0.0
  {
    if direction.Unknown? then 150
    else if distanceKm < 2.0 && wentBeyondThreeKm then 15
    else if distanceKm < 2.0 then 60
    else if distanceKm < 3.5 then 90
    else if distanceKm < 5.0 then 120
    else if distanceKm < 8.0 then 180
    else if distanceKm < 12.0 then 300
    else if distanceKm < 20.0 then 600
    else if distanceKm < 40.0 then 900
    else if distanceKm > 150.0 then 3600
    else CalculatedSeconds(distanceKm)
  }

  /** A travel time scaled by a factor, in whole seconds. */
  function Scaled(seconds: nat, factor: real): nat
    requires factor >= 0.0
  {
    var product := seconds as real * factor;
    assert product >= 0.0;
    product.Floor
  }

  lemma RetryGrows(a: nat, b: nat)
    requires a <= b
    ensures 5 <= RetrySeconds(a) <= RetrySeconds(b) <= 3600
  {
  }

  lemma RoundMonotone(x: real, y: real)
    requires x <= y
    ensures RoundTiesEven(x) <= RoundTiesEven(y)
  {
  }

  /** A farther device is polled no sooner, with one exception: from just under 40 km, where the
      fixed step of 900 seconds ends, to distances whose computed interval is shorter still. */
  lemma FartherPollsLaterExactly(near: real, far: real, direction: Direction, wentBeyondThreeKm: bool)
    requires 0.0 <= near <= far && !direction.Unknown?
    ensures
      DistanceSeconds(near, direction, wentBeyondThreeKm) <= DistanceSeconds(far, direction, wentBeyondThreeKm)
      <==> !(20.0 <= near < 40.0 <= far && HalfMiles(far) <= 14.5)
  {
    RoundMonotone(HalfMiles(near), HalfMiles(far));
    assert far >= 40.0 ==> HalfMiles(far) > 12.0 && RoundTiesEven(HalfMiles(far)) >= 12;
    assert far <= 150.0 ==> HalfMiles(far) < 47.0 && RoundTiesEven(HalfMiles(far)) <= 47;
    assert far > 150.0 ==> HalfMiles(far) > 14.5;
  }

  /** One kilometer farther, and the device is polled three minutes sooner. */
  lemma FartherPollsSooner()
    ensures DistanceSeconds(39.0, AwayFrom, false) == 900 && DistanceSeconds(40.0, AwayFrom, false) == 720
  {
    assert HalfMiles(40.0) == 12.42742;
  }

  // ---- the layers ----

  predicate ValidContext(c: Context) {
    c.distanceKm >= 0.0 && c.travelTimeFactor > 0.0 && c.inZoneIntervalSeconds > 0
    && c.stationaryIntervalSeconds > 0 && c.exitZoneIntervalSeconds > 0 && c.maximumIntervalSeconds > 0
  }

  predicate BatteryAtMost(c: Context, percent: nat) {
    c.batteryPercent.Some? && c.batteryPercent.value <= percent
  }

  function WazeSeconds(c: Context): nat {
    c.wazeTravelSeconds.GetOr(0)
  }

  predicate Moving(c: Context) {
    c.direction.AwayFrom? || c.direction.Towards?
  }

  function ChangedDecision(c: Context): Decision {
    if c.inZone && (c.locationOld || c.gpsPoor) then Decision(RetrySeconds(c.errorCount), OldLocation)
    else if c.inZone && !c.inStationaryZone then Decision(c.inZoneIntervalSeconds, EnterZone)
    else if BatteryAtMost(c, 5) && c.distanceKm <= 1.0 then Decision(15, LowBattery)
    else if BatteryAtMost(c, 10) then Decision(c.stationaryIntervalSeconds, LowBattery)
    else if !c.inZone && c.wasInZone then Decision(c.exitZoneIntervalSeconds, ExitZone)
    else Decision(240, ZoneChange)
  }

  function BaseDecision(c: Context): Decision
    requires ValidContext(c)
  {
    if c.stateChanged then ChangedDecision(c)
    else if c.externalExitTriggerRecent then Decision(c.exitZoneIntervalSeconds, ExternalExitTrigger)
    else if c.gpsPoor then Decision(RetrySeconds(c.errorCount), PoorGps)
    else if c.locationOld then Decision(RetrySeconds(c.errorCount), OldLocation)
    else if BatteryAtMost(c, 10) && c.distanceKm > 1.0 then Decision(c.stationaryIntervalSeconds, LowBattery)
    else if c.distanceKm < 0.05 && (c.inZone || c.direction.Towards?) then Decision(c.inZoneIntervalSeconds, AtHome)
    else if c.inZone && c.inZoneIntervalSeconds > WazeSeconds(c) then Decision(c.inZoneIntervalSeconds, WithinZone)
    else if c.direction.Unknown? then Decision(150, NeedInformation)
    else if c.distanceKm < 2.0 && c.direction.AwayFrom? && WazeSeconds(c) > 0 then
      Decision(c.oldLocationThresholdSeconds, AwayCloseToZone)
    else if c.distanceKm >= 3.5 && WazeSeconds(c) > 300 then
      Decision(Scaled(WazeSeconds(c), c.travelTimeFactor), TravelTime)
    else Decision(DistanceSeconds(c.distanceKm, c.direction, c.wentBeyondThreeKm), Distance)
  }

  /** Doubles the wait of a device driving away, and shortens it while the direction is unknown. */
  function DirectionAdjusted(c: Context, seconds: nat): nat {
    if c.direction.AwayFrom? && c.distanceKm >= 3.0 && !c.wazeEnabled && c.fixedIntervalSeconds == 0
      && seconds > 60 then
      Min(seconds * 2, U64_MAX)
    else if c.direction.Unknown? && seconds > 180 then 180
    else seconds
  }

  function ExternallyAdjusted(c: Context, seconds: nat): nat {
    if c.externalUpdate && 31 <= seconds < 180 then 180 else seconds
  }

  predicate SettledOutside(c: Context) {
    !c.inZone && c.locationGood && !c.offline && !c.passThroughTimerActive
  }

  function Overridden(c: Context, d: Decision): Decision {
    if c.inStationaryZone then
      Decision(if c.stationaryZoneIsSmall then 300 else c.stationaryIntervalSeconds, StationaryZone)
    else if c.fixedIntervalSeconds >= 300 && d.seconds > 300 && SettledOutside(c) then
      Decision(c.fixedIntervalSeconds, Fixed)
    else if d.seconds > c.maximumIntervalSeconds && SettledOutside(c) then Decision(c.maximumIntervalSeconds, Maximum)
    else d
  }

  function TravelCapped(c: Context, d: Decision): Decision
    requires ValidContext(c)
  {
    if Moving(c) && WazeSeconds(c) > 0 && d.seconds > Scaled(WazeSeconds(c), c.travelTimeFactor * 1.5) then
      Decision(Scaled(WazeSeconds(c), c.travelTimeFactor), TravelTime)
    else d
  }

  function RoundedDown(seconds: nat): nat {
    Max(seconds / 5 * 5, 5)
  }

  /** The decision before rounding. */
  function Layered(c: Context): Decision
    requires ValidContext(c)
  {
    var base := BaseDecision(c);
    var adjusted := ExternallyAdjusted(c, DirectionAdjusted(c, base.seconds));
    TravelCapped(c, Overridden(c, Decision(adjusted, base.reason)))
  }

  function Decide(c: Context): Result<Decision, TrackingError> {
    if !ValidContext(c) then Err(InvalidInput("tracking interval context contains invalid distances or intervals"))
    else Ok(Decision(RoundedDown(Layered(c).seconds), Layered(c).reason))
  }

  /** The first layer: the branches in the order in which they are tried. */
  method ChooseBase(c: Context) returns (seconds: nat, reason: Reason)
    requires ValidContext(c)
    ensures Decision(seconds, reason) == BaseDecision(c)
  {
    var retry := RetrySeconds(c.errorCount);
    var wazeSeconds := c.wazeTravelSeconds.GetOr(0);
    if c.stateChanged {
      if c.inZone && (c.locationOld || c.gpsPoor) {
        seconds, reason := retry, OldLocation;
      } else if c.inZone && !c.inStationaryZone {
        seconds, reason := c.inZoneIntervalSeconds, EnterZone;
      } else if BatteryAtMost(c, 5) && c.distanceKm <= 1.0 {
        seconds, reason := 15, LowBattery;
      } else if BatteryAtMost(c, 10) {
        seconds, reason := c.stationaryIntervalSeconds, LowBattery;
      } else if !c.inZone && c.wasInZone {
        seconds, reason := c.exitZoneIntervalSeconds, ExitZone;
      } else {
        seconds, reason := 240, ZoneChange;
      }
    } else if c.externalExitTriggerRecent {
      seconds, reason := c.exitZoneIntervalSeconds, ExternalExitTrigger;
    } else if c.gpsPoor {
      seconds, reason := retry, PoorGps;
    } else if c.locationOld {
      seconds, reason := retry, OldLocation;
    } else if BatteryAtMost(c, 10) && c.distanceKm > 1.0 {
      seconds, reason := c.stationaryIntervalSeconds, LowBattery;
    } else if c.distanceKm < 0.05 && (c.inZone || c.direction.Towards?) {
      seconds, reason := c.inZoneIntervalSeconds, AtHome;
    } else if c.inZone && c.inZoneIntervalSeconds > wazeSeconds {
      seconds, reason := c.inZoneIntervalSeconds, WithinZone;
    } else if c.direction.Unknown? {
      seconds, reason := 150, NeedInformation;
    } else if c.distanceKm < 2.0 && c.direction.AwayFrom? && wazeSeconds > 0 {
      seconds, reason := c.oldLocationThresholdSeconds, AwayCloseToZone;
    } else if c.distanceKm < 3.5 {
      seconds, reason := DistanceSeconds(c.distanceKm, c.direction, c.wentBeyondThreeKm), Distance;
    } else if wazeSeconds > 300 {
      seconds, reason := Scaled(wazeSeconds, c.travelTimeFactor), TravelTime;
    } else {
      seconds, reason := DistanceSeconds(c.distanceKm, c.direction, c.wentBeyondThreeKm), Distance;
    }
  }

  /** The policy as it is computed, each layer reassigning the seconds and the reason. */
  method Determine(c: Context) returns (r: Result<Decision, TrackingError>)
    ensures r == Decide(c)
  {
    if !ValidContext(c) {
      return Err(InvalidInput("tracking interval context contains invalid distances or intervals"));
    }
    var seconds, reason := ChooseBase(c);
    var wazeSeconds := c.wazeTravelSeconds.GetOr(0);

    if c.direction.AwayFrom? && c.distanceKm >= 3.0 && !c.wazeEnabled && c.fixedIntervalSeconds == 0 && seconds > 60 {
      seconds := Min(seconds * 2, U64_MAX);
    } else if c.direction.Unknown? && seconds > 180 {
      seconds := 180;
    }
    if c.externalUpdate && 31 <= seconds < 180 {
      seconds := 180;
    }
    assert seconds == ExternallyAdjusted(c, DirectionAdjusted(c, BaseDecision(c).seconds));

    if c.inStationaryZone {
      seconds := if c.stationaryZoneIsSmall then 300 else c.stationaryIntervalSeconds;
      reason := StationaryZone;
    } else if c.fixedIntervalSeconds >= 300 && seconds > 300 && SettledOutside(c) {
      seconds, reason := c.fixedIntervalSeconds, Fixed;
    } else if seconds > c.maximumIntervalSeconds && SettledOutside(c) {
      seconds, reason := c.maximumIntervalSeconds, Maximum;
    }

    if (c.direction.AwayFrom? || c.direction.Towards?) && wazeSeconds > 0 {
      var upper := Scaled(wazeSeconds, c.travelTimeFactor * 1.5);
      if seconds > upper {
        seconds, reason := Scaled(wazeSeconds, c.travelTimeFactor), TravelTime;
      }
    }
    seconds := Max(seconds / 5 * 5, 5);
    r := Ok(Decision(seconds, reason));
  }

  // ---- bounds through all layers ----

  lemma RoundedDownShape(seconds: nat)
    ensures RoundedDown(seconds) >= 5 && RoundedDown(seconds) % 5 == 0
    ensures RoundedDown(seconds) <= Max(seconds, 5) && seconds - 5 < RoundedDown(seconds)
  {
  }

  /** Every decision is a positive multiple of five seconds. */
  lemma DecisionsAreFives(c: Context)
    requires Decide(c).Ok?
    ensures Decide(c).value.seconds >= 5 && Decide(c).value.seconds % 5 == 0
  {
    RoundedDownShape(Layered(c).seconds);
  }

  /** While the direction is unknown the wait is at most three minutes, unless the device is in
      a stationary zone. */
  lemma UnknownDirectionBound(c: Context)
    requires Decide(c).Ok? && c.direction.Unknown? && !c.inStationaryZone
    ensures Decide(c).value.seconds <= 180
  {
    RoundedDownShape(Layered(c).seconds);
  }

  lemma FloorMonotone(a: real, b: real)
    requires a <= b
    ensures a.Floor <= b.Floor
  {
  }

  lemma ScaledMonotone(seconds: nat, low: real, high: real)
    requires 0.0 <= low <= high
    ensures Scaled(seconds, low) <= Scaled(seconds, high)
  {
    var a, b := seconds as real * low, seconds as real * high;
    assert a <= b;
    FloorMonotone(a, b);
  }

  /** A device on the road with a known travel time is polled before one and a half scaled
      travel times have passed. */
  lemma TravelTimeBound(c: Context)
    requires Decide(c).Ok? && Moving(c) && WazeSeconds(c) > 0
    ensures Decide(c).value.seconds <= Max(5, Scaled(WazeSeconds(c), c.travelTimeFactor * 1.5))
  {
    ScaledMonotone(WazeSeconds(c), c.travelTimeFactor, c.travelTimeFactor * 1.5);
    RoundedDownShape(Layered(c).seconds);
  }

  /** Outside every zone with a good online fix, no timer and no fixed interval, the configured
      maximum holds. */
  lemma MaximumBound(c: Context)
    requires Decide(c).Ok? && SettledOutside(c) && !c.inStationaryZone && c.fixedIntervalSeconds < 300
    ensures Decide(c).value.seconds <= Max(5, c.maximumIntervalSeconds)
  {
    ScaledMonotone(WazeSeconds(c), c.travelTimeFactor, c.travelTimeFactor * 1.5);
    RoundedDownShape(Layered(c).seconds);
  }

  /** A configured fixed interval is what such a device gets, exactly when the base choice after
      adjustment is over five minutes and no travel time cuts it shorter. */
  lemma FixedExactly(c: Context)
    requires Decide(c).Ok? && SettledOutside(c) && !c.inStationaryZone && c.fixedIntervalSeconds >= 300
    ensures
      Decide(c).value == Decision(RoundedDown(c.fixedIntervalSeconds), Fixed)
      <==> ExternallyAdjusted(c, DirectionAdjusted(c, BaseDecision(c).seconds)) > 300
           && (Moving(c) && WazeSeconds(c) > 0 ==>
                 c.fixedIntervalSeconds <= Scaled(WazeSeconds(c), c.travelTimeFactor * 1.5))
  {
  }
}
