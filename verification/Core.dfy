// Values and conventions shared by every module: results, time in nanoseconds,
// machine-integer limits, coordinates with an abstract distance, and the events
// that the tracker emits.
module Core {

  datatype Option<+T> = None | Some(value: T) {
    function GetOr(fallback: T): T {
      match this
      case Some(v) => v
      case None => fallback
    }
  }

  datatype Result<+T, +E> = Ok(value: T) | Err(error: E)

  datatype TrackingError =
    | InvalidInput(message: string)
    | DuplicateZone(zoneId: string)

  // ---- machine integers ----

  const U32_MAX: nat := 0xFFFF_FFFF
  const U64_MAX: nat := 0xFFFF_FFFF_FFFF_FFFF
  const I64_MAX: nat := 0x7FFF_FFFF_FFFF_FFFF

  function Min(a: int, b: int): int { if a <= b then a else b }

  function Max(a: int, b: int): int { if a >= b then a else b }

  /** `u32::saturating_add(1)`. */
  function IncrementU32(n: nat): nat { Min(n + 1, U32_MAX) }

  // ---- time ----

  const NANOS: int := 1_000_000_000

  /** The earliest instant of the calendar library, used by the scheduler as "never set". */
  const MIN_UTC: int := -8_334_601_228_800 * NANOS

  /** An instant in nanoseconds since the Unix epoch. */
  type Instant = t: int | MIN_UTC <= t witness 0

  /** A duration of `n` seconds in nanoseconds. */
  function Seconds(n: int): int { n * NANOS }

  /** A duration read from an unsigned configuration value, clamped to the signed range. */
  function ConfiguredSeconds(n: nat): nat { Min(n, I64_MAX) * NANOS }

  /** Whole seconds of a duration, truncated toward zero. */
  function WholeSeconds(d: int): int {
    if d >= 0 then d / NANOS else -((-d) / NANOS)
  }

  // ---- geography ----

  datatype Coordinates = Coordinates(latitude: real, longitude: real)

  /** Great-circle distance in meters is a parameter of everything that needs it. */
  type Metric = (Coordinates, Coordinates) -> real

  ghost predicate IsMetric(dist: Metric) {
    forall a: Coordinates, b: Coordinates :: dist(a, b) == dist(b, a) && dist(a, b) >= 0.0
  }

  // ---- events ----

  datatype TrackingEvent =
    | ZoneEntered(deviceId: string, zoneId: string)
    | ZoneExited(deviceId: string, zoneId: string)
    | StationaryZoneCreated(zoneId: string, deviceId: string)
    | StationaryZoneMoved(zoneId: string, deviceId: string)
    | StationaryZoneRemoved(zoneId: string)

  // ---- searching a list ----

  /** Index of the first element satisfying `f`, as `Iterator::position` finds it. */
  function Position<T>(s: seq<T>, f: T -> bool): (r: Option<nat>)
    ensures r.Some? ==> r.value < |s| && f(s[r.value]) && forall i | 0 <= i < r.value :: !f(s[i])
    ensures r.None? ==> forall i | 0 <= i < |s| :: !f(s[i])
  {
    if s == [] then None
    else if f(s[0]) then Some(0)
    else
      match Position(s[1..], f)
      case Some(i) =>
        assert forall k | 0 < k <= i :: s[k] == s[1..][k - 1];
        Some(i + 1)
      case None =>
        assert forall k | 0 < k < |s| :: s[k] == s[1..][k - 1];
        None
  }

  /** There is only one first element satisfying `f`. */
  lemma {:induction false} PositionUnique<T>(s: seq<T>, f: T -> bool, r: Option<nat>)
    requires r.Some? ==> r.value < |s| && f(s[r.value]) && forall i | 0 <= i < r.value :: !f(s[i])
    requires r.None? ==> forall i | 0 <= i < |s| :: !f(s[i])
    ensures r == Position(s, f)
  {
    var found := Position(s, f);
    assert r.Some? && found.Some? ==> !(r.value < found.value) && !(found.value < r.value);
  }
}
