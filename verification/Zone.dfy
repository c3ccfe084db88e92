// Configured circular zones: validation, the choice of the smallest zone that
// contains a location, and the closest zone.
module Zones {
  import opened Core
  import opened Order

  datatype Zone = Zone(id: string, latitude: real, longitude: real, radiusMeters: real, passive: bool)

  datatype ZoneDistance = ZoneDistance(zoneId: string, distanceMeters: real)

  datatype Selection = Selection(
    selectedZone: Option<string>, selectedDistanceMeters: Option<real>, distances: seq<ZoneDistance>)

  datatype ZoneSet = ZoneSet(zones: seq<Zone>)

  // ---- validation ----

  predicate IsWhitespace(c: char) {
    var n := c as int;
    9 <= n <= 13 || n == 32 || n == 0x85 || n == 0xA0 || n == 0x1680 || 0x2000 <= n <= 0x200A
    || n == 0x2028 || n == 0x2029 || n == 0x202F || n == 0x205F || n == 0x3000
  }

  predicate IsBlank(s: string) {
    forall i | 0 <= i < |s| :: IsWhitespace(s[i])
  }

  function Center(zone: Zone): Result<Coordinates, TrackingError> {
    if -90.0 <= zone.latitude <= 90.0 && -180.0 <= zone.longitude <= 180.0
    then Ok(Coordinates(zone.latitude, zone.longitude))
    else Err(InvalidInput("coordinates out of range"))
  }

  predicate OnTheMap(zone: Zone) {
    -90.0 <= zone.latitude <= 90.0 && -180.0 <= zone.longitude <= 180.0
  }

  predicate WellFormed(zone: Zone) {
    !IsBlank(zone.id) && Center(zone).Ok? && zone.radiusMeters > 0.0
  }

  predicate UniqueIds(zones: seq<Zone>) {
    forall i, j | 0 <= i < j < |zones| :: zones[i].id != zones[j].id
  }

  /** Accepts exactly the lists of well-formed zones with distinct ids; a refusal names
      the first repeated id if the zones before it are in order. */
  method NewZoneSet(zones: seq<Zone>) returns (r: Result<ZoneSet, TrackingError>)
    ensures
      r.Ok?
      <==> && (forall i, j | 0 <= i < j < |zones| :: zones[i].id != zones[j].id)
           && forall zone | zone in zones ::
                && (exists c | c in zone.id :: !IsWhitespace(c)) && zone.radiusMeters > 0.0
                && OnTheMap(zone)
    ensures r.Ok? ==> r.value == ZoneSet(zones)
    ensures r.Err? && r.error.DuplicateZone? ==>
              exists i, j :: 0 <= i < j < |zones| && zones[i].id == zones[j].id == r.error.zoneId
                             && UniqueIds(zones[..j]) && forall k | 0 <= k < j :: WellFormed(zones[k])
  {
    var ids: set<string> := {};
    for n := 0 to |zones|
      invariant UniqueIds(zones[..n])
      invariant forall k | 0 <= k < n :: WellFormed(zones[k])
      invariant forall id :: id in ids <==> exists k :: 0 <= k < n && zones[k].id == id
    {
      if IsBlank(zones[n].id) {
        return Err(InvalidInput("zone ID cannot be empty"));
      }
      if zones[n].id in ids {
        var i :| 0 <= i < n && zones[i].id == zones[n].id;
        return Err(DuplicateZone(zones[n].id));
      }
      ids := ids + {zones[n].id};
      if Center(zones[n]).Err? {
        return Err(Center(zones[n]).error);
      }
      if zones[n].radiusMeters <= 0.0 {
        return Err(InvalidInput("zone has an invalid radius"));
      }
    }
    assert zones[..|zones|] == zones;
    r := Ok(ZoneSet(zones));
  }

  ghost predicate Valid(zoneSet: ZoneSet) {
    UniqueIds(zoneSet.zones) && forall zone | zone in zoneSet.zones :: WellFormed(zone)
  }

  // ---- the two orders ----

  predicate DistanceLe(left: ZoneDistance, right: ZoneDistance) {
    left.distanceMeters < right.distanceMeters
    || (left.distanceMeters == right.distanceMeters && StringLe(left.zoneId, right.zoneId))
  }

  datatype Candidate = Candidate(zone: Zone, distance: real)

  /** First by radius, then by id. */
  predicate PrecedesOrSame(a: Zone, b: Zone) {
    a.radiusMeters < b.radiusMeters || (a.radiusMeters == b.radiusMeters && StringLe(a.id, b.id))
  }

  predicate CandidateLe(left: Candidate, right: Candidate) {
    PrecedesOrSame(left.zone, right.zone)
  }

  lemma OrdersAreTotal()
    ensures IsTotalPreorder(DistanceLe) && IsTotalPreorder(CandidateLe)
  {
    forall x, y ensures DistanceLe(x, y) || DistanceLe(y, x) {
      StringLeTotal(x.zoneId, y.zoneId);
    }
    forall x, y, z | DistanceLe(x, y) && DistanceLe(y, z) ensures DistanceLe(x, z) {
      if x.distanceMeters == y.distanceMeters == z.distanceMeters {
        StringLeTransitive(x.zoneId, y.zoneId, z.zoneId);
      }
    }
    forall x, y ensures CandidateLe(x, y) || CandidateLe(y, x) {
      StringLeTotal(x.zone.id, y.zone.id);
    }
    forall x, y, z | CandidateLe(x, y) && CandidateLe(y, z) ensures CandidateLe(x, z) {
      if x.zone.radiusMeters == y.zone.radiusMeters == z.zone.radiusMeters {
        StringLeTransitive(x.zone.id, y.zone.id, z.zone.id);
      }
    }
  }

  // ---- selection ----

  function Place(zone: Zone): Coordinates {
    Coordinates(zone.latitude, zone.longitude)
  }

  function IsActive(): Zone -> bool {
    (zone: Zone) => !zone.passive
  }

  function ToDistance(dist: Metric, location: Coordinates): Zone -> ZoneDistance {
    (zone: Zone) => ZoneDistance(zone.id, dist(location, Place(zone)))
  }

  predicate Contains(dist: Metric, zone: Zone, location: Coordinates, allowance: real) {
    dist(location, Place(zone)) <= zone.radiusMeters + allowance
  }

  function IsCandidate(dist: Metric, location: Coordinates, allowance: real): Zone -> bool {
    (zone: Zone) => !zone.passive && Contains(dist, zone, location, allowance)
  }

  function ToCandidate(dist: Metric, location: Coordinates): Zone -> Candidate {
    (zone: Zone) => Candidate(zone, dist(location, Place(zone)))
  }

  /** Half the accuracy radius, in whole meters. */
  function Allowance(accuracy: real): real {
    (accuracy / 2.0).Floor as real
  }

  /** Distances to the active zones, nearest first. */
  function Distances(dist: Metric, zoneSet: ZoneSet, location: Coordinates): seq<ZoneDistance> {
    Sort(Collect(zoneSet.zones, IsActive(), ToDistance(dist, location)), DistanceLe)
  }

  /** The active zones that contain the location, smallest first. */
  function Candidates(dist: Metric, zoneSet: ZoneSet, location: Coordinates, accuracy: real): seq<Candidate> {
    Sort(Collect(zoneSet.zones, IsCandidate(dist, location, Allowance(accuracy)), ToCandidate(dist, location)),
      CandidateLe)
  }

  function Choose(candidates: seq<Candidate>, distances: seq<ZoneDistance>): Selection {
    if candidates == [] then Selection(None, None, distances)
    else Selection(Some(candidates[0].zone.id), Some(candidates[0].distance), distances)
  }

  predicate CentersKnown(zoneSet: ZoneSet) {
    forall zone | zone in zoneSet.zones :: zone.passive || Center(zone).Ok?
  }

  function Select(dist: Metric, zoneSet: ZoneSet, location: Coordinates,
                  accuracy: real): Result<Selection, TrackingError>
  {
    if accuracy < 0.0 then Err(InvalidInput("horizontal accuracy must be non-negative"))
    else if !CentersKnown(zoneSet) then Err(InvalidInput("coordinates out of range"))
    else Ok(Choose(Candidates(dist, zoneSet, location, accuracy), Distances(dist, zoneSet, location)))
  }

  method SelectZone(dist: Metric, zoneSet: ZoneSet, location: Coordinates, accuracy: real)
    returns (r: Result<Selection, TrackingError>)
    ensures r == Select(dist, zoneSet, location, accuracy)
  {
    if accuracy < 0.0 {
      return Err(InvalidInput("horizontal accuracy must be non-negative"));
    }
    var allowance := Allowance(accuracy);
    var zones := zoneSet.zones;
    ghost var active, toDistance := IsActive(), ToDistance(dist, location);
    ghost var keep, toCandidate := IsCandidate(dist, location, allowance), ToCandidate(dist, location);
    var distances: seq<ZoneDistance> := [];
    var candidates: seq<Candidate> := [];
    for n := 0 to |zones|
      invariant forall k | 0 <= k < n :: zones[k].passive || Center(zones[k]).Ok?
      invariant distances == Collect(zones[..n], active, toDistance)
      invariant candidates == Collect(zones[..n], keep, toCandidate)
    {
      CollectSnoc(zones, n, active, toDistance);
      CollectSnoc(zones, n, keep, toCandidate);
      var zone := zones[n];
      assert zone in zones;
      if !zone.passive {
        var center := Center(zone);
        if center.Err? {
          return Err(center.error);
        }
        var distance := dist(location, center.value);
        distances := distances + [ZoneDistance(zone.id, distance)];
        if distance <= zone.radiusMeters + allowance {
          candidates := candidates + [Candidate(zone, distance)];
        }
      }
    }
    assert zones[..|zones|] == zones;
    distances := Sort(distances, DistanceLe);
    candidates := Sort(candidates, CandidateLe);
    r := Ok(Choose(candidates, distances));
  }

  predicate Eligible(dist: Metric, zone: Zone, location: Coordinates, accuracy: real) {
    !zone.passive && Contains(dist, zone, location, Allowance(accuracy))
  }

  lemma CandidatesCover(dist: Metric, zoneSet: ZoneSet, location: Coordinates, accuracy: real, zone: Zone)
    requires zone in zoneSet.zones && Eligible(dist, zone, location, accuracy)
    ensures
      var candidates := Candidates(dist, zoneSet, location, accuracy);
      candidates != [] && PrecedesOrSame(candidates[0].zone, zone)
  {
    OrdersAreTotal();
    var keep, toCandidate := IsCandidate(dist, location, Allowance(accuracy)), ToCandidate(dist, location);
    CollectMember(zoneSet.zones, keep, toCandidate, toCandidate(zone));
    SortHead(Collect(zoneSet.zones, keep, toCandidate), CandidateLe);
  }

  lemma CandidatesHead(dist: Metric, zoneSet: ZoneSet, location: Coordinates, accuracy: real)
    requires Candidates(dist, zoneSet, location, accuracy) != []
    ensures
      var first := Candidates(dist, zoneSet, location, accuracy)[0];
      first.zone in zoneSet.zones && Eligible(dist, first.zone, location, accuracy)
      && first.distance == dist(location, Place(first.zone))
  {
    OrdersAreTotal();
    var keep, toCandidate := IsCandidate(dist, location, Allowance(accuracy)), ToCandidate(dist, location);
    var collected := Collect(zoneSet.zones, keep, toCandidate);
    SortMember(collected, CandidateLe, Sort(collected, CandidateLe)[0]);
    CollectMember(zoneSet.zones, keep, toCandidate, Sort(collected, CandidateLe)[0]);
  }

  /** No zone is chosen exactly when no active zone contains the location, allowing for half the
      accuracy in whole meters. */
  lemma ChosenExactly(dist: Metric, zoneSet: ZoneSet, location: Coordinates, accuracy: real)
    requires accuracy >= 0.0 && CentersKnown(zoneSet)
    ensures
      Select(dist, zoneSet, location, accuracy).value.selectedZone.Some?
      <==> exists zone :: zone in zoneSet.zones && Inside(dist, zone, location, accuracy)
  {
    forall zone | zone in zoneSet.zones && Inside(dist, zone, location, accuracy)
      ensures Candidates(dist, zoneSet, location, accuracy) != []
    {
      CandidatesCover(dist, zoneSet, location, accuracy, zone);
    }
    if Candidates(dist, zoneSet, location, accuracy) != [] {
      CandidatesHead(dist, zoneSet, location, accuracy);
    }
  }

  /** The location is in an active zone, allowing for half the accuracy in whole meters. */
  predicate Inside(dist: Metric, zone: Zone, location: Coordinates, accuracy: real) {
    && !zone.passive
    && dist(location, Coordinates(zone.latitude, zone.longitude)) <= zone.radiusMeters + (accuracy / 2.0).Floor as real
  }

  /** A zone that the location is inside, with none of the others smaller, or as small with a lesser
      id. */
  ghost predicate SmallestInside(dist: Metric, zones: seq<Zone>, location: Coordinates, accuracy: real, zone: Zone) {
    && zone in zones && Inside(dist, zone, location, accuracy)
    && forall other | other in zones && Inside(dist, other, location, accuracy) ::
         zone.radiusMeters < other.radiusMeters
         || (zone.radiusMeters == other.radiusMeters && StringLe(zone.id, other.id))
  }

  /** A choice is made exactly for a valid accuracy and active zones that are all on the map. The
      chosen zone is then the smallest that the location is inside, and none is chosen only when it
      is inside none. */
  lemma SelectsSmallestContaining(dist: Metric, zoneSet: ZoneSet, location: Coordinates, accuracy: real)
    ensures
      Select(dist, zoneSet, location, accuracy).Ok?
      <==> accuracy >= 0.0 && forall zone | zone in zoneSet.zones && !zone.passive :: OnTheMap(zone)
    ensures
      Select(dist, zoneSet, location, accuracy).Ok? ==>
        var selection := Select(dist, zoneSet, location, accuracy).value;
        if selection.selectedZone.Some? then
          exists zone :: SmallestInside(dist, zoneSet.zones, location, accuracy, zone)
                         && selection.selectedZone == Some(zone.id)
                         && selection.selectedDistanceMeters
                            == Some(dist(location, Coordinates(zone.latitude, zone.longitude)))
        else
          && selection.selectedDistanceMeters == None
          && forall zone | zone in zoneSet.zones :: !Inside(dist, zone, location, accuracy)
  {
    forall zone | zone in zoneSet.zones && Inside(dist, zone, location, accuracy)
      ensures Candidates(dist, zoneSet, location, accuracy) != []
              && PrecedesOrSame(Candidates(dist, zoneSet, location, accuracy)[0].zone, zone)
    {
      CandidatesCover(dist, zoneSet, location, accuracy, zone);
    }
    if Candidates(dist, zoneSet, location, accuracy) != [] {
      CandidatesHead(dist, zoneSet, location, accuracy);
      assert SmallestInside(dist, zoneSet.zones, location, accuracy,
                            Candidates(dist, zoneSet, location, accuracy)[0].zone);
    }
  }

  /** The distance of a zone from the location, as it is reported. */
  function Reported(dist: Metric, zone: Zone, location: Coordinates): ZoneDistance {
    ZoneDistance(zone.id, dist(location, Coordinates(zone.latitude, zone.longitude)))
  }

  /** Nearest first, equals by id. */
  predicate NotAfter(a: ZoneDistance, b: ZoneDistance) {
    a.distanceMeters < b.distanceMeters || (a.distanceMeters == b.distanceMeters && StringLe(a.zoneId, b.zoneId))
  }

  function ActiveZones(zones: seq<Zone>): nat {
    if zones == [] then 0 else ActiveZones(zones[..|zones| - 1]) + (if zones[|zones| - 1].passive then 0 else 1)
  }

  lemma {:induction false} CollectsActive(zones: seq<Zone>, f: Zone -> ZoneDistance)
    ensures |Collect(zones, IsActive(), f)| == ActiveZones(zones)
  {
    if zones != [] {
      var n := |zones| - 1;
      CollectsActive(zones[..n], f);
      CollectSnoc(zones, n, IsActive(), f);
      assert zones[..n + 1] == zones;
    }
  }

  lemma CollectsReported(dist: Metric, zones: seq<Zone>, location: Coordinates, keep: Zone -> bool, d: ZoneDistance)
    ensures
      d in Collect(zones, keep, ToDistance(dist, location))
      <==> exists zone :: zone in zones && keep(zone) && d == Reported(dist, zone, location)
  {
    var toDistance := ToDistance(dist, location);
    CollectMember(zones, keep, toDistance, d);
    if d in Collect(zones, keep, toDistance) {
      var zone :| zone in zones && keep(zone) && toDistance(zone) == d;
      assert Place(zone) == Coordinates(zone.latitude, zone.longitude);
    }
    if zone :| zone in zones && keep(zone) && d == Reported(dist, zone, location) {
      assert Place(zone) == Coordinates(zone.latitude, zone.longitude);
      assert toDistance(zone) == d;
    }
  }

  lemma SortKeepsLength(s: seq<ZoneDistance>)
    ensures |Sort(s, DistanceLe)| == |s|
  {
    assert |multiset(s)| == |s| && |multiset(Sort(s, DistanceLe))| == |Sort(s, DistanceLe)|;
  }

  lemma ReportedExactly(dist: Metric, zoneSet: ZoneSet, location: Coordinates, d: ZoneDistance)
    ensures
      d in Distances(dist, zoneSet, location)
      <==> exists zone :: zone in zoneSet.zones && !zone.passive && d == Reported(dist, zone, location)
  {
    CollectsReported(dist, zoneSet.zones, location, IsActive(), d);
    SortMember(Collect(zoneSet.zones, IsActive(), ToDistance(dist, location)), DistanceLe, d);
  }

  /** Every active zone is reported, as many as there are, nearest first. */
  lemma DistancesAreSortedPermutation(dist: Metric, zoneSet: ZoneSet, location: Coordinates)
    ensures
      var distances := Distances(dist, zoneSet, location);
      && (forall i, j | 0 <= i < j < |distances| :: NotAfter(distances[i], distances[j]))
      && |distances| == ActiveZones(zoneSet.zones)
      && forall d ::
           d in distances
           <==> exists zone :: zone in zoneSet.zones && !zone.passive && d == Reported(dist, zone, location)
  {
    OrdersAreTotal();
    var collected := Collect(zoneSet.zones, IsActive(), ToDistance(dist, location));
    SortSorted(collected, DistanceLe);
    SortKeepsLength(collected);
    CollectsActive(zoneSet.zones, ToDistance(dist, location));
    forall d
      ensures
        d in Distances(dist, zoneSet, location)
        <==> exists zone :: zone in zoneSet.zones && !zone.passive && d == Reported(dist, zone, location)
    {
      ReportedExactly(dist, zoneSet, location, d);
    }
  }

  lemma SameIdSameZone(zones: seq<Zone>, a: Zone, b: Zone)
    requires UniqueIds(zones) && a in zones && b in zones && a.id == b.id
    ensures a == b
  {
    var i :| 0 <= i < |zones| && zones[i] == a;
    var j :| 0 <= j < |zones| && zones[j] == b;
  }

  /** The whole result is the same for every order in which the zones are configured. */
  lemma SelectionIgnoresOrder(dist: Metric, a: ZoneSet, b: ZoneSet, location: Coordinates, accuracy: real)
    requires Valid(a) && Valid(b) && multiset(a.zones) == multiset(b.zones)
    ensures Select(dist, a, location, accuracy) == Select(dist, b, location, accuracy)
  {
    OrdersAreTotal();
    var keep, toCandidate := IsCandidate(dist, location, Allowance(accuracy)), ToCandidate(dist, location);
    var active, toDistance := IsActive(), ToDistance(dist, location);
    CollectPermutation(a.zones, b.zones, active, toDistance);
    CollectPermutation(a.zones, b.zones, keep, toCandidate);
    var da, db := Collect(a.zones, active, toDistance), Collect(b.zones, active, toDistance);
    var ca, cb := Collect(a.zones, keep, toCandidate), Collect(b.zones, keep, toCandidate);
    SortSorted(da, DistanceLe);
    SortSorted(db, DistanceLe);
    SortSorted(ca, CandidateLe);
    SortSorted(cb, CandidateLe);
    assert NoTies(multiset(Sort(da, DistanceLe)), DistanceLe) by {
      forall x, y | DistanceLe(x, y) && DistanceLe(y, x) ensures x == y {
        StringLeAntisymmetric(x.zoneId, y.zoneId);
      }
    }
    assert NoTies(multiset(Sort(ca, CandidateLe)), CandidateLe) by {
      forall x, y | x in multiset(ca) && y in multiset(ca) && CandidateLe(x, y) && CandidateLe(y, x) ensures x == y {
        StringLeAntisymmetric(x.zone.id, y.zone.id);
        CollectMember(a.zones, keep, toCandidate, x);
        CollectMember(a.zones, keep, toCandidate, y);
        SameIdSameZone(a.zones, x.zone, y.zone);
      }
    }
    SortedUnique(Sort(da, DistanceLe), Sort(db, DistanceLe), DistanceLe);
    SortedUnique(Sort(ca, CandidateLe), Sort(cb, CandidateLe), CandidateLe);
  }

  // ---- the closest zone ----

  function IsUsable(): Zone -> bool {
    (zone: Zone) => zone.radiusMeters > 1.0
  }

  function Usable(dist: Metric, zoneSet: ZoneSet, location: Coordinates): seq<ZoneDistance> {
    Collect(zoneSet.zones, IsUsable(), ToDistance(dist, location))
  }

  /** The nearest zone of usable radius, passive zones included. */
  function Closest(dist: Metric, zoneSet: ZoneSet, location: Coordinates): Result<Option<ZoneDistance>, TrackingError> {
    if exists zone | zone in zoneSet.zones :: zone.radiusMeters > 1.0 && Center(zone).Err? then
      Err(InvalidInput("coordinates out of range"))
    else
      var distances := Sort(Usable(dist, zoneSet, location), DistanceLe);
      Ok(if distances == [] then None else Some(distances[0]))
  }

  lemma UsableExactly(dist: Metric, zoneSet: ZoneSet, location: Coordinates, d: ZoneDistance)
    ensures
      d in Usable(dist, zoneSet, location)
      <==> exists zone :: zone in zoneSet.zones && zone.radiusMeters > 1.0 && d == Reported(dist, zone, location)
  {
    CollectsReported(dist, zoneSet.zones, location, IsUsable(), d);
  }

  lemma HeadPrecedes(usable: seq<ZoneDistance>, d: ZoneDistance)
    requires d in usable
    ensures Sort(usable, DistanceLe) != [] && Sort(usable, DistanceLe)[0] in usable
    ensures NotAfter(Sort(usable, DistanceLe)[0], d)
  {
    OrdersAreTotal();
    SortHead(usable, DistanceLe);
  }

  /** The closest zone is at least as near as every other of a radius over one meter, passive
      zones included, if all of these are on the map; there is none exactly when no zone has such a
      radius. */
  lemma ClosestIsNearest(dist: Metric, zoneSet: ZoneSet, location: Coordinates)
    ensures
      Closest(dist, zoneSet, location).Ok?
      <==> forall zone | zone in zoneSet.zones && zone.radiusMeters > 1.0 :: OnTheMap(zone)
    ensures
      Closest(dist, zoneSet, location).Ok? ==>
        match Closest(dist, zoneSet, location).value
        case None => forall zone | zone in zoneSet.zones :: zone.radiusMeters <= 1.0
        case Some(nearest) =>
          && (exists zone ::
                zone in zoneSet.zones && zone.radiusMeters > 1.0 && nearest == Reported(dist, zone, location))
          && forall zone | zone in zoneSet.zones && zone.radiusMeters > 1.0 ::
               NotAfter(nearest, Reported(dist, zone, location))
  {
    var usable := Usable(dist, zoneSet, location);
    forall zone | zone in zoneSet.zones && zone.radiusMeters > 1.0
      ensures usable != [] && NotAfter(Sort(usable, DistanceLe)[0], Reported(dist, zone, location))
    {
      UsableExactly(dist, zoneSet, location, Reported(dist, zone, location));
      HeadPrecedes(usable, Reported(dist, zone, location));
    }
    if usable != [] {
      HeadPrecedes(usable, usable[0]);
      UsableExactly(dist, zoneSet, location, Sort(usable, DistanceLe)[0]);
    }
  }
}
