// What the tracker does with the nearby groups: every device learns its group and the
// nearest other member, and both are cleared first.
module NearbyAssignment {
  import opened Core
  import opened Order
  import opened Nearby
  import DeviceState

  datatype Nearest = Nearest(deviceId: string, meters: real)

  datatype Located = Located(
    location: Option<Coordinates>, accuracyMeters: Option<real>, zone: Option<string>, online: bool, isWatch: bool,
    group: Option<nat>, nearest: Option<Nearest>)

  const DEFAULT_POLICY := Policy(25.0, 25.0)

  // ---- the devices with a location ----

  function Candidate(id: string, device: Located): NearbyDevice
    requires device.location.Some?
  {
    NearbyDevice(id, device.location.value, device.accuracyMeters, device.zone, true, device.online, device.isWatch)
  }

  function CandidatesAmong(devices: map<string, Located>, ids: seq<string>): seq<NearbyDevice>
    requires forall id | id in ids :: id in devices
  {
    if ids == [] then []
    else
      var rest := CandidatesAmong(devices, ids[..|ids| - 1]);
      var id := ids[|ids| - 1];
      if devices[id].location.Some? then rest + [Candidate(id, devices[id])] else rest
  }

  function Candidates(devices: map<string, Located>): seq<NearbyDevice> {
    CandidatesAmong(devices, Ascending(devices.Keys))
  }

  lemma {:induction false} CandidatesDescribe(devices: map<string, Located>, ids: seq<string>)
    requires StrictlyAscending(ids) && forall id | id in ids :: id in devices
    ensures
      var found := CandidatesAmong(devices, ids);
      && Distinct(Ids(found))
      && (forall i | 0 <= i < |found| ::
            var id := found[i].deviceId;
            id in ids && devices[id].location.Some? && found[i] == Candidate(id, devices[id]))
      && (forall id | id in ids && devices[id].location.Some? :: id in Ids(found))
  {
    if ids != [] {
      var front, last := ids[..|ids| - 1], ids[|ids| - 1];
      assert ids == front + [last];
      CandidatesDescribe(devices, front);
      if devices[last].location.Some? {
        var rest := CandidatesAmong(devices, front);
        assert Ids(CandidatesAmong(devices, ids)) == Ids(rest) + [last];
        assert last !in front;
        forall i | 0 <= i < |rest| ensures Ids(rest)[i] != last {
          assert rest[i].deviceId in front;
        }
      }
    }
  }

  // ---- the nearest member ----

  /** The first of the nearest other members, among those with a location. */
  function NearestIn(dist: Metric, devices: map<string, Located>, members: seq<string>, d: string): Option<Nearest>
    requires d in devices && forall m | m in members :: m in devices
  {
    if members == [] || devices[d].location.None? then None
    else
      var rest := NearestIn(dist, devices, members[..|members| - 1], d);
      var m := members[|members| - 1];
      if m == d || devices[m].location.None? then rest
      else
        var meters := dist(devices[d].location.value, devices[m].location.value);
        if rest.None? || meters < rest.value.meters then Some(Nearest(m, meters)) else rest
  }

  predicate Other(devices: map<string, Located>, members: seq<string>, d: string, m: string)
    requires forall x | x in members :: x in devices
  {
    m in members && m != d && devices[m].location.Some?
  }

  lemma {:induction false} NearestInLeast(dist: Metric, devices: map<string, Located>, members: seq<string>, d: string)
    requires d in devices && devices[d].location.Some? && StrictlyAscending(members)
    requires forall m | m in members :: m in devices
    ensures
      var r := NearestIn(dist, devices, members, d);
      && (r.None? ==> forall m :: !Other(devices, members, d, m))
      && (r.Some? ==>
            && Other(devices, members, d, r.value.deviceId)
            && r.value.meters == dist(devices[d].location.value, devices[r.value.deviceId].location.value)
            && forall m | Other(devices, members, d, m) ::
                 var meters := dist(devices[d].location.value, devices[m].location.value);
                 r.value.meters <= meters && (r.value.meters == meters ==> StringLe(r.value.deviceId, m)))
  {
    if members != [] {
      var front, last := members[..|members| - 1], members[|members| - 1];
      assert members == front + [last];
      NearestInLeast(dist, devices, front, d);
      StringLeTotal(last, last);
      assert forall m | m in front :: StringLe(m, last);
      assert forall m :: Other(devices, members, d, m) <==> Other(devices, front, d, m) || Other(devices, [last], d, m);
    }
  }

  lemma {:induction false} NearestNeedsLocationsOnly(dist: Metric, a: map<string, Located>, b: map<string, Located>,
                                                     members: seq<string>, d: string)
    requires a.Keys == b.Keys && forall x | x in a :: a[x].location == b[x].location
    requires d in a && forall m | m in members :: m in a
    ensures NearestIn(dist, a, members, d) == NearestIn(dist, b, members, d)
  {
    if members != [] {
      NearestNeedsLocationsOnly(dist, a, b, members[..|members| - 1], d);
    }
  }

  // ---- the assignment ----

  function Cleared(device: Located): Located {
    device.(group := None, nearest := None)
  }

  ghost predicate KnownMembers(devices: map<string, Located>, groups: seq<Group>) {
    forall i, m | 0 <= i < |groups| && m in groups[i].deviceIds :: m in devices
  }

  /** What a device is told when it is a member of `group`. */
  function Told(dist: Metric, devices: map<string, Located>, group: Group, d: string, before: Located): Located
    requires d in devices && forall m | m in group.deviceIds :: m in devices
  {
    var nearest := NearestIn(dist, devices, group.deviceIds, d);
    if d in group.deviceIds && nearest.Some? then before.(group := Some(group.id), nearest := nearest) else before
  }

  /** What a device is told by the groups in turn. */
  function Assigned(dist: Metric, devices: map<string, Located>, groups: seq<Group>, d: string): Located
    requires d in devices && KnownMembers(devices, groups)
  {
    if groups == [] then Cleared(devices[d])
    else
      Told(dist, devices, groups[|groups| - 1], d, Assigned(dist, devices, groups[..|groups| - 1], d))
  }

  function AssignAll(dist: Metric, devices: map<string, Located>, groups: seq<Group>): map<string, Located>
    requires KnownMembers(devices, groups)
  {
    map d | d in devices :: Assigned(dist, devices, groups, d)
  }

  lemma {:induction false} AssignedKeepsLocation(dist: Metric, devices: map<string, Located>, groups: seq<Group>,
                                                 d: string)
    requires d in devices && KnownMembers(devices, groups)
    ensures Cleared(Assigned(dist, devices, groups, d)) == Cleared(devices[d])
  {
    if groups != [] {
      AssignedKeepsLocation(dist, devices, groups[..|groups| - 1], d);
    }
  }

  /** The groups are the components of the eligibility graph of the devices with a location. */
  ghost predicate Grouping(dist: Metric, devices: map<string, Located>, g: Graph, groups: seq<Group>) {
    && IsGraph(dist, DEFAULT_POLICY, Candidates(devices), g)
    && AreComponents(g, Ids(Candidates(devices)), groups)
    && KnownMembers(devices, groups)
  }

  lemma MembersAreVertices(g: Graph, order: seq<string>, groups: seq<Group>, i: nat, m: string)
    requires AreComponents(g, order, groups) && i < |groups| && m in groups[i].deviceIds
    ensures m in g
  {
    assert IsComponent(g, groups[i].deviceIds);
    var ids := groups[i].deviceIds;
    var root :| root in g && root in ids && forall x :: x in ids <==> Connected(g, root, x);
    var p :| Connects(g, p, root, m);
  }

  lemma VerticesAreLocated(dist: Metric, devices: map<string, Located>, g: Graph)
    requires IsGraph(dist, DEFAULT_POLICY, Candidates(devices), g)
    ensures forall m :: m in g <==> m in devices && devices[m].location.Some?
  {
    AscendingIsStrict(devices.Keys);
    CandidatesDescribe(devices, Ascending(devices.Keys));
    var ids := Ids(Candidates(devices));
    forall m | m in g ensures m in devices && devices[m].location.Some? {
      var k :| 0 <= k < |ids| && ids[k] == m;
      assert Candidates(devices)[k].deviceId == m;
    }
  }

  lemma MembersAreKnown(dist: Metric, devices: map<string, Located>, g: Graph, groups: seq<Group>)
    requires IsGraph(dist, DEFAULT_POLICY, Candidates(devices), g)
    requires AreComponents(g, Ids(Candidates(devices)), groups)
    ensures Grouping(dist, devices, g, groups)
  {
    VerticesAreLocated(dist, devices, g);
    forall i, m | 0 <= i < |groups| && m in groups[i].deviceIds ensures m in devices {
      MembersAreVertices(g, Ids(Candidates(devices)), groups, i, m);
    }
  }

  /** Telling one more group in place is one more step of the assignment. */
  lemma OneGroupMore(dist: Metric, devices: map<string, Located>, groups: seq<Group>, i: nat)
    requires i < |groups| && KnownMembers(devices, groups)
    ensures
      var before := AssignAll(dist, devices, groups[..i]);
      AssignAll(dist, devices, groups[..i + 1]) == map d | d in before :: Told(dist, before, groups[i], d, before[d])
  {
    var before := AssignAll(dist, devices, groups[..i]);
    assert groups[..i + 1][..i] == groups[..i];
    forall d | d in devices ensures before[d].location == devices[d].location {
      AssignedKeepsLocation(dist, devices, groups[..i], d);
    }
    forall d | d in devices
      ensures Assigned(dist, devices, groups[..i + 1], d) == Told(dist, before, groups[i], d, before[d])
    {
      NearestNeedsLocationsOnly(dist, devices, before, groups[i].deviceIds, d);
    }
  }

  /** No device with a location has a negative accuracy. */
  predicate AccuraciesValid(devices: map<string, Located>) {
    forall d | d in devices && devices[d].location.Some? && devices[d].accuracyMeters.Some? ::
      devices[d].accuracyMeters.value >= 0.0
  }

  lemma AccuraciesShown(devices: map<string, Located>)
    ensures
      (forall c | c in Candidates(devices) && c.accuracyMeters.Some? :: c.accuracyMeters.value >= 0.0)
      <==> AccuraciesValid(devices)
  {
    var candidates := Candidates(devices);
    AscendingIsStrict(devices.Keys);
    CandidatesDescribe(devices, Ascending(devices.Keys));
    forall d | d in devices && devices[d].location.Some? ensures Candidate(d, devices[d]) in candidates {
      var k :| 0 <= k < |candidates| && Ids(candidates)[k] == d;
      assert candidates[k] == Candidate(d, devices[d]);
    }
    forall c | c in candidates
      ensures c.deviceId in devices && devices[c.deviceId].location.Some?
           && c == Candidate(c.deviceId, devices[c.deviceId])
    {
      var k :| 0 <= k < |candidates| && candidates[k] == c;
    }
  }

  class NearbyState {
    var devices: map<string, Located>

    constructor (devices: map<string, Located>)
      ensures this.devices == devices
    {
      this.devices := devices;
    }

    method CollectCandidates() returns (found: seq<NearbyDevice>)
      ensures found == Candidates(devices)
    {
      found := [];
      var order := Ascending(devices.Keys);
      for i := 0 to |order|
        invariant found == CandidatesAmong(devices, order[..i])
      {
        assert order[..i + 1][..i] == order[..i];
        var device := devices[order[i]];
        if device.location.Some? {
          found := found + [Candidate(order[i], device)];
        }
      }
      assert order[..|order|] == order;
    }

    method FindNearest(dist: Metric, members: seq<string>, d: string) returns (nearest: Option<Nearest>)
      requires d in devices && forall m | m in members :: m in devices
      ensures nearest == NearestIn(dist, devices, members, d)
    {
      nearest := None;
      var origin := devices[d].location;
      if origin.None? {
        return;
      }
      for i := 0 to |members|
        invariant nearest == NearestIn(dist, devices, members[..i], d)
      {
        assert members[..i + 1][..i] == members[..i];
        var m := members[i];
        if m != d && devices[m].location.Some? {
          var meters := dist(origin.value, devices[m].location.value);
          if nearest.None? || meters < nearest.value.meters {
            nearest := Some(Nearest(m, meters));
          }
        }
      }
      assert members[..|members|] == members;
    }

    method Clear()
      modifies this
      ensures devices == map d | d in old(devices) :: Cleared(old(devices)[d])
    {
      var order := Ascending(devices.Keys);
      for i := 0 to |order|
        invariant devices.Keys == old(devices).Keys
        invariant forall d | d in devices :: devices[d] == old(devices)[d] || devices[d] == Cleared(old(devices)[d])
        invariant forall k | 0 <= k < i :: devices[order[k]] == Cleared(old(devices)[order[k]])
      {
        devices := devices[order[i] := Cleared(devices[order[i]])];
      }
      forall d | d in devices ensures devices[d] == Cleared(old(devices)[d]) {
        assert d in order;
      }
    }

    /** Tells the members of one group. */
    method TellGroup(dist: Metric, group: Group)
      requires StrictlyAscending(group.deviceIds) && forall m | m in group.deviceIds :: m in devices
      modifies this
      ensures devices == map d | d in old(devices) :: Told(dist, old(devices), group, d, old(devices)[d])
    {
      var members := group.deviceIds;
      for i := 0 to |members|
        invariant devices.Keys == old(devices).Keys
        invariant forall d | d in devices ::
                    devices[d]
                    == if d in members[..i] then Told(dist, old(devices), group, d, old(devices)[d])
                       else old(devices)[d]
      {
        var d := members[i];
        assert d !in members[..i];
        NearestNeedsLocationsOnly(dist, old(devices), devices, members, d);
        var nearest := FindNearest(dist, members, d);
        if nearest.Some? {
          devices := devices[d := devices[d].(group := Some(group.id), nearest := nearest)];
        }
      }
      assert members[..|members|] == members;
    }

    /** Tells the groups in turn, once everything is cleared. */
    method TellGroups(dist: Metric, groups: seq<Group>, ghost before: map<string, Located>)
      requires KnownMembers(before, groups) && forall i | 0 <= i < |groups| :: StrictlyAscending(groups[i].deviceIds)
      requires devices == AssignAll(dist, before, [])
      modifies this
      ensures devices == AssignAll(dist, before, groups)
    {
      for i := 0 to |groups|
        invariant devices == AssignAll(dist, before, groups[..i])
      {
        OneGroupMore(dist, before, groups, i);
        TellGroup(dist, groups[i]);
      }
      assert groups[..|groups|] == groups;
    }

    /** Finds the groups again and tells every device; with an invalid accuracy nothing changes. */
    method UpdateNearbyDevices(dist: Metric) returns (ok: bool)
      modifies this
      ensures ok <==> AccuraciesValid(old(devices))
      ensures !ok ==> devices == old(devices)
      ensures
        ok ==> exists g, groups ::
          Grouping(dist, old(devices), g, groups) && devices == AssignAll(dist, old(devices), groups)
    {
      var candidates := CollectCandidates();
      AccuraciesShown(devices);
      var found := GroupNearbyDevices(dist, candidates, DEFAULT_POLICY);
      if found.Err? {
        return false;
      }
      var groups := found.value;
      ghost var g :| IsGraph(dist, DEFAULT_POLICY, candidates, g) && AreComponents(g, Ids(candidates), groups);
      MembersAreKnown(dist, devices, g, groups);
      assert forall i | 0 <= i < |groups| :: IsComponent(g, groups[i].deviceIds);
      ghost var before := devices;
      Clear();
      TellGroups(dist, groups, before);
      ok := true;
    }
  }

  // ---- what a device is told ----

  /** Being told by a group that one is not in changes nothing, so one's own group has the
      last word. */
  lemma {:induction false} ToldByOwnGroup(dist: Metric, devices: map<string, Located>, groups: seq<Group>, d: string,
                                          i: nat)
    requires d in devices && KnownMembers(devices, groups) && i < |groups|
    requires d in groups[i].deviceIds && forall j | 0 <= j < |groups| && j != i :: d !in groups[j].deviceIds
    ensures Assigned(dist, devices, groups, d) == Told(dist, devices, groups[i], d, Cleared(devices[d]))
  {
    var front := groups[..|groups| - 1];
    if i == |groups| - 1 {
      ToldByNone(dist, devices, front, d);
    } else {
      ToldByOwnGroup(dist, devices, front, d, i);
    }
  }

  lemma {:induction false} ToldByNone(dist: Metric, devices: map<string, Located>, groups: seq<Group>, d: string)
    requires d in devices && KnownMembers(devices, groups)
    requires forall j | 0 <= j < |groups| :: d !in groups[j].deviceIds
    ensures Assigned(dist, devices, groups, d) == Cleared(devices[d])
  {
    if groups != [] {
      ToldByNone(dist, devices, groups[..|groups| - 1], d);
    }
  }

  /** Someone else in a group is always in reach. */
  lemma GroupHasOthers(dist: Metric, devices: map<string, Located>, g: Graph, groups: seq<Group>, i: nat, d: string)
    requires Grouping(dist, devices, g, groups) && i < |groups| && d in groups[i].deviceIds
    ensures devices[d].location.Some? && NearestIn(dist, devices, groups[i].deviceIds, d).Some?
  {
    var members := groups[i].deviceIds;
    VerticesAreLocated(dist, devices, g);
    forall m | m in members ensures devices[m].location.Some? {
      MembersAreVertices(g, Ids(Candidates(devices)), groups, i, m);
    }
    assert IsComponent(g, members);
    NearestInLeast(dist, devices, members, d);
    var other := if members[0] == d then members[1] else members[0];
    assert Other(devices, members, d, other);
  }

  /** A device knows its group and nearest fellow member when it is in a group, and otherwise
      knows of none. */
  lemma ToldExactly(dist: Metric, devices: map<string, Located>, g: Graph, groups: seq<Group>, d: string)
    requires Grouping(dist, devices, g, groups) && d in devices
    ensures
      var after := AssignAll(dist, devices, groups)[d];
      && Cleared(after) == Cleared(devices[d])
      && (InSomeGroup(groups, d) <==> after.group.Some?) && (after.group.Some? <==> after.nearest.Some?)
      && forall i | 0 <= i < |groups| && d in groups[i].deviceIds ::
           after.group == Some(groups[i].id) && after.nearest == NearestIn(dist, devices, groups[i].deviceIds, d)
  {
    GraphIsUndirected(dist, DEFAULT_POLICY, Candidates(devices), g);
    AssignedKeepsLocation(dist, devices, groups, d);
    if InSomeGroup(groups, d) {
      var i :| 0 <= i < |groups| && d in groups[i].deviceIds;
      forall j | 0 <= j < |groups| && j != i ensures d !in groups[j].deviceIds {
        if j < i {
          GroupsDisjoint(g, Ids(Candidates(devices)), groups, j, i);
        } else {
          GroupsDisjoint(g, Ids(Candidates(devices)), groups, i, j);
        }
      }
      ToldByOwnGroup(dist, devices, groups, d, i);
      GroupHasOthers(dist, devices, g, groups, i, d);
    } else {
      ToldByNone(dist, devices, groups, d);
    }
  }

  /** Two devices may be grouped directly: both have a location, are online and no watches, in the
      same zone or both in none, within 25 meters, and one at least is accurate to 25 meters. */
  predicate Near(dist: Metric, devices: map<string, Located>, a: string, b: string)
    requires a in devices && b in devices
  {
    var (x, y) := (devices[a], devices[b]);
    && a != b && x.location.Some? && y.location.Some?
    && x.online && y.online && !x.isWatch && !y.isWatch && x.zone == y.zone
    && ((x.accuracyMeters.Some? && x.accuracyMeters.value <= 25.0)
        || (y.accuracyMeters.Some? && y.accuracyMeters.value <= 25.0))
    && dist(x.location.value, y.location.value) <= 25.0
  }

  lemma TogetherIsNear(dist: Metric, devices: map<string, Located>, a: string, b: string)
    requires a in devices && b in devices && a != b && devices[a].location.Some? && devices[b].location.Some?
    ensures Together(dist, DEFAULT_POLICY, Candidate(a, devices[a]), Candidate(b, devices[b]))
        <==> Near(dist, devices, a, b)
  {
  }

  lemma EdgesAreNear(dist: Metric, devices: map<string, Located>, g: Graph, a: string, b: string)
    requires IsMetric(dist) && IsGraph(dist, DEFAULT_POLICY, Candidates(devices), g)
    requires a in devices && b in devices && a != b
    ensures a in g && b in g[a] <==> Near(dist, devices, a, b)
  {
    VerticesAreLocated(dist, devices, g);
    AscendingIsStrict(devices.Keys);
    CandidatesDescribe(devices, Ascending(devices.Keys));
    var candidates := Candidates(devices);
    if a in g && b in g {
      var i :| 0 <= i < |candidates| && Ids(candidates)[i] == a;
      var j :| 0 <= j < |candidates| && Ids(candidates)[j] == b;
      EdgesAreEligiblePairs(dist, DEFAULT_POLICY, candidates, g, i, j);
      TogetherIsNear(dist, devices, a, b);
    } else if a in g && b in g[a] {
      LinksAreMutual(dist, DEFAULT_POLICY, candidates, |candidates|, 0, a, b);
    }
  }

  /** The first step of a path to someone else leads to a device that is near. */
  lemma ConnectedHasNear(dist: Metric, devices: map<string, Located>, g: Graph, a: string, b: string)
    requires IsMetric(dist) && IsGraph(dist, DEFAULT_POLICY, Candidates(devices), g)
    requires a != b && Connected(g, a, b)
    ensures a in devices && exists c :: c in devices && Near(dist, devices, a, c) && Connected(g, a, c)
  {
    var p :| Connects(g, p, a, b);
    VerticesAreLocated(dist, devices, g);
    GraphIsUndirected(dist, DEFAULT_POLICY, Candidates(devices), g);
    var k :| 0 <= k < |p| - 1 && p[k] == a && p[k + 1] != a by {
      LastVisit(p, a);
    }
    EdgesAreNear(dist, devices, g, a, p[k + 1]);
    ConnectedRefl(g, a);
    ConnectedStep(g, a, a, p[k + 1]);
  }

  lemma {:induction false} LastVisit(p: seq<string>, a: string)
    requires |p| > 1 && p[0] == a && p[|p| - 1] != a
    ensures exists k :: 0 <= k < |p| - 1 && p[k] == a && p[k + 1] != a
  {
    if p[1] == a {
      LastVisit(p[1..], a);
      var k :| 0 <= k < |p[1..]| - 1 && p[1..][k] == a && p[1..][k + 1] != a;
      assert p[k + 1] == a && p[k + 2] != a;
    }
  }

  lemma NearAreConnected(dist: Metric, devices: map<string, Located>, g: Graph, a: string, b: string)
    requires IsMetric(dist) && IsGraph(dist, DEFAULT_POLICY, Candidates(devices), g)
    requires a in devices && b in devices && Near(dist, devices, a, b)
    ensures a in Ids(Candidates(devices)) && Connected(g, a, b)
  {
    EdgesAreNear(dist, devices, g, a, b);
    GraphIsUndirected(dist, DEFAULT_POLICY, Candidates(devices), g);
    ConnectedRefl(g, a);
    ConnectedStep(g, a, a, b);
  }

  lemma MembersHaveNear(dist: Metric, devices: map<string, Located>, g: Graph, groups: seq<Group>, i: nat, a: string)
    requires IsMetric(dist) && Grouping(dist, devices, g, groups) && i < |groups| && a in groups[i].deviceIds
    ensures exists c :: c in devices && Near(dist, devices, a, c) && c in groups[i].deviceIds
  {
    var ids := groups[i].deviceIds;
    GraphIsUndirected(dist, DEFAULT_POLICY, Candidates(devices), g);
    assert IsComponent(g, ids);
    var other := if ids[0] == a then ids[1] else ids[0];
    ComponentConnects(g, ids, a, other);
    ConnectedHasNear(dist, devices, g, a, other);
    var c :| c in devices && Near(dist, devices, a, c) && Connected(g, a, c);
    ComponentConnects(g, ids, a, c);
  }

  /** A device has a group exactly when some other device is near it. */
  lemma GroupedExactly(dist: Metric, devices: map<string, Located>, g: Graph, groups: seq<Group>, a: string)
    requires IsMetric(dist) && Grouping(dist, devices, g, groups) && a in devices
    ensures AssignAll(dist, devices, groups)[a].group.Some? <==> exists b :: b in devices && Near(dist, devices, a, b)
  {
    ToldExactly(dist, devices, g, groups, a);
    forall b | b in devices && Near(dist, devices, a, b) ensures InSomeGroup(groups, a) {
      NearAreConnected(dist, devices, g, a, b);
    }
    if InSomeGroup(groups, a) {
      var i :| 0 <= i < |groups| && a in groups[i].deviceIds;
      MembersHaveNear(dist, devices, g, groups, i, a);
    }
  }

  /** Two devices are told the same group exactly when steps between near devices lead from
      one to the other. */
  lemma SameGroupMeansSteps(dist: Metric, devices: map<string, Located>, g: Graph, groups: seq<Group>, a: string,
                            b: string)
    requires Grouping(dist, devices, g, groups) && a in devices && b in devices && a != b
    ensures
      var after := AssignAll(dist, devices, groups);
      after[a].group.Some? && after[a].group == after[b].group <==> Connected(g, a, b)
  {
    ToldExactly(dist, devices, g, groups, a);
    ToldExactly(dist, devices, g, groups, b);
    var order := Ids(Candidates(devices));
    GraphIsUndirected(dist, DEFAULT_POLICY, Candidates(devices), g);
    assert forall i | 0 <= i < |groups| :: groups[i].id == i + 1;
    if a in order {
      SharedGroupMeansPath(g, order, groups, a, b);
    } else {
      forall i | 0 <= i < |groups| ensures a !in groups[i].deviceIds {
        if a in groups[i].deviceIds {
          MembersAreVertices(g, order, groups, i, a);
        }
      }
    }
  }

  /** The nearest device a grouped device is told of is in the same group, at the distance it
      is told, no farther than any other member, and within the nearby distance. */
  lemma NearestIsNear(dist: Metric, devices: map<string, Located>, g: Graph, groups: seq<Group>, a: string)
    requires IsMetric(dist) && Grouping(dist, devices, g, groups) && a in devices
    requires AssignAll(dist, devices, groups)[a].nearest.Some?
    ensures
      var after := AssignAll(dist, devices, groups);
      var nearest := after[a].nearest.value;
      && nearest.deviceId in devices && nearest.deviceId != a
      && after[nearest.deviceId].group == after[a].group
      && devices[a].location.Some? && devices[nearest.deviceId].location.Some?
      && nearest.meters == dist(devices[a].location.value, devices[nearest.deviceId].location.value)
      && nearest.meters <= 25.0
      && forall b | b in devices && b != a && devices[b].location.Some? && after[b].group == after[a].group ::
           nearest.meters <= dist(devices[a].location.value, devices[b].location.value)
  {
    var after := AssignAll(dist, devices, groups);
    ToldExactly(dist, devices, g, groups, a);
    GraphIsUndirected(dist, DEFAULT_POLICY, Candidates(devices), g);
    var i :| 0 <= i < |groups| && a in groups[i].deviceIds;
    var ids := groups[i].deviceIds;
    assert IsComponent(g, ids);
    GroupHasOthers(dist, devices, g, groups, i, a);
    NearestInLeast(dist, devices, ids, a);
    var nearest := after[a].nearest.value;
    ToldExactly(dist, devices, g, groups, nearest.deviceId);
    MembersHaveNear(dist, devices, g, groups, i, a);
    var c :| c in devices && Near(dist, devices, a, c) && c in ids;
    assert Other(devices, ids, a, c);
    forall b | b in devices && b != a && devices[b].location.Some? && after[b].group == after[a].group
      ensures nearest.meters <= dist(devices[a].location.value, devices[b].location.value)
    {
      SameGroupMeansSteps(dist, devices, g, groups, a, b);
      ComponentConnects(g, ids, a, b);
      assert Other(devices, ids, a, b);
    }
  }

  // ---- the update cannot fail ----

  /** A located device shows the accuracy of the last sample accepted for it. */
  ghost predicate ShowsAccepted(dist: Metric, limits: DeviceState.Limits, h: seq<DeviceState.Update>, device: Located) {
    device.location.Some? ==>
      var current := DeviceState.After(dist, limits, h, |h|).current;
      current.Some? && device.accuracyMeters == current.value.accuracyMeters
  }

  /** When every location shown was accepted for its device, finding the groups again never
      fails. */
  lemma UpdateNeverFails(dist: Metric, limits: DeviceState.Limits, histories: map<string, seq<DeviceState.Update>>,
                         devices: map<string, Located>)
    requires forall d | d in devices :: d in histories && ShowsAccepted(dist, limits, histories[d], devices[d])
    ensures ValidInput(Candidates(devices), DEFAULT_POLICY)
  {
    var candidates := Candidates(devices);
    AscendingIsStrict(devices.Keys);
    CandidatesDescribe(devices, Ascending(devices.Keys));
    forall i | 0 <= i < |candidates|
      ensures candidates[i].accuracyMeters.Some? ==> candidates[i].accuracyMeters.value >= 0.0
    {
      var d := candidates[i].deviceId;
      assert ShowsAccepted(dist, limits, histories[d], devices[d]);
      DeviceState.CurrentIsValid(dist, limits, histories[d], |histories[d]|);
    }
  }
}
