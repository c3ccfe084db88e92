// Groups of devices that are near each other: the connected components of the
// eligibility graph, found by a depth-first search with an explicit stack.
module Nearby {
  import opened Core
  import opened Order

  datatype NearbyDevice = NearbyDevice(
    deviceId: string, location: Coordinates, accuracyMeters: Option<real>, currentZone: Option<string>,
    tracked: bool, online: bool, isWatch: bool)

  datatype Policy = Policy(maximumDistanceMeters: real, maximumAccuracyMeters: real)

  datatype Group = Group(id: nat, deviceIds: seq<string>)

  /** An unknown accuracy is infinitely poor; the better of the two has to suffice. */
  predicate AccurateEnough(left: Option<real>, right: Option<real>, maximum: real) {
    (left.Some? && left.value <= maximum) || (right.Some? && right.value <= maximum)
  }

  predicate Eligible(dist: Metric, policy: Policy, left: NearbyDevice, right: NearbyDevice) {
    && left.tracked && right.tracked
    && left.online && right.online
    && !left.isWatch && !right.isWatch
    && left.currentZone == right.currentZone
    && AccurateEnough(left.accuracyMeters, right.accuracyMeters, policy.maximumAccuracyMeters)
    && dist(left.location, right.location) <= policy.maximumDistanceMeters
  }

  predicate ValidInput(devices: seq<NearbyDevice>, policy: Policy) {
    && policy.maximumDistanceMeters >= 0.0 && policy.maximumAccuracyMeters >= 0.0
    && forall i | 0 <= i < |devices| :: devices[i].accuracyMeters.Some? ==> devices[i].accuracyMeters.value >= 0.0
  }

  // ---- the eligibility graph ----

  type Graph = map<string, set<string>>

  function Ids(devices: seq<NearbyDevice>): seq<string> {
    seq(|devices|, i requires 0 <= i < |devices| => devices[i].deviceId)
  }

  /** Some eligible pair among those compared so far links `a` and `b`: all pairs whose first
      member is before `n`, and those of `n` itself with a second member before `m`. */
  ghost predicate LinkedUpTo(dist: Metric, policy: Policy, devices: seq<NearbyDevice>, n: nat, m: nat, a: string,
                             b: string)
    requires m <= |devices|
  {
    exists i, j ::
      && 0 <= i < j < |devices| && (i < n || (i == n && j < m))
      && Eligible(dist, policy, devices[i], devices[j])
      && ((devices[i].deviceId == a && devices[j].deviceId == b)
          || (devices[i].deviceId == b && devices[j].deviceId == a))
  }

  ghost predicate Linked(dist: Metric, policy: Policy, devices: seq<NearbyDevice>, a: string, b: string) {
    LinkedUpTo(dist, policy, devices, |devices|, 0, a, b)
  }

  ghost predicate IsGraphUpTo(dist: Metric, policy: Policy, devices: seq<NearbyDevice>, n: nat, m: nat, g: Graph)
    requires m <= |devices|
  {
    && (forall a :: a in g <==> a in Ids(devices))
    && (forall a, b | a in g :: b in g[a] <==> LinkedUpTo(dist, policy, devices, n, m, a, b))
  }

  /** The graph whose edges are the eligible pairs. */
  ghost predicate IsGraph(dist: Metric, policy: Policy, devices: seq<NearbyDevice>, g: Graph) {
    IsGraphUpTo(dist, policy, devices, |devices|, 0, g)
  }

  lemma NextPair(dist: Metric, policy: Policy, devices: seq<NearbyDevice>, n: nat, m: nat, a: string, b: string)
    requires n < m < |devices|
    ensures
      LinkedUpTo(dist, policy, devices, n, m + 1, a, b)
      <==> LinkedUpTo(dist, policy, devices, n, m, a, b)
           || (Eligible(dist, policy, devices[n], devices[m])
               && ((devices[n].deviceId == a && devices[m].deviceId == b)
                   || (devices[n].deviceId == b && devices[m].deviceId == a)))
  {
  }

  lemma NextRow(dist: Metric, policy: Policy, devices: seq<NearbyDevice>, n: nat, a: string, b: string)
    requires n < |devices|
    ensures LinkedUpTo(dist, policy, devices, n, |devices|, a, b) <==> LinkedUpTo(dist, policy, devices, n + 1, 0, a, b)
    ensures LinkedUpTo(dist, policy, devices, n, 0, a, b) <==> LinkedUpTo(dist, policy, devices, n, n + 1, a, b)
  {
  }

  function Link(g: Graph, a: string, b: string): Graph
    requires a in g && b in g
  {
    var g' := g[a := g[a] + {b}];
    g'[b := g'[b] + {a}]
  }

  method BuildAdjacency(dist: Metric, policy: Policy, devices: seq<NearbyDevice>) returns (g: Graph)
    ensures IsGraph(dist, policy, devices, g)
  {
    g := map id | id in Ids(devices) :: {};
    for n := 0 to |devices|
      invariant IsGraphUpTo(dist, policy, devices, n, 0, g)
    {
      forall a, b
        ensures LinkedUpTo(dist, policy, devices, n, 0, a, b) <==> LinkedUpTo(dist, policy, devices, n, n + 1, a, b)
      {
        NextRow(dist, policy, devices, n, a, b);
      }
      for m := n + 1 to |devices|
        invariant IsGraphUpTo(dist, policy, devices, n, m, g)
      {
        g := CompareNext(dist, policy, devices, n, m, g);
      }
      forall a, b
        ensures LinkedUpTo(dist, policy, devices, n, |devices|, a, b)
            <==> LinkedUpTo(dist, policy, devices, n + 1, 0, a, b)
      {
        NextRow(dist, policy, devices, n, a, b);
      }
    }
  }

  /** One comparison of the nested loops. */
  method CompareNext(dist: Metric, policy: Policy, devices: seq<NearbyDevice>, n: nat, m: nat, g: Graph)
    returns (g': Graph)
    requires n < m < |devices| && IsGraphUpTo(dist, policy, devices, n, m, g)
    ensures IsGraphUpTo(dist, policy, devices, n, m + 1, g')
  {
    var left, right := devices[n], devices[m];
    assert Ids(devices)[n] == left.deviceId && Ids(devices)[m] == right.deviceId;
    g' := g;
    if Eligible(dist, policy, left, right) {
      g' := Link(g, left.deviceId, right.deviceId);
    }
    forall a, b | a in g' ensures b in g'[a] <==> LinkedUpTo(dist, policy, devices, n, m + 1, a, b) {
      NextPair(dist, policy, devices, n, m, a, b);
    }
  }

  // ---- paths ----

  /** Edges run both ways and stay inside the graph. */
  ghost predicate Undirected(g: Graph) {
    forall a, b | a in g && b in g[a] :: b in g && a in g[b]
  }

  ghost predicate Path(g: Graph, p: seq<string>) {
    && p != []
    && (forall i | 0 <= i < |p| :: p[i] in g)
    && (forall i | 0 <= i < |p| - 1 :: p[i + 1] in g[p[i]])
  }

  ghost predicate Connects(g: Graph, p: seq<string>, a: string, b: string) {
    Path(g, p) && p[0] == a && p[|p| - 1] == b
  }

  ghost predicate Connected(g: Graph, a: string, b: string) {
    exists p :: Connects(g, p, a, b)
  }

  lemma ConnectedRefl(g: Graph, a: string)
    requires a in g
    ensures Connected(g, a, a)
  {
    assert Connects(g, [a], a, a);
  }

  lemma ConnectedStep(g: Graph, a: string, b: string, c: string)
    requires Undirected(g) && Connected(g, a, b) && c in g[b]
    ensures Connected(g, a, c)
  {
    var p :| Connects(g, p, a, b);
    assert Connects(g, p + [c], a, c);
  }

  lemma ConnectedTrans(g: Graph, a: string, b: string, c: string)
    requires Connected(g, a, b) && Connected(g, b, c)
    ensures Connected(g, a, c)
  {
    var p :| Connects(g, p, a, b);
    var q :| Connects(g, q, b, c);
    var r := p + q[1..];
    forall i | 0 <= i < |r| - 1 ensures r[i + 1] in g[r[i]] {
      if i >= |p| - 1 {
        assert r[i] == q[i - (|p| - 1)] && r[i + 1] == q[i + 1 - (|p| - 1)];
      }
    }
    assert Connects(g, r, a, c);
  }

  lemma ConnectedSym(g: Graph, a: string, b: string)
    requires Undirected(g) && Connected(g, a, b)
    ensures Connected(g, b, a)
  {
    var p :| Connects(g, p, a, b);
    var r := seq(|p|, i requires 0 <= i < |p| => p[|p| - 1 - i]);
    forall i | 0 <= i < |r| - 1 ensures r[i + 1] in g[r[i]] {
      assert p[|p| - 2 - i + 1] in g[p[|p| - 2 - i]];
    }
    assert Connects(g, r, b, a);
  }

  ghost predicate Closed(g: Graph, s: set<string>) {
    forall a, b | a in s && a in g && b in g[a] :: b in s
  }

  /** A set closed under edges contains everything connected to its members. */
  lemma {:induction false} ClosedContainsPath(g: Graph, s: set<string>, p: seq<string>)
    requires Closed(g, s) && Path(g, p) && p[0] in s
    ensures p[|p| - 1] in s
  {
    if |p| > 1 {
      var q := p[..|p| - 1];
      assert Path(g, q);
      ClosedContainsPath(g, s, q);
      assert p[|p| - 2 + 1] in g[p[|p| - 2]];
    }
  }

  // ---- the search ----

  predicate Distinct(s: seq<string>) {
    forall i, j | 0 <= i < j < |s| :: s[i] != s[j]
  }

  /** The members of the component of `root`, which has not been visited. */
  method Explore(g: Graph, root: string, visited: set<string>) returns (members: seq<string>, visited': set<string>)
    requires Undirected(g) && root in g && root !in visited && Closed(g, visited)
    ensures Distinct(members) && root in members
    ensures forall x :: x in visited' <==> x in visited || x in members
    ensures forall x :: x in members <==> Connected(g, root, x)
    ensures forall x | x in members :: x !in visited
    ensures Closed(g, visited')
  {
    var pending := [root];
    members := [];
    visited' := visited;
    ConnectedRefl(g, root);
    while pending != []
      invariant forall x | x in pending :: x in g && Connected(g, root, x)
      invariant forall x | x in members :: x in g && Connected(g, root, x) && x !in visited
      invariant forall x :: x in visited' <==> x in visited || x in members
      invariant forall x, y | x in members && y in g[x] :: y in visited' || y in pending
      invariant root in members || root in pending
      invariant Distinct(members)
      decreases g.Keys - visited', |pending|
    {
      var id := pending[|pending| - 1];
      ghost var popped := pending;
      pending := pending[..|pending| - 1];
      assert popped == pending + [id];
      if id in visited' {
        continue;
      }
      visited' := visited' + {id};
      members := members + [id];
      forall y | y in g[id] ensures Connected(g, root, y) {
        ConnectedStep(g, root, id, y);
      }
      pending := pending + Ascending(g[id]);
    }
    var component := set x | x in members;
    assert Closed(g, component);
    forall x | Connected(g, root, x) ensures x in members {
      var p :| Connects(g, p, root, x);
      ClosedContainsPath(g, component, p);
    }
  }

  lemma SortedDistinctAscending(members: seq<string>)
    requires Distinct(members)
    ensures StrictlyAscending(Sort(members, StringLe))
    ensures forall x :: x in Sort(members, StringLe) <==> x in members
    ensures |Sort(members, StringLe)| == |members|
  {
    var sorted := Sort(members, StringLe);
    StringLeIsTotal();
    SortSorted(members, StringLe);
    assert |multiset(sorted)| == |sorted| && |multiset(members)| == |members|;
    forall x ensures x in sorted <==> x in members {
      SortMember(members, StringLe, x);
    }
    DistinctByCount(members, sorted);
  }

  lemma {:induction false} DistinctCount(s: seq<string>, x: string)
    requires Distinct(s)
    ensures multiset(s)[x] <= 1
  {
    if s != [] {
      var front, last := s[..|s| - 1], s[|s| - 1];
      assert s == front + [last];
      DistinctCount(front, x);
      assert last !in front;
      assert last !in multiset(front);
    }
  }

  lemma RepeatedCount(s: seq<string>, i: nat, j: nat)
    requires i < j < |s| && s[i] == s[j]
    ensures multiset(s)[s[i]] >= 2
  {
    assert s == s[..j] + s[j..];
    assert s[i] == s[..j][i] && s[j] == s[j..][0];
    assert s[i] in multiset(s[..j]) && s[i] in multiset(s[j..]);
  }

  lemma DistinctByCount(a: seq<string>, b: seq<string>)
    requires Distinct(a) && multiset(a) == multiset(b)
    ensures Distinct(b)
  {
    forall i, j | 0 <= i < j < |b| ensures b[i] != b[j] {
      if b[i] == b[j] {
        RepeatedCount(b, i, j);
        DistinctCount(a, b[i]);
      }
    }
  }

  lemma StringLeIsTotal()
    ensures IsTotalPreorder(StringLe)
  {
    forall x, y ensures StringLe(x, y) || StringLe(y, x) {
      StringLeTotal(x, y);
    }
    forall x, y, z | StringLe(x, y) && StringLe(y, z) ensures StringLe(x, z) {
      StringLeTransitive(x, y, z);
    }
  }

  // ---- the result ----

  /** A group is one whole component with at least two members, in ascending order. */
  ghost predicate IsComponent(g: Graph, ids: seq<string>) {
    && |ids| >= 2
    && StrictlyAscending(ids)
    && exists root :: root in g && root in ids && forall x :: x in ids <==> Connected(g, root, x)
  }

  /** Some member of `a` comes before every member of `b`. */
  ghost predicate AppearsBefore(order: seq<string>, a: seq<string>, b: seq<string>) {
    exists i :: 0 <= i < |order| && order[i] in a && forall j | 0 <= j <= i :: order[j] !in b
  }

  ghost predicate InSomeGroup(groups: seq<Group>, x: string) {
    exists i :: 0 <= i < |groups| && x in groups[i].deviceIds
  }

  /** Nobody in `s` who is connected to someone else is left out. */
  ghost predicate Covers(g: Graph, groups: seq<Group>, s: set<string>) {
    forall x, y | x in s && x != y && Connected(g, x, y) :: InSomeGroup(groups, x)
  }

  ghost predicate NumberedComponents(g: Graph, order: seq<string>, groups: seq<Group>) {
    && (forall i | 0 <= i < |groups| :: groups[i].id == i + 1)
    && (forall i | 0 <= i < |groups| :: IsComponent(g, groups[i].deviceIds))
    && (forall i, j | 0 <= i < j < |groups| :: AppearsBefore(order, groups[i].deviceIds, groups[j].deviceIds))
  }

  /** The groups are the components with at least two members, numbered from one in the order
      in which the devices appear. */
  ghost predicate AreComponents(g: Graph, order: seq<string>, groups: seq<Group>) {
    NumberedComponents(g, order, groups) && Covers(g, groups, set x | x in order)
  }

  ghost predicate Shows(order: seq<string>, k: nat, ids: seq<string>)
    requires k <= |order|
  {
    exists n :: 0 <= n < k && order[n] in ids
  }

  /** The search so far: the first `k` devices are visited, and every group shows one of them. */
  ghost predicate Searched(g: Graph, order: seq<string>, k: nat, groups: seq<Group>, visited: set<string>)
    requires k <= |order|
  {
    && Closed(g, visited)
    && (forall n | 0 <= n < k :: order[n] in visited)
    && (forall i, x | 0 <= i < |groups| && x in groups[i].deviceIds :: x in visited)
    && (forall i | 0 <= i < |groups| :: Shows(order, k, groups[i].deviceIds))
    && NumberedComponents(g, order, groups)
    && Covers(g, groups, visited)
  }

  lemma MoreGroupsCover(groups: seq<Group>, group: Group, x: string)
    requires InSomeGroup(groups, x) || x in group.deviceIds
    ensures InSomeGroup(groups + [group], x)
  {
    if InSomeGroup(groups, x) {
      var i :| 0 <= i < |groups| && x in groups[i].deviceIds;
      assert (groups + [group])[i] == groups[i];
    } else {
      assert (groups + [group])[|groups|] == group;
    }
  }

  /** A component of one member adds nothing to cover. */
  lemma LonerCovered(g: Graph, groups: seq<Group>, visited: set<string>, root: string)
    requires Undirected(g) && root in g && Covers(g, groups, visited)
    requires forall x :: x == root <==> Connected(g, root, x)
    ensures Covers(g, groups, visited + {root})
  {
  }

  lemma CoverKept(g: Graph, groups: seq<Group>, visited: set<string>, group: Group, visited': set<string>)
    requires Covers(g, groups, visited)
    requires forall x :: x in visited' <==> x in visited || x in group.deviceIds
    ensures Covers(g, groups + [group], visited')
  {
    forall x, y | x in visited' && x != y && Connected(g, x, y) ensures InSomeGroup(groups + [group], x) {
      if x in visited {
        assert InSomeGroup(groups, x);
      }
      MoreGroupsCover(groups, group, x);
    }
  }

  lemma ShownEarlier(order: seq<string>, k: nat, a: seq<string>, b: seq<string>, visited: set<string>)
    requires k <= |order| && Shows(order, k, a)
    requires forall n | 0 <= n < k :: order[n] in visited
    requires forall x | x in b :: x !in visited
    ensures AppearsBefore(order, a, b)
  {
    var n :| 0 <= n < k && order[n] in a;
    assert forall j | 0 <= j <= n :: order[j] !in b;
  }

  lemma NumberedAppended(g: Graph, order: seq<string>, k: nat, groups: seq<Group>, visited: set<string>,
                         ids: seq<string>)
    requires k < |order| && Searched(g, order, k, groups, visited) && IsComponent(g, ids)
    requires forall x | x in ids :: x !in visited
    ensures NumberedComponents(g, order, groups + [Group(|groups| + 1, ids)])
  {
    forall i | 0 <= i < |groups| ensures AppearsBefore(order, groups[i].deviceIds, ids) {
      ShownEarlier(order, k, groups[i].deviceIds, ids, visited);
    }
  }

  lemma GroupShown(order: seq<string>, k: nat, groups: seq<Group>, group: Group)
    requires k < |order| && order[k] in group.deviceIds
    requires forall i | 0 <= i < |groups| :: Shows(order, k, groups[i].deviceIds)
    ensures forall i | 0 <= i < |groups + [group]| :: Shows(order, k + 1, (groups + [group])[i].deviceIds)
  {
    var more := groups + [group];
    forall i | 0 <= i < |more| ensures Shows(order, k + 1, more[i].deviceIds) {
      if i < |groups| {
        assert Shows(order, k, groups[i].deviceIds);
      } else {
        assert order[k] in more[i].deviceIds;
      }
    }
  }

  lemma GroupAdded(g: Graph, order: seq<string>, k: nat, groups: seq<Group>, visited: set<string>,
                   ids: seq<string>, visited': set<string>)
    requires k < |order| && Searched(g, order, k, groups, visited) && Closed(g, visited')
    requires order[k] in g && order[k] in ids && order[k] !in visited
    requires |ids| >= 2 && StrictlyAscending(ids)
    requires forall x :: x in ids <==> Connected(g, order[k], x)
    requires forall x | x in ids :: x !in visited
    requires forall x :: x in visited' <==> x in visited || x in ids
    ensures Searched(g, order, k + 1, groups + [Group(|groups| + 1, ids)], visited')
  {
    var group := Group(|groups| + 1, ids);
    assert IsComponent(g, ids);
    NumberedAppended(g, order, k, groups, visited, ids);
    GroupShown(order, k, groups, group);
    CoverKept(g, groups, visited, group, visited');
  }

  lemma LonerSearched(g: Graph, order: seq<string>, k: nat, groups: seq<Group>, visited: set<string>,
                      visited': set<string>)
    requires Undirected(g) && k < |order| && order[k] in g && Searched(g, order, k, groups, visited)
    requires Closed(g, visited') && visited' == visited + {order[k]}
    requires forall x :: x == order[k] <==> Connected(g, order[k], x)
    ensures Searched(g, order, k + 1, groups, visited')
  {
    LonerCovered(g, groups, visited, order[k]);
    ShownLater(order, k, k + 1, groups);
  }

  lemma ShownLater(order: seq<string>, k: nat, m: nat, groups: seq<Group>)
    requires k <= m <= |order| && forall i | 0 <= i < |groups| :: Shows(order, k, groups[i].deviceIds)
    ensures forall i | 0 <= i < |groups| :: Shows(order, m, groups[i].deviceIds)
  {
    forall i | 0 <= i < |groups| ensures Shows(order, m, groups[i].deviceIds) {
      assert Shows(order, k, groups[i].deviceIds);
    }
  }

  lemma AlreadySearched(g: Graph, order: seq<string>, k: nat, groups: seq<Group>, visited: set<string>)
    requires k < |order| && order[k] in visited && Searched(g, order, k, groups, visited)
    ensures Searched(g, order, k + 1, groups, visited)
  {
    ShownLater(order, k, k + 1, groups);
  }

  method Components(g: Graph, order: seq<string>) returns (groups: seq<Group>)
    requires Undirected(g) && forall x | x in order :: x in g
    ensures AreComponents(g, order, groups)
  {
    var visited: set<string> := {};
    groups := [];
    for k := 0 to |order|
      invariant Searched(g, order, k, groups, visited)
    {
      if order[k] in visited {
        AlreadySearched(g, order, k, groups, visited);
        continue;
      }
      assert order[k] in order;
      ghost var before := visited;
      var members;
      members, visited := Explore(g, order[k], visited);
      if |members| > 1 {
        SortedDistinctAscending(members);
        GroupAdded(g, order, k, groups, before, Sort(members, StringLe), visited);
        groups := groups + [Group(|groups| + 1, Sort(members, StringLe))];
      } else {
        assert members == [order[k]];
        assert visited == before + {order[k]};
        LonerSearched(g, order, k, groups, before, visited);
      }
    }
    assert forall x | x in order :: x in visited;
  }

  method GroupNearbyDevices(dist: Metric, devices: seq<NearbyDevice>, policy: Policy)
    returns (r: Result<seq<Group>, TrackingError>)
    ensures
      r.Ok?
      <==> && policy.maximumDistanceMeters >= 0.0 && policy.maximumAccuracyMeters >= 0.0
           && forall device | device in devices && device.accuracyMeters.Some? :: device.accuracyMeters.value >= 0.0
    ensures r.Ok? ==> exists g :: IsGraph(dist, policy, devices, g) && AreComponents(g, Ids(devices), r.value)
  {
    if !ValidInput(devices, policy) {
      return Err(InvalidInput("nearby-device thresholds and accuracy must be non-negative"));
    }
    var g := BuildAdjacency(dist, policy, devices);
    GraphIsUndirected(dist, policy, devices, g);
    var groups := Components(g, Ids(devices));
    r := Ok(groups);
  }

  lemma LinksAreMutual(dist: Metric, policy: Policy, devices: seq<NearbyDevice>, n: nat, m: nat, a: string, b: string)
    requires m <= |devices| && LinkedUpTo(dist, policy, devices, n, m, a, b)
    ensures LinkedUpTo(dist, policy, devices, n, m, b, a) && a in Ids(devices) && b in Ids(devices)
  {
    var i, j :| 0 <= i < j < |devices| && (i < n || (i == n && j < m)) && Eligible(dist, policy, devices[i], devices[j])
      && ((devices[i].deviceId == a && devices[j].deviceId == b)
          || (devices[i].deviceId == b && devices[j].deviceId == a));
    assert Ids(devices)[i] == devices[i].deviceId && Ids(devices)[j] == devices[j].deviceId;
  }

  lemma EdgeIsMutual(dist: Metric, policy: Policy, devices: seq<NearbyDevice>, g: Graph, a: string, b: string)
    requires IsGraph(dist, policy, devices, g) && a in g && b in g[a]
    ensures b in g && a in g[b]
  {
    LinksAreMutual(dist, policy, devices, |devices|, 0, a, b);
  }

  lemma NodeEdgesAreMutual(dist: Metric, policy: Policy, devices: seq<NearbyDevice>, g: Graph, a: string)
    requires IsGraph(dist, policy, devices, g) && a in g
    ensures forall b | b in g[a] :: b in g && a in g[b]
  {
    forall b | b in g[a] ensures b in g && a in g[b] {
      EdgeIsMutual(dist, policy, devices, g, a, b);
    }
  }

  lemma GraphIsUndirected(dist: Metric, policy: Policy, devices: seq<NearbyDevice>, g: Graph)
    requires IsGraph(dist, policy, devices, g)
    ensures Undirected(g)
  {
    forall a | a in g ensures forall b | b in g[a] :: b in g && a in g[b] {
      NodeEdgesAreMutual(dist, policy, devices, g, a);
    }
  }

  // ---- what the result means for two devices ----

  lemma ComponentConnects(g: Graph, ids: seq<string>, a: string, b: string)
    requires Undirected(g) && IsComponent(g, ids) && a in ids
    ensures b in ids <==> Connected(g, a, b)
  {
    var root :| root in g && root in ids && forall x :: x in ids <==> Connected(g, root, x);
    if Connected(g, a, b) {
      ConnectedTrans(g, root, a, b);
    }
    if b in ids {
      ConnectedSym(g, root, a);
      ConnectedTrans(g, a, root, b);
    }
  }

  /** Two different devices share a group exactly when a path of eligible pairs joins them. */
  lemma SharedGroupMeansPath(g: Graph, order: seq<string>, groups: seq<Group>, a: string, b: string)
    requires Undirected(g) && AreComponents(g, order, groups) && a in order && a != b
    ensures (exists i :: 0 <= i < |groups| && a in groups[i].deviceIds && b in groups[i].deviceIds)
        <==> Connected(g, a, b)
  {
    forall i | 0 <= i < |groups| && a in groups[i].deviceIds
      ensures b in groups[i].deviceIds <==> Connected(g, a, b)
    {
      ComponentConnects(g, groups[i].deviceIds, a, b);
    }
    if Connected(g, a, b) {
      assert InSomeGroup(groups, a);
    }
  }

  lemma GroupsDisjoint(g: Graph, order: seq<string>, groups: seq<Group>, i: nat, j: nat)
    requires Undirected(g) && AreComponents(g, order, groups) && i < j < |groups|
    ensures forall x | x in groups[i].deviceIds :: x !in groups[j].deviceIds
  {
    var a, b := groups[i].deviceIds, groups[j].deviceIds;
    assert AppearsBefore(order, a, b);
    var n :| 0 <= n < |order| && order[n] in a && forall m | 0 <= m <= n :: order[m] !in b;
    forall x | x in a ensures x !in b {
      ComponentConnects(g, a, x, order[n]);
      if x in b {
        ComponentConnects(g, b, x, order[n]);
      }
    }
  }

  lemma SameIdSameIndex(devices: seq<NearbyDevice>, i: nat, j: nat)
    requires Distinct(Ids(devices)) && i < |devices| && j < |devices| && devices[i].deviceId == devices[j].deviceId
    ensures i == j
  {
    assert Ids(devices)[i] == Ids(devices)[j];
  }

  /** Both devices are tracked, online and no watches, they are in the same zone or both in none,
      one of them at least has an accurate enough fix, and they are close enough. */
  predicate Together(dist: Metric, policy: Policy, a: NearbyDevice, b: NearbyDevice) {
    && (a.tracked && a.online && !a.isWatch) && (b.tracked && b.online && !b.isWatch)
    && a.currentZone == b.currentZone
    && (a.accuracyMeters.None? || a.accuracyMeters.value > policy.maximumAccuracyMeters ==>
          b.accuracyMeters.Some? && b.accuracyMeters.value <= policy.maximumAccuracyMeters)
    && dist(a.location, b.location) <= policy.maximumDistanceMeters
  }

  /** With distinct ids and a symmetric distance, the edges are the eligible pairs themselves. */
  lemma EdgesAreEligiblePairs(dist: Metric, policy: Policy, devices: seq<NearbyDevice>, g: Graph, i: nat, j: nat)
    requires IsMetric(dist) && IsGraph(dist, policy, devices, g) && Distinct(Ids(devices))
    requires i < |devices| && j < |devices| && i != j
    ensures devices[i].deviceId in g
    ensures devices[j].deviceId in g[devices[i].deviceId] <==> Together(dist, policy, devices[i], devices[j])
  {
    var a, b := devices[i].deviceId, devices[j].deviceId;
    assert Ids(devices)[i] == a;
    assert dist(devices[i].location, devices[j].location) == dist(devices[j].location, devices[i].location);
    assert Eligible(dist, policy, devices[i], devices[j]) == Eligible(dist, policy, devices[j], devices[i]);
    if LinkedUpTo(dist, policy, devices, |devices|, 0, a, b) {
      var n, m :| 0 <= n < m < |devices| && Eligible(dist, policy, devices[n], devices[m])
        && ((devices[n].deviceId == a && devices[m].deviceId == b)
            || (devices[n].deviceId == b && devices[m].deviceId == a));
      if devices[n].deviceId == a && devices[m].deviceId == b {
        SameIdSameIndex(devices, n, i);
        SameIdSameIndex(devices, m, j);
      } else {
        SameIdSameIndex(devices, n, j);
        SameIdSameIndex(devices, m, i);
      }
    }
  }
}
