// Names that tell devices apart: each device gets its own name followed by as many dots
// as it takes.
module Naming {

  datatype Device = Device(name: string, uniqueName: string)

  function Dotted(name: string, dots: nat): string {
    if dots == 0 then name else Dotted(name, dots - 1) + "."
  }

  lemma {:induction false} DottedLength(name: string, dots: nat)
    ensures |Dotted(name, dots)| == |name| + dots
  {
    if dots > 0 {
      DottedLength(name, dots - 1);
    }
  }

  ghost predicate Taken(devices: seq<Device>, n: nat, uniqueName: string)
    requires n <= |devices|
  {
    exists i :: 0 <= i < n && devices[i].uniqueName == uniqueName
  }

  /** Device `n` has the fewest dots that no earlier device left it without. */
  ghost predicate FewestDots(devices: seq<Device>, n: nat, dots: nat)
    requires n < |devices|
  {
    && devices[n].uniqueName == Dotted(devices[n].name, dots)
    && !Taken(devices, n, Dotted(devices[n].name, dots))
    && forall fewer | 0 <= fewer < dots :: Taken(devices, n, Dotted(devices[n].name, fewer))
  }

  ghost predicate Named(devices: seq<Device>, n: nat)
    requires n < |devices|
  {
    exists dots: nat :: FewestDots(devices, n, dots)
  }

  method AssignUniqueNames(devices: array<Device>)
    modifies devices
    ensures forall n | 0 <= n < devices.Length :: devices[n].name == old(devices[n].name)
    ensures forall n | 0 <= n < devices.Length :: Named(devices[..], n)
  {
    var names: set<string> := {};
    for n := 0 to devices.Length
      invariant forall m | 0 <= m < devices.Length :: devices[m].name == old(devices[m].name)
      invariant forall m | 0 <= m < n :: Named(devices[..], m)
      invariant forall s :: s in names <==> Taken(devices[..], n, s)
    {
      var name := devices[n].name;
      var uniqueName := name;
      ghost var dots: nat := 0;
      ghost var tried: set<string> := {};
      while uniqueName in names
        invariant uniqueName == Dotted(name, dots)
        invariant forall fewer | 0 <= fewer < dots :: Dotted(name, fewer) in names
        invariant tried <= names && forall s | s in tried :: |s| < |uniqueName|
        decreases names - tried
      {
        tried := tried + {uniqueName};
        uniqueName := uniqueName + ".";
        dots := dots + 1;
      }
      ghost var before := devices[..];
      names := names + {uniqueName};
      devices[n] := devices[n].(uniqueName := uniqueName);
      NamesKept(before, devices[..], n);
      assert FewestDots(devices[..], n, dots);
      forall s ensures s in names <==> Taken(devices[..], n + 1, s) {
        if s == uniqueName {
          assert devices[..][n].uniqueName == s;
        } else {
          TakenAfter(before, devices[..], n, s);
        }
      }
    }
  }

  /** Naming device `n` changes nothing for the devices before it. */
  lemma NamesKept(before: seq<Device>, after: seq<Device>, n: nat)
    requires n < |before| == |after| && forall i | 0 <= i < |before| && i != n :: after[i] == before[i]
    ensures forall m, s | 0 <= m <= n :: Taken(after, m, s) <==> Taken(before, m, s)
    ensures forall m | 0 <= m < n :: Named(before, m) ==> Named(after, m)
  {
    forall m, s | 0 <= m <= n ensures Taken(after, m, s) <==> Taken(before, m, s) {
      if Taken(before, m, s) {
        var i :| 0 <= i < m && before[i].uniqueName == s;
        assert after[i].uniqueName == s;
      }
    }
    forall m | 0 <= m < n && Named(before, m) ensures Named(after, m) {
      var dots: nat :| FewestDots(before, m, dots);
      assert FewestDots(after, m, dots);
    }
  }

  lemma TakenAfter(before: seq<Device>, after: seq<Device>, n: nat, s: string)
    requires n < |before| == |after| && forall i | 0 <= i < |before| && i != n :: after[i] == before[i]
    requires after[n].uniqueName != s
    ensures Taken(after, n + 1, s) <==> Taken(before, n, s)
  {
    if Taken(before, n, s) {
      var i :| 0 <= i < n && before[i].uniqueName == s;
      assert after[i].uniqueName == s;
    }
  }

  // ---- what that makes of the names ----

  ghost predicate AllNamed(devices: seq<Device>) {
    forall n | 0 <= n < |devices| :: Named(devices, n)
  }

  lemma UniqueNamesDiffer(devices: seq<Device>, m: nat, n: nat)
    requires AllNamed(devices) && m < n < |devices|
    ensures devices[m].uniqueName != devices[n].uniqueName
  {
    assert Named(devices, n);
    var dots: nat :| FewestDots(devices, n, dots);
  }

  /** The names alone determine the unique names. */
  lemma {:induction false} UniqueNamesDetermined(a: seq<Device>, b: seq<Device>, n: nat)
    requires AllNamed(a) && AllNamed(b) && |a| == |b| && n <= |a|
    requires forall i | 0 <= i < |a| :: a[i].name == b[i].name
    ensures a[..n] == b[..n]
  {
    if n > 0 {
      var k := n - 1;
      UniqueNamesDetermined(a, b, k);
      assert Named(a, k) && Named(b, k);
      var x: nat :| FewestDots(a, k, x);
      var y: nat :| FewestDots(b, k, y);
      forall s ensures Taken(a, k, s) <==> Taken(b, k, s) {
        SamePrefixSameTaken(a, b, k, s);
      }
      assert x == y;
      assert a[..n] == a[..k] + [a[k]] && b[..n] == b[..k] + [b[k]];
    }
  }

  lemma SamePrefixSameTaken(a: seq<Device>, b: seq<Device>, k: nat, s: string)
    requires k <= |a| && k <= |b| && a[..k] == b[..k]
    ensures Taken(a, k, s) <==> Taken(b, k, s)
  {
    assert forall i | 0 <= i < k :: a[i] == a[..k][i] && b[i] == b[..k][i];
  }

  /** Every device keeps its plain name exactly when the plain names were distinct already. */
  lemma PlainNamesKeptExactly(devices: seq<Device>)
    requires AllNamed(devices)
    ensures (forall n | 0 <= n < |devices| :: devices[n].uniqueName == devices[n].name)
            <==> (forall m, n | 0 <= m < n < |devices| :: devices[m].name != devices[n].name)
  {
    if forall n | 0 <= n < |devices| :: devices[n].uniqueName == devices[n].name {
      forall m, n | 0 <= m < n < |devices| ensures devices[m].name != devices[n].name {
        UniqueNamesDiffer(devices, m, n);
      }
    }
    if forall m, n | 0 <= m < n < |devices| :: devices[m].name != devices[n].name {
      DistinctNamesKept(devices, |devices|);
    }
  }

  lemma {:induction false} DistinctNamesKept(devices: seq<Device>, n: nat)
    requires AllNamed(devices) && n <= |devices|
    requires forall i, j | 0 <= i < j < |devices| :: devices[i].name != devices[j].name
    ensures forall i | 0 <= i < n :: devices[i].uniqueName == devices[i].name
  {
    if n > 0 {
      var k := n - 1;
      DistinctNamesKept(devices, k);
      assert Named(devices, k);
      assert !Taken(devices, k, Dotted(devices[k].name, 0));
    }
  }
}
