// The string order and the sorts that the tracker relies on. Strings compare by
// code point, a proper prefix first.
module Order {

  predicate StringLe(a: string, b: string) {
    if a == "" then true
    else if b == "" then false
    else if a[0] != b[0] then a[0] < b[0]
    else StringLe(a[1..], b[1..])
  }

  lemma {:induction false} StringLeTotal(a: string, b: string)
    ensures StringLe(a, b) || StringLe(b, a)
  {
    if a != "" && b != "" && a[0] == b[0] {
      StringLeTotal(a[1..], b[1..]);
    }
  }

  lemma {:induction false} StringLeAntisymmetric(a: string, b: string)
    requires StringLe(a, b) && StringLe(b, a)
    ensures a == b
  {
    if a != "" && b != "" {
      StringLeAntisymmetric(a[1..], b[1..]);
      assert a == [a[0]] + a[1..] && b == [b[0]] + b[1..];
    }
  }

  lemma {:induction false} StringLeTransitive(a: string, b: string, c: string)
    requires StringLe(a, b) && StringLe(b, c)
    ensures StringLe(a, c)
  {
    if a != "" && a[0] == b[0] && b[0] == c[0] {
      StringLeTransitive(a[1..], b[1..], c[1..]);
    }
  }

  /** The strings agree up to position `i`, where the first has the lesser character. */
  predicate LessAt(a: string, b: string, i: nat) {
    i < |a| && i < |b| && a[..i] == b[..i] && a[i] < b[i]
  }

  lemma LessAtHead(a: string, b: string, i: nat)
    requires a != "" && b != "" && a[0] != b[0]
    ensures LessAt(a, b, i) <==> i == 0 && a[0] < b[0]
  {
    if 0 < i < |a| && i < |b| {
      assert a[..i][0] == a[0] && b[..i][0] == b[0];
    }
  }

  lemma LessAtTail(a: string, b: string, i: nat)
    requires a != "" && b != "" && a[0] == b[0]
    ensures LessAt(a, b, i + 1) <==> LessAt(a[1..], b[1..], i)
  {
    if i < |a[1..]| && i < |b[1..]| {
      assert a[..i + 1] == [a[0]] + a[1..][..i] && b[..i + 1] == [b[0]] + b[1..][..i];
      assert a[..i + 1][1..] == a[1..][..i] && b[..i + 1][1..] == b[1..][..i];
    }
  }

  lemma PrefixTail(a: string, b: string)
    requires a != "" && b != "" && a[0] == b[0]
    ensures a <= b <==> a[1..] <= b[1..]
  {
    assert a == [a[0]] + a[1..] && b == [b[0]] + b[1..];
    if a[1..] <= b[1..] {
      assert forall i | 0 < i < |a| :: a[i] == a[1..][i - 1] && b[i] == b[1..][i - 1];
    }
  }

  /** The order is that of a dictionary: by the first character in which the strings differ, and a
      proper prefix first. */
  lemma {:induction false} StringLeExactly(a: string, b: string)
    ensures StringLe(a, b) <==> a <= b || exists i: nat :: LessAt(a, b, i)
  {
    if a != "" && b != "" {
      if a[0] == b[0] {
        StringLeExactly(a[1..], b[1..]);
        forall i: nat ensures LessAt(a, b, i + 1) <==> LessAt(a[1..], b[1..], i) {
          LessAtTail(a, b, i);
        }
        PrefixTail(a, b);
        if i: nat :| LessAt(a[1..], b[1..], i) {
          assert LessAt(a, b, i + 1);
        }
        if i: nat :| LessAt(a, b, i) {
          assert i > 0 && LessAt(a, b, (i - 1) + 1);
          assert LessAt(a[1..], b[1..], i - 1);
        }
      } else {
        forall i: nat ensures LessAt(a, b, i) <==> i == 0 && a[0] < b[0] {
          LessAtHead(a, b, i);
        }
        assert a[0] < b[0] ==> LessAt(a, b, 0);
      }
    }
  }

  // ---- orders given as functions ----

  ghost predicate IsTotalPreorder<T(!new)>(le: (T, T) -> bool) {
    && (forall x, y :: le(x, y) || le(y, x))
    && (forall x, y, z :: le(x, y) && le(y, z) ==> le(x, z))
  }

  ghost predicate Sorted<T>(s: seq<T>, le: (T, T) -> bool) {
    forall i, j | 0 <= i < j < |s| :: le(s[i], s[j])
  }

  function Insert<T>(x: T, s: seq<T>, le: (T, T) -> bool): (r: seq<T>)
    ensures multiset(r) == multiset(s) + multiset{x}
  {
    if s == [] then [x]
    else if le(x, s[0]) then [x] + s
    else
      assert s == [s[0]] + s[1..];
      [s[0]] + Insert(x, s[1..], le)
  }

  /** The sort the code calls, specified as an insertion sort. */
  function Sort<T>(s: seq<T>, le: (T, T) -> bool): (r: seq<T>)
    ensures multiset(r) == multiset(s)
  {
    if s == [] then []
    else
      assert s == [s[0]] + s[1..];
      Insert(s[0], Sort(s[1..], le), le)
  }

  lemma {:induction false} InsertSorted<T(!new)>(x: T, s: seq<T>, le: (T, T) -> bool)
    requires IsTotalPreorder(le) && Sorted(s, le)
    ensures Sorted(Insert(x, s, le), le)
  {
    if s != [] && !le(x, s[0]) {
      var rest := Insert(x, s[1..], le);
      InsertSorted(x, s[1..], le);
      forall j | 0 <= j < |rest| ensures le(s[0], rest[j]) {
        assert rest[j] in multiset(rest);
        if rest[j] != x {
          assert rest[j] in multiset(s[1..]);
          var k :| 0 <= k < |s[1..]| && s[1..][k] == rest[j];
          assert le(s[0], s[k + 1]);
        }
      }
    }
  }

  lemma {:induction false} SortSorted<T(!new)>(s: seq<T>, le: (T, T) -> bool)
    requires IsTotalPreorder(le)
    ensures Sorted(Sort(s, le), le)
  {
    if s != [] {
      SortSorted(s[1..], le);
      InsertSorted(s[0], Sort(s[1..], le), le);
    }
  }

  ghost predicate NoTies<T(!new)>(s: multiset<T>, le: (T, T) -> bool) {
    forall x, y | x in s && y in s && le(x, y) && le(y, x) :: x == y
  }

  lemma SortedHead<T(!new)>(a: seq<T>, b: seq<T>, le: (T, T) -> bool)
    requires a != [] && b != [] && multiset(a) == multiset(b)
    requires Sorted(a, le) && Sorted(b, le) && NoTies(multiset(a), le)
    ensures a[0] == b[0]
  {
    assert a[0] in multiset(b) && b[0] in multiset(a);
    var i :| 0 <= i < |b| && b[i] == a[0];
    var j :| 0 <= j < |a| && a[j] == b[0];
    if i != 0 && j != 0 {
      assert le(b[0], b[i]) && le(a[0], a[j]);
    }
  }

  /** Two sorted arrangements of the same elements agree when no two distinct elements tie. */
  lemma {:induction false} SortedUnique<T(!new)>(a: seq<T>, b: seq<T>, le: (T, T) -> bool)
    requires multiset(a) == multiset(b)
    requires Sorted(a, le) && Sorted(b, le) && NoTies(multiset(a), le)
    ensures a == b
  {
    assert |multiset(a)| == |a| && |multiset(b)| == |b|;
    if a != [] {
      SortedHead(a, b, le);
      assert a == [a[0]] + a[1..];
      assert b == [a[0]] + b[1..];
      assert multiset(a[1..]) == multiset(a) - multiset{a[0]};
      assert multiset(b[1..]) == multiset(b) - multiset{a[0]};
      SortedUnique(a[1..], b[1..], le);
    }
  }

  lemma SortMember<T>(s: seq<T>, le: (T, T) -> bool, x: T)
    ensures x in Sort(s, le) <==> x in s
  {
    assert x in Sort(s, le) <==> x in multiset(Sort(s, le));
    assert x in s <==> x in multiset(s);
  }

  /** The head of a sort is an element below every other. */
  lemma SortHead<T(!new)>(s: seq<T>, le: (T, T) -> bool)
    requires IsTotalPreorder(le) && s != []
    ensures Sort(s, le) != [] && Sort(s, le)[0] in s
    ensures forall x | x in s :: le(Sort(s, le)[0], x)
  {
    var sorted := Sort(s, le);
    SortSorted(s, le);
    assert |multiset(sorted)| == |sorted| && |multiset(s)| == |s|;
    SortMember(s, le, sorted[0]);
    forall x | x in s ensures le(sorted[0], x) {
      SortMember(s, le, x);
      assert le(x, x);
      var i :| 0 <= i < |sorted| && sorted[i] == x;
    }
  }

  // ---- filter-and-map over lists ----

  function Collect<T, U>(s: seq<T>, keep: T -> bool, f: T -> U): seq<U> {
    if s == [] then []
    else Collect(s[..|s| - 1], keep, f) + (if keep(s[|s| - 1]) then [f(s[|s| - 1])] else [])
  }

  lemma CollectSnoc<T, U>(s: seq<T>, n: nat, keep: T -> bool, f: T -> U)
    requires n < |s|
    ensures Collect(s[..n + 1], keep, f) == Collect(s[..n], keep, f) + (if keep(s[n]) then [f(s[n])] else [])
  {
    assert s[..n + 1][..n] == s[..n];
  }

  lemma {:induction false} CollectConcat<T, U>(a: seq<T>, b: seq<T>, keep: T -> bool, f: T -> U)
    ensures Collect(a + b, keep, f) == Collect(a, keep, f) + Collect(b, keep, f)
  {
    if b == [] {
      assert a + b == a;
    } else {
      assert (a + b)[..|a + b| - 1] == a + b[..|b| - 1];
      CollectConcat(a, b[..|b| - 1], keep, f);
    }
  }

  lemma {:induction false} CollectMember<T, U>(s: seq<T>, keep: T -> bool, f: T -> U, y: U)
    ensures y in Collect(s, keep, f) <==> exists x :: x in s && keep(x) && f(x) == y
  {
    if s != [] {
      var front, last := s[..|s| - 1], s[|s| - 1];
      assert s == front + [last];
      CollectMember(front, keep, f, y);
    }
  }

  lemma CollectSplit<T, U>(before: seq<T>, x: T, after: seq<T>, keep: T -> bool, f: T -> U)
    ensures multiset(Collect(before + [x] + after, keep, f))
         == multiset(Collect(before + after, keep, f)) + multiset(if keep(x) then [f(x)] else [])
  {
    CollectConcat(before + [x], after, keep, f);
    CollectConcat(before, after, keep, f);
    assert (before + [x])[..|before|] == before;
  }

  lemma RemoveLast<T>(a: seq<T>, b: seq<T>) returns (before: seq<T>, after: seq<T>)
    requires a != [] && multiset(a) == multiset(b)
    ensures b == before + [a[|a| - 1]] + after
    ensures multiset(before + after) == multiset(a[..|a| - 1])
  {
    var front, last := a[..|a| - 1], a[|a| - 1];
    assert a == front + [last];
    assert last in multiset(b);
    var i :| 0 <= i < |b| && b[i] == last;
    before, after := b[..i], b[i + 1..];
    assert b == before + [last] + after;
    assert multiset(front) == multiset(a) - multiset{last};
    assert multiset(before + after) == multiset(b) - multiset{last};
  }

  /** What is collected depends on the elements, not on their order. */
  lemma {:induction false} CollectPermutation<T, U>(a: seq<T>, b: seq<T>, keep: T -> bool, f: T -> U)
    requires multiset(a) == multiset(b)
    ensures multiset(Collect(a, keep, f)) == multiset(Collect(b, keep, f))
  {
    if a == [] {
      assert |multiset(b)| == |b|;
    } else {
      var before, after := RemoveLast(a, b);
      CollectPermutation(a[..|a| - 1], before + after, keep, f);
      CollectSplit(before, a[|a| - 1], after, keep, f);
    }
  }

  // ---- ordered sets of strings ----

  ghost predicate StrictlyAscending(s: seq<string>) {
    forall i, j | 0 <= i < j < |s| :: StringLe(s[i], s[j]) && s[i] != s[j]
  }

  predicate IsLeast(m: string, s: set<string>) {
    m in s && forall x | x in s :: StringLe(m, x)
  }

  lemma {:induction false} LeastExists(s: set<string>)
    requires s != {}
    ensures exists m :: IsLeast(m, s)
    decreases |s|
  {
    var x :| x in s;
    StringLeTotal(x, x);
    if s == {x} {
      assert IsLeast(x, s);
    } else {
      var rest := s - {x};
      LeastExists(rest);
      var y :| IsLeast(y, rest);
      StringLeTotal(x, y);
      if StringLe(y, x) {
        assert IsLeast(y, s);
      } else {
        forall z | z in s ensures StringLe(x, z) {
          if z != x {
            StringLeTransitive(x, y, z);
          }
        }
        assert IsLeast(x, s);
      }
    }
  }

  lemma LeastUnique(s: set<string>)
    ensures forall x, y | IsLeast(x, s) && IsLeast(y, s) :: x == y
  {
    forall x, y | IsLeast(x, s) && IsLeast(y, s) ensures x == y {
      StringLeAntisymmetric(x, y);
    }
  }

  function Least(s: set<string>): (r: string)
    requires s != {}
    ensures IsLeast(r, s)
  {
    LeastExists(s);
    LeastUnique(s);
    var m :| m in s && IsLeast(m, s);
    m
  }

  /** The elements of an ordered set in iteration order. */
  function Ascending(s: set<string>): (r: seq<string>)
    ensures forall x :: x in r <==> x in s
    decreases |s|
  {
    if s == {} then []
    else
      var m := Least(s);
      [m] + Ascending(s - {m})
  }

  lemma {:induction false} AscendingIsStrict(s: set<string>)
    ensures StrictlyAscending(Ascending(s))
    decreases |s|
  {
    if s != {} {
      AscendingIsStrict(s - {Least(s)});
    }
  }

  /** An ascending enumeration is determined by the set it enumerates. */
  lemma AscendingUnique(a: seq<string>, s: set<string>)
    requires StrictlyAscending(a) && forall x :: x in a <==> x in s
    ensures a == Ascending(s)
  {
    AscendingIsStrict(s);
    AscendingSameElements(a, Ascending(s));
  }

  lemma {:induction false} AscendingSameElements(a: seq<string>, b: seq<string>)
    requires StrictlyAscending(a) && StrictlyAscending(b) && forall x :: x in a <==> x in b
    ensures a == b
  {
    assert a != [] ==> a[0] in b;
    assert b != [] ==> b[0] in a;
    if a != [] && b != [] {
      if a[0] != b[0] {
        var i :| 0 <= i < |b| && b[i] == a[0];
        var j :| 0 <= j < |a| && a[j] == b[0];
        StringLeAntisymmetric(a[0], b[0]);
      }
      assert a == [a[0]] + a[1..] && b == [b[0]] + b[1..];
      forall x ensures x in a[1..] <==> x in b[1..] {
        assert x in a[1..] ==> x in a && x != a[0];
        assert x in b[1..] ==> x in b && x != b[0];
      }
      AscendingSameElements(a[1..], b[1..]);
    }
  }
}
