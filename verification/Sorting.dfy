/** Stable sorting, as ECMAScript requires it since 2019, removal of duplicates, and the orders they are used with.
    `localeCompare` is a parameter: any total preorder on strings, because distinct strings may compare equal. */
module Sorting {

  ghost predicate TotalPreorder<T(!new)>(le: (T, T) -> bool) {
    (forall a, b :: le(a, b) || le(b, a)) &&
    (forall a, b, c :: le(a, b) && le(b, c) ==> le(a, c))
  }

  ghost predicate TotalOrder<T(!new)>(le: (T, T) -> bool) {
    TotalPreorder(le) && forall a, b :: le(a, b) && le(b, a) ==> a == b
  }

  /** Compare by a string key. */
  function By<T>(key: T -> string, le: (string, string) -> bool): (T, T) -> bool {
    (a, b) => le(key(a), key(b))
  }

  /** One comparison after another: the second decides only where the first says equal. */
  function Then<T>(first: (T, T) -> bool, second: (T, T) -> bool): (T, T) -> bool {
    (a, b) => first(a, b) && (!first(b, a) || second(a, b))
  }

  lemma ByPreorder<T(!new)>(key: T -> string, le: (string, string) -> bool)
    requires TotalPreorder(le)
    ensures TotalPreorder(By(key, le))
  {
    var f := By(key, le);
    assert forall a, b :: f(a, b) == le(key(a), key(b));
  }

  lemma ThenPreorder<T(!new)>(first: (T, T) -> bool, second: (T, T) -> bool)
    requires TotalPreorder(first) && TotalPreorder(second)
    ensures TotalPreorder(Then(first, second))
  {
    var f := Then(first, second);
    forall a, b, c | f(a, b) && f(b, c)
      ensures f(a, c)
    {
      assert first(a, c);
      if first(c, a) {
        assert first(b, a) && first(c, b);
      }
    }
  }

  ghost predicate Sorted<T>(s: seq<T>, le: (T, T) -> bool) {
    forall i, j | 0 <= i < j < |s| :: le(s[i], s[j])
  }

  /** Put x after every element that is not greater than it. */
  function Insert<T>(x: T, s: seq<T>, le: (T, T) -> bool): seq<T> {
    if s == [] || le(s[|s| - 1], x) then s + [x]
    else Insert(x, s[..|s| - 1], le) + [s[|s| - 1]]
  }

  /** The result of a stable sort. */
  function Sort<T>(s: seq<T>, le: (T, T) -> bool): seq<T> {
    if s == [] then [] else Insert(s[|s| - 1], Sort(s[..|s| - 1], le), le)
  }

  lemma {:induction false} InsertPermutes<T>(x: T, s: seq<T>, le: (T, T) -> bool)
    ensures multiset(Insert(x, s, le)) == multiset(s) + multiset{x}
  {
    if s != [] && !le(s[|s| - 1], x) {
      InsertPermutes(x, s[..|s| - 1], le);
      assert s == s[..|s| - 1] + [s[|s| - 1]];
    }
  }

  lemma {:induction false} SortPermutes<T>(s: seq<T>, le: (T, T) -> bool)
    ensures multiset(Sort(s, le)) == multiset(s)
    ensures |Sort(s, le)| == |s|
    ensures forall x :: x in Sort(s, le) <==> x in s
  {
    if s != [] {
      SortPermutes(s[..|s| - 1], le);
      InsertPermutes(s[|s| - 1], Sort(s[..|s| - 1], le), le);
      assert s == s[..|s| - 1] + [s[|s| - 1]];
    }
    SameMembers(Sort(s, le), s);
  }

  lemma SameMembers<T>(a: seq<T>, b: seq<T>)
    requires multiset(a) == multiset(b)
    ensures |a| == |b|
    ensures forall x :: x in a <==> x in b
  {
    assert |multiset(a)| == |a| && |multiset(b)| == |b|;
    forall x ensures x in a <==> x in b {
      assert x in a <==> x in multiset(a);
      assert x in b <==> x in multiset(b);
    }
  }

  lemma {:induction false} InsertSorted<T(!new)>(x: T, s: seq<T>, le: (T, T) -> bool)
    requires TotalPreorder(le) && Sorted(s, le)
    ensures Sorted(Insert(x, s, le), le)
  {
    if s != [] && !le(s[|s| - 1], x) {
      var rest := s[..|s| - 1];
      InsertSorted(x, rest, le);
      InsertPermutes(x, rest, le);
      var t := Insert(x, rest, le);
      forall i | 0 <= i < |t| ensures le(t[i], s[|s| - 1]) {
        assert t[i] in multiset(t);
        assert t[i] in rest || t[i] == x;
      }
    }
  }

  lemma {:induction false} SortSorts<T(!new)>(s: seq<T>, le: (T, T) -> bool)
    requires TotalPreorder(le)
    ensures Sorted(Sort(s, le), le)
  {
    if s != [] {
      SortSorts(s[..|s| - 1], le);
      InsertSorted(s[|s| - 1], Sort(s[..|s| - 1], le), le);
    }
  }

  /** Sorting a sorted list changes nothing, so re-sorting on every read is harmless. */
  lemma {:induction false} SortIdentity<T>(s: seq<T>, le: (T, T) -> bool)
    requires Sorted(s, le)
    ensures Sort(s, le) == s
  {
    if s != [] {
      var rest := s[..|s| - 1];
      assert Sorted(rest, le);
      SortIdentity(rest, le);
      if |s| > 1 {
        assert le(rest[|rest| - 1], s[|s| - 1]);
      }
      assert Insert(s[|s| - 1], rest, le) == rest + [s[|s| - 1]];
    }
  }

  /** Appending to a sorted list and sorting keeps the new element last exactly when it is not below the old last
      one. */
  lemma SortAppend<T(!new)>(s: seq<T>, x: T, le: (T, T) -> bool)
    requires TotalPreorder(le) && Sorted(s, le)
    ensures Sort(s + [x], le) == s + [x] <==> s == [] || le(s[|s| - 1], x)
  {
    SortIdentity(s, le);
    assert (s + [x])[..|s|] == s;
    SortSorts(s + [x], le);
    if Sort(s + [x], le) == s + [x] && s != [] {
      assert le((s + [x])[|s| - 1], (s + [x])[|s|]);
    }
  }

  /** The elements that the order does not tell from x, as they come. */
  ghost function Alike<T>(s: seq<T>, x: T, le: (T, T) -> bool): seq<T> {
    if s == [] then []
    else
      var last := s[|s| - 1];
      Alike(s[..|s| - 1], x, le) + if le(last, x) && le(x, last) then [last] else []
  }

  lemma {:induction false} InsertStable<T(!new)>(y: T, s: seq<T>, x: T, le: (T, T) -> bool)
    requires TotalPreorder(le)
    ensures Alike(Insert(y, s, le), x, le) == Alike(s, x, le) + if le(y, x) && le(x, y) then [y] else []
  {
    if s != [] && !le(s[|s| - 1], y) {
      InsertStable(y, s[..|s| - 1], x, le);
    } else {
      assert (s + [y])[..|s|] == s;
    }
  }

  /** Elements that the order does not tell apart keep their order. */
  lemma {:induction false} SortStable<T(!new)>(s: seq<T>, x: T, le: (T, T) -> bool)
    requires TotalPreorder(le)
    ensures Alike(Sort(s, le), x, le) == Alike(s, x, le)
  {
    if s != [] {
      SortStable(s[..|s| - 1], x, le);
      InsertStable(s[|s| - 1], Sort(s[..|s| - 1], le), x, le);
    }
  }

  /** Two sorted arrangements of the same elements are equal when equal keys mean equal elements. */
  lemma {:induction false} SortedUnique<T>(a: seq<T>, b: seq<T>, le: (T, T) -> bool)
    requires multiset(a) == multiset(b) && Sorted(a, le) && Sorted(b, le)
    requires forall x, y | x in a && y in a && le(x, y) && le(y, x) :: x == y
    ensures a == b
  {
    SameMembers(a, b);
    if a != [] {
      var n := |a| - 1;
      LastIsGreatest(a, b[n], le);
      LastIsGreatest(b, a[n], le);
      WithoutLast(a);
      WithoutLast(b);
      SortedUnique(a[..n], b[..n], le);
    }
  }

  lemma LastIsGreatest<T>(s: seq<T>, x: T, le: (T, T) -> bool)
    requires Sorted(s, le) && x in s
    ensures x == s[|s| - 1] || le(x, s[|s| - 1])
  {
  }

  lemma WithoutLast<T>(s: seq<T>)
    requires s != []
    ensures multiset(s[..|s| - 1]) == multiset(s) - multiset{s[|s| - 1]}
    ensures forall x | x in s[..|s| - 1] :: x in s
  {
    assert s == s[..|s| - 1] + [s[|s| - 1]];
  }

  ghost predicate NoDuplicates<T>(s: seq<T>) {
    forall i, j | 0 <= i < j < |s| :: s[i] != s[j]
  }

  lemma AllAlike<T>(s: seq<T>, x: T)
    requires forall y | y in s :: y == x
    ensures forall i | 0 <= i < |s| :: s[i] == x
    ensures |s| > 1 ==> s[0] == s[1]
  {
    forall i | 0 <= i < |s| ensures s[i] == x { assert s[i] in s; }
  }

  /** A list without duplicates that has one element only. */
  lemma OnlyMember<T>(s: seq<T>, x: T)
    requires NoDuplicates(s) && x in s && forall y | y in s :: y == x
    ensures s == [x]
  {
    AllAlike(s, x);
  }

  /** The first occurrences, in order. */
  function Dedup<T(==)>(s: seq<T>): seq<T> {
    if s == [] then []
    else
      var d := Dedup(s[..|s| - 1]);
      if s[|s| - 1] in d then d else d + [s[|s| - 1]]
  }

  lemma {:induction false} DedupSpec<T>(s: seq<T>)
    ensures NoDuplicates(Dedup(s))
    ensures forall x :: x in Dedup(s) <==> x in s
  {
    if s != [] {
      DedupSpec(s[..|s| - 1]);
      assert s == s[..|s| - 1] + [s[|s| - 1]];
    }
  }

  /** Removing repetitions does not change which element comes first. */
  lemma {:induction false} DedupPlaces<T>(s: seq<T>, n: nat) returns (k: nat)
    requires n < |Dedup(s)|
    ensures k < |s| && s[k] == Dedup(s)[n] && forall j | 0 <= j < k :: s[j] in Dedup(s)[..n]
  {
    var d := Dedup(s[..|s| - 1]);
    if n < |d| {
      k := DedupPlaces(s[..|s| - 1], n);
      assert Dedup(s)[..n] == d[..n];
    } else {
      k := |s| - 1;
      DedupSpec(s[..|s| - 1]);
      forall j | 0 <= j < k ensures s[j] in Dedup(s)[..n] { assert s[j] == s[..|s| - 1][j] && Dedup(s)[..n] == d; }
    }
  }

  lemma {:induction false} DedupIdentity<T>(s: seq<T>)
    requires NoDuplicates(s)
    ensures Dedup(s) == s
  {
    if s != [] {
      DedupIdentity(s[..|s| - 1]);
      assert s == s[..|s| - 1] + [s[|s| - 1]];
    }
  }

  /** The distinct strings, sorted. */
  function SortedSet(s: seq<string>, le: (string, string) -> bool): seq<string> {
    Sort(Dedup(s), le)
  }

  lemma {:induction false} NoDuplicatesMultiset<T>(s: seq<T>)
    ensures NoDuplicates(s) <==> forall x :: multiset(s)[x] <= 1
  {
    if s != [] {
      var n := |s| - 1;
      NoDuplicatesMultiset(s[..n]);
      assert s == s[..n] + [s[n]];
      if NoDuplicates(s) {
        assert s[n] !in s[..n];
        assert multiset(s[..n])[s[n]] == 0;
        forall x ensures multiset(s)[x] <= 1 { }
      } else {
        if NoDuplicates(s[..n]) {
          var i, j :| 0 <= i < j < |s| && s[i] == s[j];
          assert j == n && s[..n][i] == s[n];
          assert s[n] in multiset(s[..n]);
          assert multiset(s)[s[n]] >= 2;
        } else {
          var x :| multiset(s[..n])[x] > 1;
          assert multiset(s)[x] > 1;
        }
      }
    }
  }

  lemma SortedSetSpec(s: seq<string>, le: (string, string) -> bool)
    requires TotalPreorder(le)
    ensures Sorted(SortedSet(s, le), le) && NoDuplicates(SortedSet(s, le))
    ensures forall x :: x in SortedSet(s, le) <==> x in s
  {
    DedupSpec(s);
    SortSorts(Dedup(s), le);
    SortPermutes(Dedup(s), le);
    NoDuplicatesMultiset(Dedup(s));
    NoDuplicatesMultiset(SortedSet(s, le));
  }

  lemma SortedSetIdentity(s: seq<string>, le: (string, string) -> bool)
    requires Sorted(s, le) && NoDuplicates(s)
    ensures SortedSet(s, le) == s
  {
    DedupIdentity(s);
    SortIdentity(s, le);
  }

  lemma {:induction false} SameSetSameMultiset<T>(a: seq<T>, b: seq<T>)
    requires NoDuplicates(a) && NoDuplicates(b) && forall x :: x in a <==> x in b
    ensures multiset(a) == multiset(b)
  {
    NoDuplicatesMultiset(a);
    NoDuplicatesMultiset(b);
    forall x ensures multiset(a)[x] == multiset(b)[x] {
      assert x in a <==> multiset(a)[x] > 0;
      assert x in b <==> multiset(b)[x] > 0;
    }
  }

  /** With a total order the sorted set depends on the set of values only. */
  lemma SortedSetCanonical(a: seq<string>, b: seq<string>, le: (string, string) -> bool)
    requires TotalOrder(le) && forall x :: x in a <==> x in b
    ensures SortedSet(a, le) == SortedSet(b, le)
  {
    SortedSetSpec(a, le);
    SortedSetSpec(b, le);
    SameSetSameMultiset(SortedSet(a, le), SortedSet(b, le));
    SortedUnique(SortedSet(a, le), SortedSet(b, le), le);
  }
}
