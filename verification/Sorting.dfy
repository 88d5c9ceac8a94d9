/** The library sorts the index calls: sorting by a total order, adjacent de-duplication, and the
    ordered listing of a set. */
module Sorting {

  ghost predicate TotalOrder<T(!new)>(leq: (T, T) -> bool) {
    && (forall a, b :: leq(a, b) || leq(b, a))
    && (forall a, b, c :: leq(a, b) && leq(b, c) ==> leq(a, c))
  }

  ghost predicate SortedBy<T>(s: seq<T>, leq: (T, T) -> bool) {
    forall i, j :: 0 <= i < j < |s| ==> leq(s[i], s[j])
  }

  function Insert<T>(x: T, s: seq<T>, leq: (T, T) -> bool): (r: seq<T>)
    ensures multiset(r) == multiset{x} + multiset(s)
  {
    if s == [] then [x]
    else if leq(x, s[0]) then [x] + s
    else
      assert s == [s[0]] + s[1..];
      [s[0]] + Insert(x, s[1..], leq)
  }

  function Sort<T>(s: seq<T>, leq: (T, T) -> bool): (r: seq<T>)
    ensures multiset(r) == multiset(s)
    ensures |r| == |s|
  {
    if s == [] then []
    else
      assert s == [s[0]] + s[1..];
      var r := Insert(s[0], Sort(s[1..], leq), leq);
      assert |multiset(r)| == |r| && |multiset(s)| == |s|;
      r
  }

  lemma {:induction false} InsertSorted<T(!new)>(x: T, s: seq<T>, leq: (T, T) -> bool)
    requires TotalOrder(leq) && SortedBy(s, leq)
    ensures SortedBy(Insert(x, s, leq), leq)
  {
    if s != [] && !leq(x, s[0]) {
      InsertSorted(x, s[1..], leq);
      var rest := Insert(x, s[1..], leq);
      forall j | 0 <= j < |rest|
        ensures leq(s[0], rest[j])
      {
        assert rest[j] in multiset(rest);
        assert rest[j] == x || rest[j] in s[1..];
      }
    }
  }

  lemma {:induction false} SortSorted<T(!new)>(s: seq<T>, leq: (T, T) -> bool)
    requires TotalOrder(leq)
    ensures SortedBy(Sort(s, leq), leq)
  {
    if s != [] {
      SortSorted(s[1..], leq);
      InsertSorted(s[0], Sort(s[1..], leq), leq);
    }
  }

  /** Sorting something already sorted changes nothing. */
  lemma {:induction false} SortFixed<T>(s: seq<T>, leq: (T, T) -> bool)
    requires SortedBy(s, leq)
    ensures Sort(s, leq) == s
  {
    if s != [] {
      SortFixed(s[1..], leq);
    }
  }

  lemma SortMembers<T>(s: seq<T>, leq: (T, T) -> bool)
    ensures forall x :: x in Sort(s, leq) <==> x in s
  {
    forall x
      ensures x in Sort(s, leq) <==> x in s
    {
      assert x in Sort(s, leq) <==> x in multiset(Sort(s, leq));
      assert x in s <==> x in multiset(s);
    }
  }

  // ----- the orders in use -----

  const BY_VALUE: (nat, nat) -> bool := (a, b) => a <= b

  const BY_PAIR: ((nat, nat), (nat, nat)) -> bool :=
    (a: (nat, nat), b: (nat, nat)) => a.0 < b.0 || (a.0 == b.0 && a.1 <= b.1)

  ghost predicate Ascending(s: seq<nat>) {
    forall i, j :: 0 <= i < j < |s| ==> s[i] < s[j]
  }

  ghost predicate Distinct<T>(s: seq<T>) {
    forall i, j :: 0 <= i < j < |s| ==> s[i] != s[j]
  }

  lemma {:induction false} DistinctMultiplicity<T>(s: seq<T>, x: T)
    requires Distinct(s)
    ensures multiset(s)[x] <= 1
  {
    if s != [] {
      assert s == [s[0]] + s[1..];
      DistinctMultiplicity(s[1..], x);
      if x == s[0] {
        assert x !in s[1..];
      }
    }
  }

  lemma SortDistinct<T>(s: seq<T>, leq: (T, T) -> bool)
    requires Distinct(s)
    ensures Distinct(Sort(s, leq))
  {
    var r := Sort(s, leq);
    forall i, j | 0 <= i < j < |r|
      ensures r[i] != r[j]
    {
      DistinctMultiplicity(s, r[i]);
      if r[i] == r[j] {
        Repeated(r, i, j);
      }
    }
  }

  lemma Repeated<T>(s: seq<T>, i: nat, j: nat)
    requires i < j < |s| && s[i] == s[j]
    ensures multiset(s)[s[i]] >= 2
  {
    assert s == s[..i] + [s[i]] + s[i + 1..j] + [s[j]] + s[j + 1..];
  }

  function SortValues(s: seq<nat>): seq<nat> {
    Sort<nat>(s, BY_VALUE)
  }

  function SortPairs(s: seq<(nat, nat)>): seq<(nat, nat)> {
    Sort<(nat, nat)>(s, BY_PAIR)
  }

  /** Sorting distinct values gives the same values in strictly ascending order. */
  lemma SortAscending(s: seq<nat>)
    requires Distinct(s)
    ensures Ascending(SortValues(s)) && multiset(SortValues(s)) == multiset(s)
    ensures forall x :: x in SortValues(s) <==> x in s
  {
    SortSorted<nat>(s, BY_VALUE);
    SortDistinct<nat>(s, BY_VALUE);
    SortMembers<nat>(s, BY_VALUE);
  }

  /** Sorting any list of values puts the same members in order. */
  lemma SortedValues(s: seq<nat>)
    ensures SortedBy(SortValues(s), BY_VALUE)
    ensures forall x :: x in SortValues(s) <==> x in s
  {
    SortSorted<nat>(s, BY_VALUE);
    SortMembers<nat>(s, BY_VALUE);
  }

  /** Pairs already in order stay as they are. */
  lemma SortPairsFixed(s: seq<(nat, nat)>)
    requires forall i, j :: 0 <= i < j < |s| ==> BY_PAIR(s[i], s[j])
    ensures SortPairs(s) == s
  {
    SortFixed<(nat, nat)>(s, BY_PAIR);
  }

  /** Sorting distinct positions below n: ascending, the same positions, still below n. */
  lemma SortedPositions(s: seq<nat>, n: nat)
    requires Distinct(s) && forall i :: 0 <= i < |s| ==> s[i] < n
    ensures Ascending(SortValues(s)) && multiset(SortValues(s)) == multiset(s)
    ensures forall i :: 0 <= i < |SortValues(s)| ==> SortValues(s)[i] < n
  {
    hide SortValues;
    SortAscending(s);
    forall i | 0 <= i < |SortValues(s)|
      ensures SortValues(s)[i] < n
    {
      assert SortValues(s)[i] in SortValues(s);
    }
  }

  /** Removes adjacent repetitions. */
  function Unique(s: seq<nat>): (r: seq<nat>)
    ensures r != [] <==> s != []
    ensures r != [] ==> r[|r| - 1] == s[|s| - 1]
    ensures forall x :: x in r <==> x in s
  {
    if |s| <= 1 then s
    else
      var r := Unique(s[..|s| - 1]);
      assert s == s[..|s| - 1] + [s[|s| - 1]];
      if s[|s| - 1] == s[|s| - 2] then r else r + [s[|s| - 1]]
  }

  lemma {:induction false} UniqueAscending(s: seq<nat>)
    requires SortedBy(s, BY_VALUE)
    ensures Ascending(Unique(s))
  {
    if |s| > 1 {
      var init := s[..|s| - 1];
      UniqueAscending(init);
      var r := Unique(init);
      forall i | 0 <= i < |r|
        ensures r[i] <= s[|s| - 2]
      {
        assert r[i] in init;
      }
    }
  }

  /** The members of a set in ascending order, as iterating an ordered set lists them. */
  method Listed(s: set<nat>) returns (r: seq<nat>)
    ensures Ascending(r) && forall x :: x in r <==> x in s
  {
    r := [];
    var rest := s;
    while rest != {}
      invariant Distinct(r) && forall x :: x in s <==> x in r || x in rest
      invariant forall x :: x in r ==> x !in rest
    {
      var x :| x in rest;
      rest := rest - {x};
      r := r + [x];
    }
    SortAscending(r);
    r := SortValues(r);
  }
}
