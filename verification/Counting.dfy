/** Naive counting over sequences: the specification every rank structure is held to. */
module Counting {

  function Min(a: nat, b: nat): nat {
    if a <= b then a else b
  }

  /** Occurrences of x in s[..i]. */
  function Count(s: seq<nat>, x: nat, i: nat): (r: nat)
    requires i <= |s|
    ensures r <= i
  {
    if i == 0 then 0 else Count(s, x, i - 1) + (if s[i - 1] == x then 1 else 0)
  }

  /** Elements of s[..i] smaller than x. */
  function CountBelow(s: seq<nat>, x: nat, i: nat): (r: nat)
    requires i <= |s|
    ensures r <= i
  {
    if i == 0 then 0 else CountBelow(s, x, i - 1) + (if s[i - 1] < x then 1 else 0)
  }

  lemma {:induction false} CountMonotone(s: seq<nat>, x: nat, i: nat, j: nat)
    requires i <= j <= |s|
    ensures Count(s, x, i) <= Count(s, x, j) <= Count(s, x, i) + (j - i)
    ensures i < j && s[i] == x ==> Count(s, x, i) < Count(s, x, j)
  {
    if i < j {
      CountMonotone(s, x, i, j - 1);
    }
  }

  /** The k-th one of a flag sequence. */
  lemma {:induction false} OneAtRank(f: seq<nat>, k: nat, n: nat) returns (r: nat)
    requires n <= |f| && k < Count(f, 1, n)
    ensures r < n && f[r] == 1 && Count(f, 1, r) == k
  {
    if f[n - 1] == 1 && k == Count(f, 1, n - 1) {
      r := n - 1;
    } else {
      r := OneAtRank(f, k, n - 1);
    }
  }

  lemma {:induction false} CountBelowStep(s: seq<nat>, x: nat, i: nat)
    requires i <= |s|
    ensures CountBelow(s, x + 1, i) == CountBelow(s, x, i) + Count(s, x, i)
  {
    if i > 0 {
      CountBelowStep(s, x, i - 1);
    }
  }

  lemma {:induction false} CountBelowZero(s: seq<nat>, i: nat)
    requires i <= |s|
    ensures CountBelow(s, 0, i) == 0
  {
    if i > 0 {
      CountBelowZero(s, i - 1);
    }
  }

  lemma {:induction false} CountBelowAll(s: seq<nat>, x: nat, i: nat)
    requires i <= |s| && forall k :: 0 <= k < i ==> s[k] < x
    ensures CountBelow(s, x, i) == i
  {
    if i > 0 {
      CountBelowAll(s, x, i - 1);
    }
  }

  lemma {:induction false} CountBelowMonotone(s: seq<nat>, x: nat, y: nat, i: nat)
    requires i <= |s| && x <= y
    ensures CountBelow(s, x, i) <= CountBelow(s, y, i)
  {
    if i > 0 {
      CountBelowMonotone(s, x, y, i - 1);
    }
  }

  // ----- counting through sets of indices -----

  ghost function Indices(s: seq<nat>, x: nat, i: nat): set<nat>
    requires i <= |s|
  {
    set k: nat | k < i && s[k] == x
  }

  ghost function IndicesBelow(s: seq<nat>, x: nat, i: nat): set<nat>
    requires i <= |s|
  {
    set k: nat | k < i && s[k] < x
  }

  lemma {:induction false} CountIsCard(s: seq<nat>, x: nat, i: nat)
    requires i <= |s|
    ensures Count(s, x, i) == |Indices(s, x, i)|
  {
    if i > 0 {
      CountIsCard(s, x, i - 1);
      var rest := Indices(s, x, i - 1);
      assert Indices(s, x, i) == if s[i - 1] == x then rest + {i - 1} else rest;
    }
  }

  /** Counting is counting the places. */
  lemma Counted(s: seq<nat>, x: nat, i: nat)
    requires i <= |s|
    ensures Count(s, x, i) == |set k: nat | k < i && s[k] == x|
  {
    CountIsCard(s, x, i);
    assert Indices(s, x, i) == set k: nat | k < i && s[k] == x;
  }

  lemma {:induction false} CountBelowIsCard(s: seq<nat>, x: nat, i: nat)
    requires i <= |s|
    ensures CountBelow(s, x, i) == |IndicesBelow(s, x, i)|
  {
    if i > 0 {
      CountBelowIsCard(s, x, i - 1);
      var rest := IndicesBelow(s, x, i - 1);
      assert IndicesBelow(s, x, i) == if s[i - 1] < x then rest + {i - 1} else rest;
    }
  }

  /** f maps A one-to-one into B. */
  ghost predicate Injects(f: seq<nat>, A: set<nat>, B: set<nat>) {
    && (forall a :: a in A ==> a < |f|)
    && (forall a {:trigger f[a]} :: a in A ==> f[a] in B)
    && (forall a, b {:trigger f[a], f[b]} :: a in A && b in A && f[a] == f[b] ==> a == b)
  }

  lemma {:induction false} InjectionCard(f: seq<nat>, A: set<nat>, B: set<nat>)
    requires Injects(f, A, B)
    ensures |A| <= |B|
    decreases A
  {
    if A != {} {
      var a :| a in A;
      InjectionCard(f, A - {a}, B - {f[a]});
      assert |A - {a}| == |A| - 1;
      assert |B - {f[a]}| == |B| - 1;
    }
  }

  // ----- permutations of [0, n) -----

  ghost predicate IsPermutation(p: seq<nat>) {
    && (forall i :: 0 <= i < |p| ==> p[i] < |p|)
    && (forall i, j :: 0 <= i < j < |p| ==> p[i] != p[j])
  }

  ghost function Below(n: nat): (r: set<nat>)
    ensures |r| == n
    ensures forall k: nat :: k in r <==> k < n
  {
    if n == 0 then {} else Below(n - 1) + {n - 1}
  }

  ghost function Values(p: seq<nat>, n: nat): (r: set<nat>)
    requires n <= |p|
    ensures forall x: nat :: x in r <==> exists i :: 0 <= i < n && p[i] == x
  {
    if n == 0 then {} else Values(p, n - 1) + {p[n - 1]}
  }

  lemma {:induction false} ValuesCard(p: seq<nat>, n: nat)
    requires IsPermutation(p) && n <= |p|
    ensures |Values(p, n)| == n && Values(p, n) <= Below(|p|)
  {
    if n > 0 {
      ValuesCard(p, n - 1);
      NewValue(p, n - 1);
    }
  }

  lemma NewValue(p: seq<nat>, n: nat)
    requires IsPermutation(p) && n < |p|
    ensures p[n] !in Values(p, n) && p[n] in Below(|p|)
  {
    hide Values, Below;
  }

  /** Pigeonhole: a permutation hits every value. */
  lemma PermutationHits(p: seq<nat>, v: nat)
    requires IsPermutation(p) && v < |p|
    ensures v in p
  {
    var hit, all := Values(p, |p|), Below(|p|);
    ValuesCard(p, |p|);
    FullSubset(hit, all);
    assert v in all;
  }

  lemma FullSubset(A: set<nat>, B: set<nat>)
    requires A <= B && |A| == |B|
    ensures A == B
  {
    assert B == A + (B - A);
    assert |B| == |A| + |B - A|;
  }

  /** The position of v in the permutation p. */
  ghost function Find(p: seq<nat>, v: nat): (i: nat)
    requires IsPermutation(p) && v < |p|
    ensures i < |p| && p[i] == v
  {
    PermutationHits(p, v);
    var i :| 0 <= i < |p| && p[i] == v;
    i
  }

  ghost function Inverse(p: seq<nat>): (q: seq<nat>)
    requires IsPermutation(p)
    ensures |q| == |p| && IsPermutation(q)
    ensures forall i :: 0 <= i < |p| ==> q[p[i]] == i && p[q[i]] == i
  {
    seq(|p|, v requires 0 <= v < |p| => Find(p, v))
  }
}
