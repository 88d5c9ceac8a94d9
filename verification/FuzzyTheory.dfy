/** Why the memoised depth-first fuzzy search is sound and complete: what a state means, what it must
    have explored when it is done, and how that reaches every close enough word. */
module FuzzyTheory {
  import opened Counting
  import opened SuffixArrays
  import opened TextMatches
  import opened EditDistance

  type Interval = (nat, nat)
  type Key = (nat, nat, nat)   // interval and number of pattern characters left

  /** What a search runs over: the transform, the alphabet size, the pattern's ids (-1 for a byte that
      occurs nowhere) and the edit budget. */
  datatype Problem = Problem(b: seq<nat>, sigma: nat, pat: seq<int>, k: nat)

  function StepTo(b: seq<nat>, d: nat, p: nat): nat
    requires p <= |b|
  {
    CountBelow(b, d, |b|) + Count(b, d, p)
  }

  /** The memo: which states were explored, and with how few errors. */
  datatype Memo = Memo(hits: seq<Interval>, visited: map<Key, nat>)

  /** A state needs no further work: its hit is recorded, or it was entered with no more errors. */
  ghost predicate Covered(m: Memo, lo: nat, hi: nat, i: nat, e: nat) {
    if i == 0 then (lo, hi) in m.hits else (lo, hi, i) in m.visited && m.visited[(lo, hi, i)] <= e
  }

  /** Every edit step out of a state is covered. */
  ghost predicate Expanded(q: Problem, m: Memo, lo: nat, hi: nat, i: nat, e: nat) {
    && lo <= hi <= |q.b| && 1 <= i <= |q.pat|
    && (e < q.k ==> Covered(m, lo, hi, i - 1, e + 1))
    && forall d: nat :: 2 <= d < q.sigma ==> ExpandedBy(q, m, lo, hi, i, e, d)
  }

  /** The steps that take text symbol d are covered. */
  ghost predicate ExpandedBy(q: Problem, m: Memo, lo: nat, hi: nat, i: nat, e: nat, d: nat)
    requires lo <= hi <= |q.b| && 1 <= i <= |q.pat|
  {
    var nlo, nhi := StepTo(q.b, d, lo), StepTo(q.b, d, hi);
    nlo < nhi ==>
      && (q.pat[i - 1] == d ==> Covered(m, nlo, nhi, i - 1, e))
      && (e < q.k && q.pat[i - 1] != d ==> Covered(m, nlo, nhi, i - 1, e + 1))
      && (e < q.k ==> Covered(m, nlo, nhi, i, e + 1))
  }

  /** Everything visited, apart from the states still open, has been expanded. */
  ghost predicate Closed(q: Problem, m: Memo, open: set<Key>) {
    forall key :: key in m.visited && key !in open ==> Expanded(q, m, key.0, key.1, key.2, m.visited[key])
  }

  /** m2 extends m1: more hits, more states, never more errors, and nothing touched below e errors. */
  ghost predicate Extends(m1: Memo, m2: Memo, e: nat) {
    && (forall h :: h in m1.hits ==> h in m2.hits)
    && (forall key :: key in m1.visited ==> key in m2.visited && m2.visited[key] <= m1.visited[key])
    && (forall key :: key in m2.visited ==>
          m2.visited[key] >= e || (key in m1.visited && m1.visited[key] == m2.visited[key]))
  }

  lemma ExtendsTransitive(m1: Memo, m2: Memo, m3: Memo, e: nat)
    requires Extends(m1, m2, e) && Extends(m2, m3, e)
    ensures Extends(m1, m3, e)
  {}

  lemma CoveredLater(m1: Memo, m2: Memo, e: nat, lo: nat, hi: nat, i: nat, e': nat)
    requires Extends(m1, m2, e) && Covered(m1, lo, hi, i, e')
    ensures Covered(m2, lo, hi, i, e')
  {}

  lemma ExpandedByLater(q: Problem, m1: Memo, m2: Memo, e: nat, lo: nat, hi: nat, i: nat, e': nat, d: nat)
    requires lo <= hi <= |q.b| && 1 <= i <= |q.pat|
    requires Extends(m1, m2, e) && ExpandedBy(q, m1, lo, hi, i, e', d)
    ensures ExpandedBy(q, m2, lo, hi, i, e', d)
  {}

  lemma ExpandedLater(q: Problem, m1: Memo, m2: Memo, e: nat, lo: nat, hi: nat, i: nat, e': nat)
    requires Extends(m1, m2, e) && Expanded(q, m1, lo, hi, i, e')
    ensures Expanded(q, m2, lo, hi, i, e')
  {
    forall d: nat | 2 <= d < q.sigma
      ensures ExpandedBy(q, m2, lo, hi, i, e', d)
    {
      ExpandedByLater(q, m1, m2, e, lo, hi, i, e', d);
    }
  }

  /** Entering a state opens it without disturbing what is closed. */
  lemma OpenState(q: Problem, m: Memo, open: set<Key>, key: Key, e: nat)
    requires Closed(q, m, open) && (key in m.visited ==> m.visited[key] > e)
    ensures var m' := m.(visited := m.visited[key := e]);
            Closed(q, m', open + {key}) && Extends(m, m', e)
  {
    var m' := m.(visited := m.visited[key := e]);
    forall x | x in m'.visited && x !in open + {key}
      ensures Expanded(q, m', x.0, x.1, x.2, m'.visited[x])
    {
      ExpandedLater(q, m, m', e, x.0, x.1, x.2, m.visited[x]);
    }
  }

  /** A fully expanded state can be closed. */
  lemma CloseState(q: Problem, m: Memo, open: set<Key>, key: Key)
    requires Closed(q, m, open + {key}) && key in m.visited
    requires Expanded(q, m, key.0, key.1, key.2, m.visited[key])
    ensures Closed(q, m, open)
  {}

  // ----- what a state stands for -----

  /** A word already matched, with its rows and what its best alignment may cost. */
  ghost predicate Means(t: seq<nat>, sa: seq<nat>, q: Problem, W: seq<nat>, lo: nat, hi: nat, i: nat, e: nat) {
    && i <= |q.pat|
    && IsContent(W) && Exact(t, sa, W, lo, hi)
    && Distance(W, q.pat[i..]) <= e <= q.k
  }

  /** Every recorded hit is the exact interval of a content word within budget. */
  ghost predicate SoundHits(t: seq<nat>, sa: seq<nat>, q: Problem, hits: seq<Interval>) {
    forall h :: h in hits ==> SoundHit(t, sa, q, h)
  }

  ghost predicate SoundHit(t: seq<nat>, sa: seq<nat>, q: Problem, h: Interval) {
    exists W: seq<nat> :: Means(t, sa, q, W, h.0, h.1, 0, q.k)
  }

  ghost predicate Setting(t: seq<nat>, sa: seq<nat>, q: Problem) {
    && IsText(t) && IsSuffixArray(t, sa) && q.b == Bwt(t, sa)
    && forall p :: 0 <= p < |t| ==> t[p] < q.sigma
  }

  lemma DropOne(p: seq<int>, i: nat)
    requires 1 <= i <= |p|
    ensures p[i - 1..] == [p[i - 1]] + p[i..]
  {}

  /** Skipping a pattern character. */
  lemma MeansDeletion(t: seq<nat>, sa: seq<nat>, q: Problem, W: seq<nat>, lo: nat, hi: nat, i: nat, e: nat)
    requires Means(t, sa, q, W, lo, hi, i, e) && 1 <= i && e < q.k
    ensures Means(t, sa, q, W, lo, hi, i - 1, e + 1)
  {
    hide Exact;
    DropOne(q.pat, i);
    PrependRight(W, q.pat[i - 1], q.pat[i..]);
  }

  lemma MeansStep(t: seq<nat>, sa: seq<nat>, q: Problem, W: seq<nat>, lo: nat, hi: nat, d: nat)
    requires Setting(t, sa, q) && Exact(t, sa, W, lo, hi) && IsContent(W) && d >= 2
    ensures IsContent([d] + W) && Exact(t, sa, [d] + W, StepTo(q.b, d, lo), StepTo(q.b, d, hi))
  {
    hide Exact;
    BackwardStep(t, sa, W, d, lo, hi);
  }

  /** Taking a text symbol against a pattern character. */
  lemma MeansBoth(t: seq<nat>, sa: seq<nat>, q: Problem, W: seq<nat>, lo: nat, hi: nat, i: nat, e: nat, d: nat)
    requires Setting(t, sa, q) && Means(t, sa, q, W, lo, hi, i, e) && 1 <= i && d >= 2
    ensures var e' := e + Differs(d, q.pat[i - 1]);
            e' <= q.k ==> Means(t, sa, q, [d] + W, StepTo(q.b, d, lo), StepTo(q.b, d, hi), i - 1, e')
  {
    hide Exact, Distance;
    MeansStep(t, sa, q, W, lo, hi, d);
    DropOne(q.pat, i);
    PrependBoth(d, W, q.pat[i - 1], q.pat[i..]);
  }

  /** Taking an extra text symbol. */
  lemma MeansInsertion(t: seq<nat>, sa: seq<nat>, q: Problem, W: seq<nat>, lo: nat, hi: nat, i: nat, e: nat, d: nat)
    requires Setting(t, sa, q) && Means(t, sa, q, W, lo, hi, i, e) && e < q.k && d >= 2
    ensures Means(t, sa, q, [d] + W, StepTo(q.b, d, lo), StepTo(q.b, d, hi), i, e + 1)
  {
    hide Exact, Distance;
    MeansStep(t, sa, q, W, lo, hi, d);
    PrependLeft(d, W, q.pat[i..]);
  }

  // ----- completeness -----

  /** Some suffix of S + W was recorded as a hit. */
  ghost predicate SuffixHit(t: seq<nat>, sa: seq<nat>, hits: seq<Interval>, S: seq<nat>, W: seq<nat>) {
    exists cut: nat, lo: nat, hi: nat :: cut <= |S| && (lo, hi) in hits && Exact(t, sa, S[cut..] + W, lo, hi)
  }

  lemma SuffixHitLonger(t: seq<nat>, sa: seq<nat>, hits: seq<Interval>, S: seq<nat>, d: nat, W: seq<nat>)
    requires S != [] && S[|S| - 1] == d && SuffixHit(t, sa, hits, S[..|S| - 1], [d] + W)
    ensures SuffixHit(t, sa, hits, S, W)
  {
    var init := S[..|S| - 1];
    var cut: nat, lo: nat, hi: nat :| cut <= |init| && (lo, hi) in hits && Exact(t, sa, init[cut..] + ([d] + W), lo, hi);
    assert init[cut..] + ([d] + W) == S[cut..] + W;
  }

  /** A word that occurs keeps the interval of its suffix non-empty. */
  lemma OccurringStep(t: seq<nat>, sa: seq<nat>, q: Problem, W: seq<nat>, lo: nat, hi: nat, S: seq<nat>, d: nat, p: nat)
    requires Setting(t, sa, q) && Exact(t, sa, W, lo, hi) && IsContent(W) && IsContent(S)
    requires S != [] && S[|S| - 1] == d && Matches(t, p, S + W)
    ensures 2 <= d < q.sigma
    ensures Exact(t, sa, [d] + W, StepTo(q.b, d, lo), StepTo(q.b, d, hi))
    ensures StepTo(q.b, d, lo) < StepTo(q.b, d, hi)
    ensures Matches(t, p, S[..|S| - 1] + ([d] + W))
  {
    assert lo <= hi <= |q.b|;
    hide StepTo, Exact;
    var init := S[..|S| - 1];
    assert S + W == init + ([d] + W);
    MatchesAt(t, p, S + W, |S| - 1);
    MeansStep(t, sa, q, W, lo, hi, d);
    MatchesSuffix(t, p, init, [d] + W);
    NonEmptyInterval(t, sa, [d] + W, StepTo(q.b, d, lo), StepTo(q.b, d, hi), p + |init|);
  }

  /** From a covered state, any remaining text S that is close enough to the rest of the pattern leads to
      a recorded hit. This is where pruning is shown to lose nothing. */
  lemma {:induction false} Reaches(t: seq<nat>, sa: seq<nat>, q: Problem, m: Memo,
                                   W: seq<nat>, lo: nat, hi: nat, i: nat, e: nat, S: seq<nat>, p: nat)
    requires Setting(t, sa, q) && Closed(q, m, {})
    requires Exact(t, sa, W, lo, hi) && IsContent(W) && IsContent(S) && Matches(t, p, S + W)
    requires i <= |q.pat| && Covered(m, lo, hi, i, e) && e + Distance(S, q.pat[..i]) <= q.k
    ensures SuffixHit(t, sa, m.hits, S, W)
    decreases |S| + i, 0
  {
    hide Exact, Matches, StepTo, Setting;
    if i == 0 {
      assert S[|S|..] + W == W;
    } else {
      var v := m.visited[(lo, hi, i)];
      assert Expanded(q, m, lo, hi, i, v);
      var pat := q.pat[..i];
      assert Front(pat) == q.pat[..i - 1] && Last(pat) == q.pat[i - 1];
      if S == [] || Distance(S, pat) == Distance(S, Front(pat)) + 1 {
        ReachesByDeletion(t, sa, q, m, W, lo, hi, i, v, S, p);
      } else {
        var d := S[|S| - 1];
        OccurringStep(t, sa, q, W, lo, hi, S, d, p);
        assert ExpandedBy(q, m, lo, hi, i, v, d);
        assert IsContent([d] + W);
        assert Front(S) == S[..|S| - 1];
        var nlo, nhi := StepTo(q.b, d, lo), StepTo(q.b, d, hi);
        if Distance(S, pat) == Distance(Front(S), pat) + 1 {
          Reaches(t, sa, q, m, [d] + W, nlo, nhi, i, v + 1, S[..|S| - 1], p);
        } else {
          Reaches(t, sa, q, m, [d] + W, nlo, nhi, i - 1, v + Differs(d, q.pat[i - 1]), S[..|S| - 1], p);
        }
        SuffixHitLonger(t, sa, m.hits, S, d, W);
      }
    }
  }

  lemma {:induction false} ReachesByDeletion(t: seq<nat>, sa: seq<nat>, q: Problem, m: Memo,
                                             W: seq<nat>, lo: nat, hi: nat, i: nat, v: nat, S: seq<nat>, p: nat)
    requires Setting(t, sa, q) && Closed(q, m, {})
    requires Exact(t, sa, W, lo, hi) && IsContent(W) && IsContent(S) && Matches(t, p, S + W)
    requires 1 <= i <= |q.pat| && Expanded(q, m, lo, hi, i, v) && v + Distance(S, q.pat[..i]) <= q.k
    requires S == [] || Distance(S, q.pat[..i]) == Distance(S, Front(q.pat[..i])) + 1
    ensures SuffixHit(t, sa, m.hits, S, W)
    decreases |S| + i - 1, 1
  {
    hide Exact, Matches, StepTo, Setting;
    assert Front(q.pat[..i]) == q.pat[..i - 1];
    assert Distance(S, q.pat[..i]) == Distance(S, q.pat[..i - 1]) + 1;
    Reaches(t, sa, q, m, W, lo, hi, i - 1, v + 1, S, p);
  }
}
