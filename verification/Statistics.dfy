/** Longest match of a query, and continuation counts of a pattern. */
module Statistics {
  import opened Counting
  import opened SuffixArrays
  import opened Corpus
  import opened TextMatches
  import opened QueryTheory
  import opened PlainText
  import opened Conservation
  import opened FMIndexes
  import AnchoredQueries

  // ----- longest match -----

  datatype LongestMatchResult = LongestMatchResult(queryPos: nat, length: nat, count: nat)

  /** The query's stretch [a, b) occurs inside some document. */
  ghost predicate Found(fold: bool, docs: seq<Document>, query: seq<Byte>, a: nat, b: nat) {
    a < b <= |query| && Occ(fold, docs, query[a..b]) > 0
  }

  /** Of the stretches that end by e, or end at e + 1 and start at or after k, best is the longest found;
      among the longest, one that ends first. */
  ghost predicate BestOf(fold: bool, docs: seq<Document>, query: seq<Byte>, best: LongestMatchResult, e: nat, k: nat) {
    && best.queryPos + best.length <= e + 1
    && (best.length == 0 ==> best.queryPos == best.count == 0)
    && (best.length > 0 ==>
          && Found(fold, docs, query, best.queryPos, best.queryPos + best.length)
          && best.count == Occ(fold, docs, query[best.queryPos..best.queryPos + best.length]))
    && forall a: nat, b: nat :: Found(fold, docs, query, a, b) && (b <= e || (b == e + 1 && a >= k)) ==>
         b - a < best.length || (b - a == best.length && best.queryPos + best.length <= b)
  }

  /** The longest stretch of the query that occurs in any single document, with its exact count. */
  ghost predicate Longest(fold: bool, docs: seq<Document>, query: seq<Byte>, best: LongestMatchResult) {
    BestOf(fold, docs, query, best, |query|, |query| + 1)
  }

  /** Byte by byte: a longest stretch of the query that reads anywhere, with the number of places where it does;
      among equally long ones, the one that ends first. */
  ghost predicate LongestReading(fold: bool, docs: seq<Document>, query: seq<Byte>, best: LongestMatchResult) {
    && (best.length == 0 ==> best.queryPos == best.count == 0)
    && (best.length > 0 ==>
          && best.queryPos + best.length <= |query|
          && best.count == |Spots(fold, docs, query[best.queryPos..best.queryPos + best.length])| > 0)
    && forall a: nat, b: nat :: a < b <= |query| && |Spots(fold, docs, query[a..b])| > 0 ==>
         b - a < best.length || (b - a == best.length && best.queryPos + best.length <= b)
  }

  lemma LongestMeans(fold: bool, docs: seq<Document>, query: seq<Byte>, best: LongestMatchResult)
    requires Longest(fold, docs, query, best)
    ensures LongestReading(fold, docs, query, best)
  {
    hide Spots, TotalOccurrences;
    if best.length > 0 {
      OccurrencesAreSpots(fold, docs, query[best.queryPos..best.queryPos + best.length]);
    }
    forall a: nat, b: nat | a < b <= |query| && |Spots(fold, docs, query[a..b])| > 0
      ensures b - a < best.length || (b - a == best.length && best.queryPos + best.length <= b)
    {
      OccurrencesAreSpots(fold, docs, query[a..b]);
      assert Found(fold, docs, query, a, b);
    }
  }

  /** A pattern occurs somewhere exactly when it has an occurrence to count. */
  lemma {:induction false} OccursSomewhere(fold: bool, docs: seq<Document>, P: seq<Byte>, n: nat)
    requires n <= |docs|
    ensures TotalOccurrences(fold, docs, P, n) > 0 <==> exists d: nat :: d < n && Contains(fold, docs[d], P)
  {
    hide Contains;
    if n > 0 {
      OccursSomewhere(fold, docs, P, n - 1);
      OccursBelow(fold, docs[n - 1], P, |docs[n - 1]| + 1);
      assert Occurrences(fold, docs[n - 1], P) > 0 <==> Contains(fold, docs[n - 1], P) by {
        ContainedOffset(fold, docs[n - 1], P);
      }
    }
  }

  lemma ContainedOffset(fold: bool, doc: Document, P: seq<Byte>)
    ensures Contains(fold, doc, P) <==> exists o: nat :: o < |doc| + 1 && OccursAt(fold, doc, o, P)
  {}

  lemma {:induction false} OccursBelow(fold: bool, doc: Document, P: seq<Byte>, n: nat)
    ensures OccurrencesBelow(fold, doc, P, n) > 0 <==> exists o: nat :: o < n && OccursAt(fold, doc, o, P)
  {
    hide OccursAt;
    if n > 0 {
      OccursBelow(fold, doc, P, n - 1);
    }
  }

  /** Whatever ends with an absent stretch is absent. */
  lemma LongerAbsent(fold: bool, docs: seq<Document>, A: seq<Byte>, B: seq<Byte>)
    requires Occ(fold, docs, B) == 0
    ensures Occ(fold, docs, A + B) == 0
  {
    OccursSomewhere(fold, docs, A + B, |docs|);
    OccursSomewhere(fold, docs, B, |docs|);
    forall d: nat, o: nat | d < |docs| && OccursAt(fold, docs[d], o, A + B)
      ensures OccursAt(fold, docs[d], o + |A|, B)
    {
      var s := docs[d][o..o + |A + B|];
      assert docs[d][o + |A|..o + |A| + |B|] == s[|A|..];
      assert (A + B)[|A|..] == B;
      assert FoldAll(fold, s)[|A|..] == FoldAll(fold, s[|A|..]);
      assert FoldAll(fold, A + B)[|A|..] == FoldAll(fold, B);
    }
  }

  lemma AbsentBefore(fold: bool, docs: seq<Document>, query: seq<Byte>, a: nat, k: nat, b: nat)
    requires a <= k < b <= |query| && Found(fold, docs, query, a, b)
    ensures Found(fold, docs, query, k, b)
  {
    hide TotalOccurrences;
    assert query[a..b] == query[a..k] + query[k..b];
    if Occ(fold, docs, query[k..b]) == 0 {
      LongerAbsent(fold, docs, query[a..k], query[k..b]);
    }
  }

  /** A longer find takes over; an equally long one, ending later, does not. */
  lemma ExtendBest(fold: bool, docs: seq<Document>, query: seq<Byte>, best: LongestMatchResult, e: nat, k: nat,
                   count: nat)
    requires k <= e < |query| && BestOf(fold, docs, query, best, e, k + 1)
    requires Found(fold, docs, query, k, e + 1) && count == Occ(fold, docs, query[k..e + 1])
    ensures BestOf(fold, docs, query,
                   if e + 1 - k > best.length then LongestMatchResult(k, e + 1 - k, count) else best, e, k)
  {}

  /** Nothing more to find at this end. */
  lemma CloseBest(fold: bool, docs: seq<Document>, query: seq<Byte>, best: LongestMatchResult, e: nat, k: nat)
    requires k <= e + 1 <= |query| && BestOf(fold, docs, query, best, e, k)
    requires k > 0 ==> !Found(fold, docs, query, k - 1, e + 1)
    ensures BestOf(fold, docs, query, best, e + 1, e + 2)
  {
    hide Found;
    forall a: nat, b: nat | Found(fold, docs, query, a, b) && (b <= e + 1 || (b == e + 2 && a >= e + 2))
      ensures b - a < best.length || (b - a == best.length && best.queryPos + best.length <= b)
    {
      FoundOrder(fold, docs, query, a, b);
      if b == e + 1 && a < k {
        AbsentBefore(fold, docs, query, a, k - 1, b);
      }
    }
  }

  lemma FoundOrder(fold: bool, docs: seq<Document>, query: seq<Byte>, a: nat, b: nat)
    requires Found(fold, docs, query, a, b)
    ensures a < b <= |query|
  {}

  /** A backward step either finds the longer stretch and counts it, or shows it absent. */
  method ExtendStretch(fm: FMIndex, query: seq<Byte>, k: nat, b: nat, lo: nat, hi: nat)
    returns (ok: bool, nlo: nat, nhi: nat)
    requires fm.Valid() && fm.c != [] && |fm.byteToId| == 256 && k < b <= |query| && lo <= hi <= |fm.sa|
    requires Known(fm.byteToId, query[k + 1..b])
             && Exact(fm.Symbols(), fm.sa, Syms(fm.byteToId, query[k + 1..b]), lo, hi)
    ensures ok <==> Found(fm.caseFold, fm.docs, query, k, b)
    ensures ok ==> Known(fm.byteToId, query[k..b])
    ensures ok ==> Exact(fm.Symbols(), fm.sa, Syms(fm.byteToId, query[k..b]), nlo, nhi)
    ensures ok ==> nlo <= nhi <= |fm.sa| && nhi - nlo == Occ(fm.caseFold, fm.docs, query[k..b])
  {
    hide FMIndex.Built, Count, CountBelow, Exact, Alphabet, TotalOccurrences;
    fm.LayoutSize();
    var W := query[k..b];
    assert W[1..] == query[k + 1..b] && W[0..] == W;
    var id := fm.byteToId[query[k]];
    IdRange(fm.caseFold, fm.docs, fm.byteToId, fm.sigma, query[k]);
    if id < 0 {
      assert !Known(fm.byteToId, W) by { assert W[0] == query[k]; }
      UnknownCount(fm.caseFold, fm.docs, fm.byteToId, fm.sigma, W, |fm.docs|);
      return false, 0, 0;
    }
    Prepended(fm.byteToId, W, 0);
    BackwardStep(fm.Symbols(), fm.sa, Syms(fm.byteToId, query[k + 1..b]), id, lo, hi);
    nlo, nhi := fm.Step(id, lo, hi);
    StretchCount(fm, W, nlo, nhi);
    ok := nlo < nhi;
  }

  lemma StretchCount(fm: FMIndex, W: seq<Byte>, lo: nat, hi: nat)
    requires fm.Valid() && fm.c != [] && |fm.byteToId| == 256 && W != []
    requires Known(fm.byteToId, W) && Exact(fm.Symbols(), fm.sa, Syms(fm.byteToId, W), lo, hi)
    ensures lo <= hi && hi - lo == Occ(fm.caseFold, fm.docs, W)
  {
    hide Layout, Matches;
    fm.LayoutSize();
    SearchedCount(fm.caseFold, fm.docs, fm.byteToId, fm.sigma, fm.sa, W, lo, hi);
  }

  /** Extends the match that ends before e + 1 backward for as long as it occurs. */
  method MatchEnding(fm: FMIndex, query: seq<Byte>, e: nat, best0: LongestMatchResult)
    returns (best: LongestMatchResult)
    requires fm.Valid() && fm.c != [] && e < |query| && BestOf(fm.caseFold, fm.docs, query, best0, e, e + 1)
    ensures BestOf(fm.caseFold, fm.docs, query, best, e + 1, e + 2)
  {
    hide FMIndex.Built, Exact, Found, BestOf, Known, Layout, Occ;
    fm.LayoutSize();
    best := best0;
    var lo: nat, hi: nat, len: nat := 0, fm.textLen + 1, 0;
    var k := e + 1;
    NothingYet(fm, query, k);
    while k > 0
      invariant 0 <= k <= e + 1 && len == e + 1 - k && lo <= hi <= |fm.sa|
      invariant Known(fm.byteToId, query[k..e + 1])
                && Exact(fm.Symbols(), fm.sa, Syms(fm.byteToId, query[k..e + 1]), lo, hi)
      invariant BestOf(fm.caseFold, fm.docs, query, best, e, k)
    {
      k := k - 1;
      var ok, nlo, nhi := ExtendStretch(fm, query, k, e + 1, lo, hi);
      if !ok {
        CloseBest(fm.caseFold, fm.docs, query, best, e, k + 1);
        return;
      }
      lo, hi := nlo, nhi;
      len := len + 1;
      ExtendBest(fm.caseFold, fm.docs, query, best, e, k, hi - lo);
      if len > best.length {
        best := LongestMatchResult(k, len, hi - lo);
      }
    }
    CloseBest(fm.caseFold, fm.docs, query, best, e, 0);
  }

  lemma NothingYet(fm: FMIndex, query: seq<Byte>, k: nat)
    requires fm.Valid() && fm.c != [] && k <= |query| && |fm.byteToId| == 256
    ensures Known(fm.byteToId, query[k..k])
            && Exact(fm.Symbols(), fm.sa, Syms(fm.byteToId, query[k..k]), 0, fm.textLen + 1)
  {
    fm.LayoutSize();
    ExactEmpty(fm.Symbols(), fm.sa);
    assert Syms(fm.byteToId, query[k..k]) == [];
  }

  /** The longest stretch of the query inside a single document. */
  method LongestMatch(fm: FMIndex, query: seq<Byte>) returns (best: LongestMatchResult)
    requires fm.Valid()
    ensures Longest(fm.caseFold, fm.docs, query, best) && LongestReading(fm.caseFold, fm.docs, query, best)
  {
    hide FMIndex.Built, Found, BestOf, LongestReading;
    best := LongestMatchResult(0, 0, 0);
    if fm.c == [] {
      NothingInNothing(fm.caseFold, query);
      LongestMeans(fm.caseFold, fm.docs, query, best);
      return;
    }
    var e := 0;
    NoEndYet(fm.caseFold, fm.docs, query);
    while e < |query|
      invariant 0 <= e <= |query| && BestOf(fm.caseFold, fm.docs, query, best, e, e + 1)
    {
      best := MatchEnding(fm, query, e, best);
      e := e + 1;
    }
    LongestMeans(fm.caseFold, fm.docs, query, best);
  }

  lemma NoEndYet(fold: bool, docs: seq<Document>, query: seq<Byte>)
    ensures BestOf(fold, docs, query, LongestMatchResult(0, 0, 0), 0, 1)
  {}

  lemma NothingInNothing(fold: bool, query: seq<Byte>)
    ensures Longest(fold, [], query, LongestMatchResult(0, 0, 0))
  {}

  /** Optimality, in terms of documents: no document contains a longer stretch of the query. */
  lemma NoLongerMatch(fold: bool, docs: seq<Document>, query: seq<Byte>, best: LongestMatchResult, a: nat, b: nat,
                      d: nat)
    requires Longest(fold, docs, query, best) && a < b <= |query| && b - a > best.length && d < |docs|
    ensures !Contains(fold, docs[d], query[a..b])
  {
    hide Contains;
    OccursSomewhere(fold, docs, query[a..b], |docs|);
    assert !Found(fold, docs, query, a, b);
  }

  // ----- continuations -----

  /** Every byte below n that follows P somewhere, ascending, with its exact count. */
  ghost predicate NextCounts(fold: bool, docs: seq<Document>, P: seq<Byte>, r: seq<(Byte, nat)>, n: nat) {
    && (forall i, j :: 0 <= i < j < |r| ==> r[i].0 < r[j].0)
    && (forall i :: 0 <= i < |r| ==> r[i].0 < n && r[i].1 == Then(fold, docs, P, r[i].0) > 0)
    && (forall b: Byte :: b < n && Then(fold, docs, P, b) > 0 ==> (b, Then(fold, docs, P, b)) in r)
  }

  /** Byte by byte: the pairs of a byte and the number of places where the pattern followed by it reads. */
  ghost predicate ListsNext(fold: bool, docs: seq<Document>, P: seq<Byte>, r: seq<(Byte, nat)>) {
    && (forall i, j :: 0 <= i < j < |r| ==> r[i].0 < r[j].0)
    && forall b: Byte, n: nat :: (b, n) in r <==> n == |Spots(fold, docs, P + [b])| > 0
  }

  lemma NextMeans(fold: bool, docs: seq<Document>, P: seq<Byte>, r: seq<(Byte, nat)>)
    requires NextCounts(fold, docs, P, r, 256)
    ensures ListsNext(fold, docs, P, r)
  {
    hide Spots, TotalOccurrences;
    forall b: Byte, n: nat
      ensures (b, n) in r <==> n == |Spots(fold, docs, P + [b])| > 0
    {
      OccurrencesAreSpots(fold, docs, P + [b]);
      assert Then(fold, docs, P, b) == |Spots(fold, docs, P + [b])|;
      if (b, n) in r {
        var i :| 0 <= i < |r| && r[i] == (b, n);
      }
    }
  }

  lemma NextByte(fold: bool, docs: seq<Document>, P: seq<Byte>, r: seq<(Byte, nat)>, b: Byte)
    requires NextCounts(fold, docs, P, r, b)
    ensures var n := Then(fold, docs, P, b); NextCounts(fold, docs, P, if n > 0 then r + [(b, n)] else r, b + 1)
  {}

  lemma NoNextByte(fold: bool, docs: seq<Document>, P: seq<Byte>)
    ensures NextCounts(fold, docs, P, [], 0)
  {}

  /** What does not occur has no continuation. */
  lemma NothingFollows(fold: bool, docs: seq<Document>, P: seq<Byte>)
    requires Occ(fold, docs, P) == 0
    ensures NextCounts(fold, docs, P, [], 256)
  {
    hide Occ, OccursAt;
    forall b: Byte
      ensures Then(fold, docs, P, b) == 0
    {
      PrefixAbsent(fold, docs, P, b, |docs|);
    }
  }

  lemma PrefixAbsent(fold: bool, docs: seq<Document>, P: seq<Byte>, b: Byte, n: nat)
    requires n == |docs| && Occ(fold, docs, P) == 0
    ensures Then(fold, docs, P, b) == 0
  {
    hide OccursAt;
    OccursSomewhere(fold, docs, P, n);
    OccursSomewhere(fold, docs, P + [b], n);
    forall d: nat, o: nat | d < |docs| && OccursAt(fold, docs[d], o, P + [b])
      ensures OccursAt(fold, docs[d], o, P)
    {
      OccursThen(fold, docs[d], o, P, b);
    }
  }

  /** The counts of the bytes that can follow the pattern. */
  method NextTokenCounts(fm: FMIndex, P: seq<Byte>) returns (r: seq<(Byte, nat)>)
    requires fm.Valid()
    ensures NextCounts(fm.caseFold, fm.docs, P, r, 256) && ListsNext(fm.caseFold, fm.docs, P, r)
  {
    hide FMIndex.Built, NextCounts, ListsNext;
    r := NextFound(fm, P);
    NextMeans(fm.caseFold, fm.docs, P, r);
  }

  /** Searches the pattern once, then each continuation. */
  method NextFound(fm: FMIndex, P: seq<Byte>) returns (r: seq<(Byte, nat)>)
    requires fm.Valid()
    ensures NextCounts(fm.caseFold, fm.docs, P, r, 256)
  {
    hide FMIndex.Built, NextCounts, Layout, Alphabet, TotalOccurrences;
    r := [];
    if fm.c == [] {
      NothingHere(fm.caseFold, P);
      return;
    }
    fm.LayoutSize();
    var lo, hi := fm.BackwardSearch(P);
    if P == [] {
      EmptyIsFound(fm, lo, hi);
    }
    if lo >= hi {
      EmptyMeansAbsent(fm, P, lo, hi);
      NothingFollows(fm.caseFold, fm.docs, P);
      return;
    }
    var b := 0;
    NoNextByte(fm.caseFold, fm.docs, P);
    while b < 256
      invariant 0 <= b <= 256 && NextCounts(fm.caseFold, fm.docs, P, r, b)
    {
      NextByte(fm.caseFold, fm.docs, P, r, b);
      var n := CountNext(fm, P, b);
      if n > 0 {
        r := r + [(b, n)];
      }
      b := b + 1;
    }
  }

  lemma NothingHere(fold: bool, P: seq<Byte>)
    ensures NextCounts(fold, [], P, [], 256)
  {}

  lemma EmptyMeansAbsent(fm: FMIndex, P: seq<Byte>, lo: nat, hi: nat)
    requires fm.Valid() && fm.c != [] && |fm.byteToId| == 256 && P != [] && lo >= hi
    requires Searched(fm.docs, fm.byteToId, fm.sa, P, lo, hi)
    ensures Occ(fm.caseFold, fm.docs, P) == 0
  {
    hide Layout;
    fm.LayoutSize();
    SearchedCount(fm.caseFold, fm.docs, fm.byteToId, fm.sigma, fm.sa, P, lo, hi);
  }

  /** The empty pattern is always found. */
  lemma EmptyIsFound(fm: FMIndex, lo: nat, hi: nat)
    requires fm.Valid() && fm.c != [] && |fm.byteToId| == 256
    requires Searched(fm.docs, fm.byteToId, fm.sa, [], lo, hi)
    ensures lo < hi
  {
    hide Layout, Exact;
    fm.LayoutSize();
    SearchedBounds(fm.docs, fm.byteToId, fm.sa, [], lo, hi);
    WholeSearch(fm.Symbols(), fm.sa, lo, hi);
  }

  /** Occurrences of the pattern followed by b; bytes outside the alphabet are skipped without a search. */
  method CountNext(fm: FMIndex, P: seq<Byte>, b: Byte) returns (n: nat)
    requires fm.Valid() && fm.c != []
    ensures n == Occ(fm.caseFold, fm.docs, P + [b])
  {
    hide FMIndex.Built, Layout, Alphabet, TotalOccurrences, Searched;
    fm.LayoutSize();
    if fm.byteToId[b] < 0 {
      SkippedByte(fm, P, b);
      return 0;
    }
    var lo, hi := fm.BackwardSearch(P + [b]);
    SearchedCount(fm.caseFold, fm.docs, fm.byteToId, fm.sigma, fm.sa, P + [b], lo, hi);
    n := hi - lo;
  }

  lemma SkippedByte(fm: FMIndex, P: seq<Byte>, b: Byte)
    requires fm.Valid() && fm.c != [] && |fm.byteToId| == 256 && fm.byteToId[b] < 0
    ensures Occ(fm.caseFold, fm.docs, P + [b]) == 0
  {
    IdRange(fm.caseFold, fm.docs, fm.byteToId, fm.sigma, b);
    assert (P + [b])[|P|] == b;
    UnknownCount(fm.caseFold, fm.docs, fm.byteToId, fm.sigma, P + [b], |fm.docs|);
  }

  ghost function SumCounts(r: seq<(Byte, nat)>): nat {
    if r == [] then 0 else SumCounts(r[..|r| - 1]) + r[|r| - 1].1
  }

  lemma {:induction false} SumOfNext(fold: bool, docs: seq<Document>, P: seq<Byte>, r: seq<(Byte, nat)>, n: nat)
    requires n <= 256 && NextCounts(fold, docs, P, r, n)
    ensures SumCounts(r) == NextSum(fold, docs, P, n)
  {
    hide Occ, NextCounts;
    if n > 0 {
      LastNext(fold, docs, P, r, n - 1);
      if Then(fold, docs, P, n - 1) > 0 {
        SumOfNext(fold, docs, P, r[..|r| - 1], n - 1);
      } else {
        SumOfNext(fold, docs, P, r, n - 1);
      }
    } else {
      NextOfNothing(fold, docs, P, r);
    }
  }

  lemma NextOfNothing(fold: bool, docs: seq<Document>, P: seq<Byte>, r: seq<(Byte, nat)>)
    requires NextCounts(fold, docs, P, r, 0)
    ensures r == []
  {
    assert r == [] || r[0].0 < 0;
  }

  /** The last byte below the bound is listed last, if at all. */
  lemma LastNext(fold: bool, docs: seq<Document>, P: seq<Byte>, r: seq<(Byte, nat)>, b: Byte)
    requires NextCounts(fold, docs, P, r, b + 1)
    ensures var n := Then(fold, docs, P, b);
            if n > 0 then |r| > 0 && r[|r| - 1] == (b, n) && NextCounts(fold, docs, P, r[..|r| - 1], b)
            else NextCounts(fold, docs, P, r, b)
  {
    hide NextCounts;
    if Then(fold, docs, P, b) > 0 {
      ListedLast(fold, docs, P, r, b);
    } else {
      NotListed(fold, docs, P, r, b);
    }
  }

  lemma NotListed(fold: bool, docs: seq<Document>, P: seq<Byte>, r: seq<(Byte, nat)>, b: Byte)
    requires NextCounts(fold, docs, P, r, b + 1) && Then(fold, docs, P, b) == 0
    ensures NextCounts(fold, docs, P, r, b)
  {
    hide Then;
  }

  lemma ListedLast(fold: bool, docs: seq<Document>, P: seq<Byte>, r: seq<(Byte, nat)>, b: Byte)
    requires NextCounts(fold, docs, P, r, b + 1) && Then(fold, docs, P, b) > 0
    ensures |r| > 0 && r[|r| - 1] == (b, Then(fold, docs, P, b)) && NextCounts(fold, docs, P, r[..|r| - 1], b)
  {
    hide Then;
    var n := Then(fold, docs, P, b);
    var k :| 0 <= k < |r| && r[k] == (b, n);
    assert r[k].0 <= r[|r| - 1].0;
    var init := r[..|r| - 1];
    forall x: Byte | x < b && Then(fold, docs, P, x) > 0
      ensures (x, Then(fold, docs, P, x)) in init
    {
      var j :| 0 <= j < |r| && r[j] == (x, Then(fold, docs, P, x));
      assert init[j] == r[j];
    }
  }

  lemma ListedIfFollows(fold: bool, docs: seq<Document>, P: seq<Byte>, next: seq<(Byte, nat)>, b: Byte)
    requires NextCounts(fold, docs, P, next, 256)
    ensures Then(fold, docs, P, b) == 0 <==> forall i :: 0 <= i < |next| ==> next[i].0 != b
  {}

  /** Conservation between their specifications: occurrences are continuations plus document ends, exactly when no
      listed continuation is a capital letter of a folded index. */
  lemma CountsConserved(fold: bool, docs: seq<Document>, P: seq<Byte>, next: seq<(Byte, nat)>)
    requires NextCounts(fold, docs, P, next, 256)
    ensures Occ(fold, docs, P) == SumCounts(next) + CountDocs(EndsDoc(fold, docs, P), |docs|)
       <==> !fold || forall i :: 0 <= i < |next| ==> !(65 <= next[i].0 <= 90)
  {
    hide Occ, Then, CountDocs, NextCounts;
    SumOfNext(fold, docs, P, next, 256);
    ConservationExact(fold, docs, P);
    forall b: Byte | 65 <= b <= 90
      ensures Then(fold, docs, P, b) == 0 <==> forall i :: 0 <= i < |next| ==> next[i].0 != b
    {
      ListedIfFollows(fold, docs, P, next, b);
    }
    forall i | 0 <= i < |next|
      ensures Then(fold, docs, P, next[i].0) > 0
    {
      ListedIfFollows(fold, docs, P, next, next[i].0);
    }
  }

  /** The law over the answers themselves, for a non-empty pattern. */
  method AnswersConserved(fm: FMIndex, P: seq<Byte>) returns (count: nat, next: seq<(Byte, nat)>, ends: nat)
    requires fm.Valid() && P != []
    ensures count == |Spots(fm.caseFold, fm.docs, P)| && ListsNext(fm.caseFold, fm.docs, P, next)
    ensures ends == |Ending(fm.caseFold, fm.docs, P)|
    ensures count == SumCounts(next) + ends
       <==> !fm.caseFold || forall i :: 0 <= i < |next| ==> !(65 <= next[i].0 <= 90)
  {
    hide FMIndex.Valid, NextCounts, CountDocs, TotalOccurrences, ListsNext, Spots, Ending;
    count := fm.CountOf(P);
    next := NextTokenCounts(fm, P);
    ends := AnchoredQueries.CountSuffixDocs(fm, P);
    CountsConserved(fm.caseFold, fm.docs, P, next);
  }
}
