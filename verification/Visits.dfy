/** Streaming visits: each document is visited once per occurrence. */
module Visits {
  import opened Counting
  import opened SuffixArrays
  import opened Corpus
  import opened TextMatches
  import opened QueryTheory
  import opened PlainText
  import opened FMIndexes

  /** The rows [lo, hi), each with its document. */
  ghost predicate VisitsRows(docs: seq<Document>, sa: seq<nat>, lo: nat, hi: nat, visited: seq<nat>) {
    && lo <= hi <= |sa| && |visited| == hi - lo
    && forall r :: lo <= r < hi ==> sa[r] < TextLength(docs) && visited[r - lo] == DocOf(docs, sa[r])
  }

  /** Occurrences of P at text positions, in document d only. */
  ghost predicate OccursInDoc(fold: bool, docs: seq<Document>, P: seq<Byte>, d: nat, p: nat) {
    OccursAtPosition(fold, docs, p, P) && DocOf(docs, p) == d
  }

  ghost function DocFlags(fold: bool, docs: seq<Document>, P: seq<Byte>, d: nat): (f: seq<nat>)
    ensures |f| == TextLength(docs) + 1
    ensures forall p: nat :: p <= TextLength(docs) ==> f[p] == if OccursInDoc(fold, docs, P, d, p) then 1 else 0
  {
    seq(TextLength(docs) + 1, (p: nat) => if OccursInDoc(fold, docs, P, d, p) then 1 else 0)
  }

  lemma {:induction false} CountZeros(f: seq<nat>, a: nat, b: nat)
    requires a <= b <= |f| && forall p :: a <= p < b ==> f[p] == 0
    ensures Count(f, 1, a) == Count(f, 1, b)
  {
    if a < b {
      CountZeros(f, a, b - 1);
    }
  }

  lemma FlagInDoc(fold: bool, docs: seq<Document>, P: seq<Byte>, d: nat, o: nat)
    requires d < |docs| && o <= |docs[d]|
    ensures DocStart(docs, d) + o < TextLength(docs)
    ensures DocFlags(fold, docs, P, d)[DocStart(docs, d) + o] == if OccursAt(fold, docs[d], o, P) then 1 else 0
  {
    hide OccursAt, DocStart;
    DocLength(docs, d);
    DocOfUnique(docs, DocStart(docs, d) + o, d);
  }

  lemma {:induction false} CountInDoc(fold: bool, docs: seq<Document>, P: seq<Byte>, d: nat, n: nat)
    requires d < |docs| && n <= |docs[d]| + 1 && DocStart(docs, d) + n <= TextLength(docs)
    ensures Count(DocFlags(fold, docs, P, d), 1, DocStart(docs, d) + n)
         == Count(DocFlags(fold, docs, P, d), 1, DocStart(docs, d)) + OccurrencesBelow(fold, docs[d], P, n)
  {
    hide OccursAt, DocStart, DocFlags, OccursAtPosition;
    if n > 0 {
      CountInDoc(fold, docs, P, d, n - 1);
      FlagInDoc(fold, docs, P, d, n - 1);
    }
  }

  /** The flags of one document count its occurrences. */
  lemma CountDocFlags(fold: bool, docs: seq<Document>, P: seq<Byte>, d: nat)
    requires d < |docs|
    ensures Count(DocFlags(fold, docs, P, d), 1, TextLength(docs) + 1) == Occurrences(fold, docs[d], P)
  {
    hide OccursAt, DocStart, Count;
    var f := DocFlags(fold, docs, P, d);
    DocStartMonotone(docs, 0, d);
    DocStartMonotone(docs, d, d + 1);
    DocStartMonotone(docs, d + 1, |docs|);
    DocLength(docs, d);
    forall p: nat | p < DocStart(docs, d) || DocStart(docs, d + 1) <= p <= TextLength(docs)
      ensures f[p] == 0
    {}
    CountZeros(f, 0, DocStart(docs, d));
    CountInDoc(fold, docs, P, d, |docs[d]| + 1);
    CountZeros(f, DocStart(docs, d + 1), |f|);
    CountOfNone(f);
  }

  lemma CountOfNone(f: seq<nat>)
    ensures Count(f, 1, 0) == 0
  {}

  lemma DocLength(docs: seq<Document>, d: nat)
    requires d < |docs|
    ensures DocStart(docs, d + 1) == DocStart(docs, d) + |docs[d]| + 1
  {}

  /** The interval's rows of document d, as one flag per row. */
  ghost function RowFlags(docs: seq<Document>, sa: seq<nat>, lo: nat, hi: nat, d: nat): (f: seq<nat>)
    ensures |f| == |sa|
    ensures forall r :: 0 <= r < |sa| ==>
              f[r] == if lo <= r < hi && sa[r] < TextLength(docs) && DocOf(docs, sa[r]) == d then 1 else 0
  {
    seq(|sa|, r requires 0 <= r < |sa| =>
      if lo <= r < hi && sa[r] < TextLength(docs) && DocOf(docs, sa[r]) == d then 1 else 0)
  }

  lemma {:induction false} CountVisits(docs: seq<Document>, sa: seq<nat>, lo: nat, hi: nat, visited: seq<nat>, d: nat,
                                       n: nat)
    requires VisitsRows(docs, sa, lo, hi, visited) && n <= hi - lo
    ensures Count(visited, d, n) == Count(RowFlags(docs, sa, lo, hi, d), 1, lo + n)
  {
    var f := RowFlags(docs, sa, lo, hi, d);
    if n > 0 {
      CountVisits(docs, sa, lo, hi, visited, d, n - 1);
      assert lo <= lo + n - 1 < hi;
      assert visited[n - 1] == DocOf(docs, sa[lo + n - 1]);
    } else {
      CountZeros(f, 0, lo);
    }
  }

  /** Rows are a rearrangement of text positions, so counting per row is counting per position. */
  lemma VisitsCounted(fold: bool, docs: seq<Document>, ids: seq<int>, sigma: nat, sa: seq<nat>, P: seq<Byte>,
                      lo: nat, hi: nat, visited: seq<nat>, d: nat)
    requires Layout(fold, docs, ids, sigma, sa) && P != [] && d < |docs| && |ids| == 256
    requires Searched(docs, ids, sa, P, lo, hi) && VisitsRows(docs, sa, lo, hi, visited)
    ensures Count(visited, d, |visited|) == Occurrences(fold, docs[d], P)
  {
    hide Count, OccursAt, DocStart, Alphabet, Matches, Known;
    LayoutFacts(fold, docs, ids, sigma, sa);
    if Known(ids, P) {
      var A, B := RowFlags(docs, sa, lo, hi, d), DocFlags(fold, docs, P, d);
      forall r | 0 <= r < |sa|
        ensures B[sa[r]] == A[r]
      {
        PatternMatches(fold, docs, ids, sigma, P, sa[r]);
        NotAtSentinel(fold, docs, P);
      }
      PermutedCount(A, B, sa, 1);
      CountVisits(docs, sa, lo, hi, visited, d, hi - lo);
      CountZeros(A, hi, |A|);
      CountDocFlags(fold, docs, P, d);
    } else {
      UnknownInDoc(fold, docs, ids, sigma, P, d, |docs[d]| + 1);
      NothingVisited(visited, d);
    }
  }

  lemma NothingVisited(visited: seq<nat>, d: nat)
    ensures Count(visited, d, 0) == 0
  {}

  /** Visits the document of every occurrence, in row order. */
  method VisitMatchingDocs(fm: FMIndex, P: seq<Byte>) returns (visited: seq<nat>)
    requires fm.Valid()
    ensures P == [] ==> visited == []
    ensures P != [] ==> |visited| == TotalOccurrences(fm.caseFold, fm.docs, P, |fm.docs|)
    ensures P != [] ==> forall d: nat :: d < |fm.docs| ==>
              Count(visited, d, |visited|) == Occurrences(fm.caseFold, fm.docs[d], P)
    ensures P != [] ==> |visited| == |Spots(fm.caseFold, fm.docs, P)|
    ensures P != [] ==> forall d: nat :: d < |fm.docs| ==>
              |Indices(visited, d, |visited|)| == |Offsets(fm.caseFold, fm.docs[d], P)|
  {
    hide FMIndex.Built, Layout, Searched, Count, Occurrences, Indices, Offsets, Spots;
    visited := [];
    OccurrencesAreSpots(fm.caseFold, fm.docs, P);
    if fm.c == [] || P == [] {
      return;
    }
    var lo, hi := fm.BackwardSearch(P);
    fm.LayoutSize();
    SearchedBounds(fm.docs, fm.byteToId, fm.sa, P, lo, hi);
    visited := VisitRows(fm, P, lo, hi);
    SearchedCount(fm.caseFold, fm.docs, fm.byteToId, fm.sigma, fm.sa, P, lo, hi);
    forall d: nat | d < |fm.docs|
      ensures Count(visited, d, |visited|) == Occurrences(fm.caseFold, fm.docs[d], P)
      ensures |Indices(visited, d, |visited|)| == |Offsets(fm.caseFold, fm.docs[d], P)|
    {
      VisitsCounted(fm.caseFold, fm.docs, fm.byteToId, fm.sigma, fm.sa, P, lo, hi, visited, d);
      CountIsCard(visited, d, |visited|);
      OccurrencesAreOffsets(fm.caseFold, fm.docs[d], P);
    }
  }

  /** The documents of a search result's rows. */
  method VisitRows(fm: FMIndex, P: seq<Byte>, lo: nat, hi: nat) returns (visited: seq<nat>)
    requires fm.Valid() && fm.c != [] && P != [] && |fm.byteToId| == 256 && lo <= hi <= |fm.sa|
    requires Searched(fm.docs, fm.byteToId, fm.sa, P, lo, hi)
    ensures VisitsRows(fm.docs, fm.sa, lo, hi, visited)
  {
    hide FMIndex.Built, Layout, Searched;
    fm.LayoutSize();
    visited := [];
    var i := lo;
    while i < hi
      invariant lo <= i <= hi && VisitsRows(fm.docs, fm.sa, lo, i, visited)
    {
      SearchedRow(fm.caseFold, fm.docs, fm.byteToId, fm.sigma, fm.sa, P, lo, hi, i);
      var pos, _ := fm.LocateRow(i);
      if pos < fm.textLen {
        var d := fm.DocumentOf(pos);
        visited := visited + [d];
      }
      i := i + 1;
    }
  }
}
