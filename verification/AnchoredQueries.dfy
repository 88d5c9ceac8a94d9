/** Documents that begin or end with a pattern. */
module AnchoredQueries {
  import opened Counting
  import opened Sorting
  import opened SuffixArrays
  import opened Corpus
  import opened TextMatches
  import opened QueryTheory
  import opened PlainText
  import opened AnchoredTheory
  import opened FMIndexes

  /** Counts the documents that begin with the pattern without locating anything. */
  method CountPrefixDocs(fm: FMIndex, P: seq<Byte>) returns (n: nat)
    requires fm.Valid()
    ensures P == [] ==> n == 0
    ensures P != [] ==> n == CountDocs(BeginsDoc(fm.caseFold, fm.docs, P), |fm.docs|)
    ensures P != [] ==> n == |Beginning(fm.caseFold, fm.docs, P)|
  {
    hide FMIndex.Built, Layout, Searched, Count, CountBelow, CountDocs, Bwt, Beginning;
    BeginningMeans(fm.caseFold, fm.docs, P);
    NoDocuments(BeginsDoc(fm.caseFold, fm.docs, P));
    if P == [] || fm.c == [] {
      return 0;
    }
    var lo, hi := fm.BackwardSearch(P);
    fm.LayoutSize();
    SearchedBounds(fm.docs, fm.byteToId, fm.sa, P, lo, hi);
    PrefixCount(fm.caseFold, fm.docs, fm.byteToId, fm.sigma, fm.sa, P, lo, hi);
    if lo >= hi {
      return 0;
    }
    var hi0 := fm.RankOf(0, hi);
    var hi1 := fm.RankOf(1, hi);
    var lo0 := fm.RankOf(0, lo);
    var lo1 := fm.RankOf(1, lo);
    n := hi0 + hi1 - (lo0 + lo1);
  }

  lemma NoDocuments(has: nat -> bool)
    ensures CountDocs(has, 0) == 0
  {}

  /** A row of the separator-extended interval sits right before a document that begins with P. */
  lemma SeparatorRow(fold: bool, docs: seq<Document>, ids: seq<int>, sigma: nat, P: seq<Byte>, p: nat)
    requires Alphabet(fold, docs, ids, sigma) && P != [] && Known(ids, P)
    requires p <= TextLength(docs) && Matches(Text(ids, docs), p, [SEPARATOR] + Syms(ids, P))
    ensures p + 1 < TextLength(docs) && BeginsWith(fold, docs[DocOf(docs, p + 1)], P)
  {
    assert |ids| == 256;
    hide Matches, Text, DocStart, OccursAt, Known, Alphabet;
    MatchesCons(Text(ids, docs), p, SEPARATOR, Syms(ids, P));
    PatternMatches(fold, docs, ids, sigma, P, p + 1);
    BoundaryBefore(fold, docs, ids, sigma, p + 1);
  }

  /** Every later document that begins with P has its row there. */
  lemma SeparatorFinds(fold: bool, docs: seq<Document>, ids: seq<int>, sigma: nat, P: seq<Byte>, d: nat)
    returns (p: nat)
    requires Alphabet(fold, docs, ids, sigma) && P != [] && Known(ids, P)
    requires 0 < d < |docs| && BeginsWith(fold, docs[d], P)
    ensures p + 1 < TextLength(docs) && DocOf(docs, p + 1) == d
    ensures Matches(Text(ids, docs), p, [SEPARATOR] + Syms(ids, P))
  {
    assert |ids| == 256;
    hide Matches, Text, DocStart, OccursAt, Known, Alphabet;
    OccurrenceMatches(fold, docs, ids, sigma, P, d, 0);
    DocStartNext(docs, d - 1);
    p := DocStart(docs, d) - 1;
    DocStartNext(docs, d);
    DocOfUnique(docs, p + 1, d);
    EndSymbol(fold, docs, ids, sigma, d - 1, |docs[d - 1]|);
    MatchesCons(Text(ids, docs), p, SEPARATOR, Syms(ids, P));
  }

  /** The sentinel precedes a row of the interval exactly when the first document begins with P. */
  lemma SentinelRow(fold: bool, docs: seq<Document>, ids: seq<int>, sigma: nat, sa: seq<nat>,
                    P: seq<Byte>, lo: nat, hi: nat)
    requires Layout(fold, docs, ids, sigma, sa) && P != [] && Known(ids, P)
    requires Exact(Text(ids, docs), sa, Syms(ids, P), lo, hi)
    ensures var b := Bwt(Text(ids, docs), sa);
            Count(b, 0, hi) > Count(b, 0, lo) <==> |docs| > 0 && BeginsWith(fold, docs[0], P)
  {
    var t, W, b := Text(ids, docs), Syms(ids, P), Bwt(Text(ids, docs), sa);
    LayoutFacts(fold, docs, ids, sigma, sa);
    CorpusIsText(fold, docs, ids, sigma);
    var r := Find(sa, 0);
    ZeroRank(t, sa, lo, hi, r);
    assert lo <= r < hi <==> Matches(t, 0, W);
    FirstPosition(fold, docs, ids, sigma, P);
  }

  lemma FirstPosition(fold: bool, docs: seq<Document>, ids: seq<int>, sigma: nat, P: seq<Byte>)
    requires Alphabet(fold, docs, ids, sigma) && P != [] && Known(ids, P)
    ensures Matches(Text(ids, docs), 0, Syms(ids, P)) <==> |docs| > 0 && BeginsWith(fold, docs[0], P)
  {
    assert |ids| == 256;
    hide Matches, Text, OccursAt, Known, Alphabet;
    PatternMatches(fold, docs, ids, sigma, P, 0);
    if |docs| > 0 {
      DocStartMonotone(docs, 0, |docs|);
      DocOfUnique(docs, 0, 0);
    }
  }

  /** The sentinel occurs once in the transform, in the row of text position 0. */
  lemma ZeroRank(t: seq<nat>, sa: seq<nat>, lo: nat, hi: nat, r: nat)
    requires IsText(t) && IsSuffixArray(t, sa) && IsPermutation(sa) && lo <= hi <= |sa| && r < |sa| && sa[r] == 0
    ensures Count(Bwt(t, sa), 0, hi) > Count(Bwt(t, sa), 0, lo) <==> lo <= r < hi
  {}

  /** The documents that begin with the pattern. Only the answer rows are located. */
  method LocatePrefixDocs(fm: FMIndex, P: seq<Byte>) returns (r: seq<nat>)
    requires fm.Valid()
    ensures P == [] ==> r == []
    ensures P != [] ==> DocList(fm.docs, BeginsDoc(fm.caseFold, fm.docs, P), r)
    ensures P != [] ==> Lists(r, Beginning(fm.caseFold, fm.docs, P))
  {
    hide FMIndex.Built, Layout, Searched, OccursAt, SortValues, Lists, Beginning;
    BeginningListed(fm.caseFold, fm.docs, P);
    if P == [] || fm.c == [] {
      return [];
    }
    var lo, hi := fm.BackwardSearch(P);
    fm.LayoutSize();
    SearchedBounds(fm.docs, fm.byteToId, fm.sa, P, lo, hi);
    if lo >= hi {
      NoPrefixRows(fm.caseFold, fm.docs, fm.byteToId, fm.sigma, fm.sa, P, lo, hi);
      return [];
    }
    KnownIfFound(fm.docs, fm.byteToId, fm.sa, P, lo, hi);
    var ds := StartDocs(fm, P, lo, hi);
    ListDocs(fm.docs, BeginsDoc(fm.caseFold, fm.docs, P), ds);
    r := Unique(SortValues(ds));
  }

  /** Every document that begins with the pattern; the first one is recognised by its sentinel. */
  method StartDocs(fm: FMIndex, P: seq<Byte>, lo: nat, hi: nat) returns (ds: seq<nat>)
    requires fm.Valid() && fm.c != [] && |fm.byteToId| == 256 && lo <= hi <= |fm.sa|
    requires P != [] && Known(fm.byteToId, P) && Exact(fm.Symbols(), fm.sa, Syms(fm.byteToId, P), lo, hi)
    ensures forall i :: 0 <= i < |ds| ==> ds[i] < |fm.docs| && BeginsWith(fm.caseFold, fm.docs[ds[i]], P)
    ensures forall d: nat :: d < |fm.docs| && BeginsWith(fm.caseFold, fm.docs[d], P) ==> d in ds
  {
    hide FMIndex.Built, Layout, BeginsWith, Exact, Known;
    fm.LayoutSize();
    ds := SeparatorDocs(fm, P, lo, hi);
    var plo, phi := fm.Spread(0, lo, hi);
    SentinelRow(fm.caseFold, fm.docs, fm.byteToId, fm.sigma, fm.sa, P, lo, hi);
    if phi > plo {
      ds := ds + [0];
    }
  }

  lemma KnownIfFound(docs: seq<Document>, ids: seq<int>, sa: seq<nat>, P: seq<Byte>, lo: nat, hi: nat)
    requires |ids| == 256 && Searched(docs, ids, sa, P, lo, hi) && lo < hi
    ensures Known(ids, P) && Exact(Text(ids, docs), sa, Syms(ids, P), lo, hi)
  {}

  /** An empty search interval means no document even contains the pattern. */
  lemma NoPrefixRows(fold: bool, docs: seq<Document>, ids: seq<int>, sigma: nat, sa: seq<nat>,
                     P: seq<Byte>, lo: nat, hi: nat)
    requires Layout(fold, docs, ids, sigma, sa) && P != [] && Searched(docs, ids, sa, P, lo, hi) && lo >= hi
    ensures DocList(docs, BeginsDoc(fold, docs, P), [])
  {
    hide Layout, Searched;
    forall d: nat | d < |docs|
      ensures !BeginsWith(fold, docs[d], P)
    {
      if BeginsWith(fold, docs[d], P) {
        var row := SearchedFinds(fold, docs, ids, sigma, sa, P, lo, hi, d, 0);
      }
    }
  }

  /** The interval of "separator, pattern" for a known pattern. */
  ghost predicate SearchedStart(docs: seq<Document>, ids: seq<int>, sa: seq<nat>, P: seq<Byte>, lo: nat, hi: nat)
    requires |ids| == 256
  {
    Known(ids, P) && lo <= hi <= |sa| && Exact(Text(ids, docs), sa, [SEPARATOR] + Syms(ids, P), lo, hi)
  }

  lemma StartRow(fold: bool, docs: seq<Document>, ids: seq<int>, sigma: nat, sa: seq<nat>,
                 P: seq<Byte>, lo: nat, hi: nat, i: nat)
    requires Layout(fold, docs, ids, sigma, sa) && P != [] && |ids| == 256
    requires SearchedStart(docs, ids, sa, P, lo, hi) && lo <= i < hi
    ensures i < |sa| && sa[i] + 1 < TextLength(docs) && BeginsWith(fold, docs[DocOf(docs, sa[i] + 1)], P)
  {
    hide Matches, OccursAt, Alphabet;
    LayoutFacts(fold, docs, ids, sigma, sa);
    SeparatorRow(fold, docs, ids, sigma, P, sa[i]);
  }

  lemma StartFinds(fold: bool, docs: seq<Document>, ids: seq<int>, sigma: nat, sa: seq<nat>,
                   P: seq<Byte>, lo: nat, hi: nat, d: nat) returns (i: nat)
    requires Layout(fold, docs, ids, sigma, sa) && P != [] && |ids| == 256
    requires SearchedStart(docs, ids, sa, P, lo, hi) && 0 < d < |docs| && BeginsWith(fold, docs[d], P)
    ensures lo <= i < hi && sa[i] + 1 < TextLength(docs) && DocOf(docs, sa[i] + 1) == d
  {
    hide Matches, OccursAt, Alphabet, DocStart;
    LayoutFacts(fold, docs, ids, sigma, sa);
    var p := SeparatorFinds(fold, docs, ids, sigma, P, d);
    i := Find(sa, p);
  }

  method StepToStarts(fm: FMIndex, P: seq<Byte>, lo: nat, hi: nat) returns (nlo: nat, nhi: nat)
    requires fm.Valid() && fm.c != [] && |fm.byteToId| == 256
    requires P != [] && Known(fm.byteToId, P) && Exact(fm.Symbols(), fm.sa, Syms(fm.byteToId, P), lo, hi)
    ensures nlo <= nhi <= |fm.sa| && SearchedStart(fm.docs, fm.byteToId, fm.sa, P, nlo, nhi)
  {
    hide FMIndex.Built, Matches, Known, Alphabet, Count, CountBelow;
    fm.LayoutSize();
    nlo, nhi := fm.Step(SEPARATOR, lo, hi);
    BackwardStep(fm.Symbols(), fm.sa, Syms(fm.byteToId, P), SEPARATOR, lo, hi);
  }

  /** The documents after the first that begin with the pattern: one more backward step, by the separator. */
  method SeparatorDocs(fm: FMIndex, P: seq<Byte>, lo: nat, hi: nat) returns (ds: seq<nat>)
    requires fm.Valid() && fm.c != [] && |fm.byteToId| == 256
    requires P != [] && Known(fm.byteToId, P) && Exact(fm.Symbols(), fm.sa, Syms(fm.byteToId, P), lo, hi)
    ensures forall i :: 0 <= i < |ds| ==> ds[i] < |fm.docs| && BeginsWith(fm.caseFold, fm.docs[ds[i]], P)
    ensures forall d: nat :: 0 < d < |fm.docs| && BeginsWith(fm.caseFold, fm.docs[d], P) ==> d in ds
  {
    hide FMIndex.Built, Layout, SearchedStart, BeginsWith, Exact, Known;
    fm.LayoutSize();
    var nlo, nhi := StepToStarts(fm, P, lo, hi);
    ds := DocsAfter(fm, P, nlo, nhi);
    forall d: nat | 0 < d < |fm.docs| && BeginsWith(fm.caseFold, fm.docs[d], P)
      ensures d in ds
    {
      var row := StartFinds(fm.caseFold, fm.docs, fm.byteToId, fm.sigma, fm.sa, P, nlo, nhi, d);
    }
  }

  /** The documents right after the separators of an interval of "separator, pattern". */
  method DocsAfter(fm: FMIndex, P: seq<Byte>, lo: nat, hi: nat) returns (ds: seq<nat>)
    requires fm.Valid() && fm.c != [] && |fm.byteToId| == 256 && P != []
    requires lo <= hi <= |fm.sa| && SearchedStart(fm.docs, fm.byteToId, fm.sa, P, lo, hi)
    ensures forall k :: 0 <= k < |ds| ==> ds[k] < |fm.docs| && BeginsWith(fm.caseFold, fm.docs[ds[k]], P)
    ensures forall x :: lo <= x < hi ==> fm.sa[x] + 1 < TextLength(fm.docs) && DocOf(fm.docs, fm.sa[x] + 1) in ds
  {
    hide FMIndex.Built, Layout, SearchedStart, BeginsWith, DocStart, OccursAt, Text;
    fm.LayoutSize();
    ds := [];
    var i := lo;
    while i < hi
      invariant lo <= i <= hi
      invariant forall k :: 0 <= k < |ds| ==> ds[k] < |fm.docs| && BeginsWith(fm.caseFold, fm.docs[ds[k]], P)
      invariant forall x :: lo <= x < i ==> fm.sa[x] + 1 < TextLength(fm.docs) && DocOf(fm.docs, fm.sa[x] + 1) in ds
    {
      StartRow(fm.caseFold, fm.docs, fm.byteToId, fm.sigma, fm.sa, P, lo, hi, i);
      var pos, _ := fm.LocateRow(i);
      var d := fm.DocumentOf(pos + 1);
      ds := ds + [d];
      i := i + 1;
    }
  }

  // ----- suffixes -----

  /** The interval of "pattern, separator": a backward search seeded on the separators. */
  method SuffixDocInterval(fm: FMIndex, P: seq<Byte>) returns (lo: nat, hi: nat)
    requires fm.Valid()
    ensures P == [] || fm.c == [] ==> lo == hi == 0
    ensures P != [] && fm.c != [] ==> |fm.byteToId| == 256 && SearchedEnd(fm.docs, fm.byteToId, fm.sa, P, lo, hi)
  {
    if P == [] || fm.c == [] {
      return 0, 0;
    }
    hide FMIndex.Built, Exact, SearchedEnd;
    fm.LayoutSize();
    lo, hi := SeparatorSeed(fm);
    lo, hi := ExtendBack(fm, P, lo, hi);
  }

  method SeparatorSeed(fm: FMIndex) returns (lo: nat, hi: nat)
    requires fm.Valid() && fm.c != []
    ensures |fm.byteToId| == 256 && lo <= hi <= |fm.sa| && Exact(fm.Symbols(), fm.sa, [SEPARATOR], lo, hi)
  {
    hide Exact;
    fm.LayoutSize();
    lo := fm.c[1];
    hi := if |fm.c| > 2 then fm.c[2] else fm.textLen + 1;
    SeparatorInterval(fm, lo, hi);
  }

  /** Extends the separators' interval backward by the whole pattern. */
  method ExtendBack(fm: FMIndex, P: seq<Byte>, lo0: nat, hi0: nat) returns (lo: nat, hi: nat)
    requires fm.Valid() && fm.c != [] && |fm.byteToId| == 256
    requires lo0 <= hi0 <= |fm.sa| && Exact(fm.Symbols(), fm.sa, [SEPARATOR], lo0, hi0)
    ensures SearchedEnd(fm.docs, fm.byteToId, fm.sa, P, lo, hi)
  {
    hide Count, CountBelow, Exact, Alphabet, FMIndex.Built;
    fm.LayoutSize();
    lo, hi := lo0, hi0;
    var k := |P|;
    NothingLeft(fm.byteToId, P);
    assert Syms(fm.byteToId, P[k..]) + [SEPARATOR] == [SEPARATOR];
    while k > 0
      invariant 0 <= k <= |P| && lo <= hi <= |fm.sa|
      invariant Known(fm.byteToId, P[k..])
      invariant Exact(fm.Symbols(), fm.sa, Syms(fm.byteToId, P[k..]) + [SEPARATOR], lo, hi)
    {
      k := k - 1;
      var id := fm.byteToId[P[k]];
      IdRange(fm.caseFold, fm.docs, fm.byteToId, fm.sigma, P[k]);
      if id < 0 {
        return 0, 0;
      }
      PrependedEnd(fm.byteToId, P, k);
      BackwardStep(fm.Symbols(), fm.sa, Syms(fm.byteToId, P[k + 1..]) + [SEPARATOR], id, lo, hi);
      lo, hi := fm.Step(id, lo, hi);
      if lo >= hi {
        EmptyEnd(fm.Symbols(), fm.sa, fm.byteToId, P, k, lo, hi);
        return 0, 0;
      }
    }
    assert P[0..] == P;
  }

  lemma PrependedEnd(ids: seq<int>, P: seq<Byte>, k: nat)
    requires |ids| == 256 && k < |P| && ids[P[k]] >= 0
    ensures Syms(ids, P[k..]) + [SEPARATOR] == [ids[P[k]]] + (Syms(ids, P[k + 1..]) + [SEPARATOR])
    ensures Known(ids, P[k + 1..]) ==> Known(ids, P[k..])
  {}

  lemma EmptyEnd(t: seq<nat>, sa: seq<nat>, ids: seq<int>, P: seq<Byte>, k: nat, lo: nat, hi: nat)
    requires |ids| == 256 && k < |P| && IsSuffixArray(t, sa)
    requires Exact(t, sa, Syms(ids, P[k..]) + [SEPARATOR], lo, hi) && lo >= hi
    ensures Exact(t, sa, Syms(ids, P) + [SEPARATOR], 0, 0)
  {
    hide Exact;
    var A, B := Syms(ids, P[..k]), Syms(ids, P[k..]) + [SEPARATOR];
    assert A + B == Syms(ids, P) + [SEPARATOR];
    EmptySuffix(t, sa, A, B, lo, hi);
  }

  /** The rows that start with the separator, read off the C-table. */
  lemma SeparatorInterval(fm: FMIndex, lo: nat, hi: nat)
    requires fm.Valid() && fm.c != [] && |fm.byteToId| == 256 && |fm.c| >= 2
    requires lo == fm.c[1] && hi == if |fm.c| > 2 then fm.c[2] else fm.textLen + 1
    ensures lo <= hi <= |fm.sa| && Exact(fm.Symbols(), fm.sa, [SEPARATOR], lo, hi)
  {
    hide Count, CountBelow, Matches;
    fm.LayoutSize();
    var b, m := fm.Transform(), |fm.sa|;
    ExactEmpty(fm.Symbols(), fm.sa);
    BackwardStep(fm.Symbols(), fm.sa, [], SEPARATOR, 0, m);
    assert [SEPARATOR] + [] == [SEPARATOR];
    CountNothing(b);
    CountBelowStep(b, SEPARATOR, m);
    if |fm.c| == 2 {
      TransformFits(fm.caseFold, fm.docs, fm.byteToId, fm.sigma, fm.sa);
      CountBelowAll(b, 2, m);
    }
  }

  lemma CountNothing(b: seq<nat>)
    ensures Count(b, SEPARATOR, 0) == 0
  {}

  /** Counts the documents that end with the pattern without locating anything. */
  method CountSuffixDocs(fm: FMIndex, P: seq<Byte>) returns (n: nat)
    requires fm.Valid()
    ensures P == [] ==> n == 0
    ensures P != [] ==> n == CountDocs(EndsDoc(fm.caseFold, fm.docs, P), |fm.docs|) == |Ending(fm.caseFold, fm.docs, P)|
  {
    hide FMIndex.Built, Layout, SearchedEnd, Ending;
    EndingMeans(fm.caseFold, fm.docs, P);
    var lo, hi := SuffixDocInterval(fm, P);
    if P != [] && fm.c != [] {
      fm.LayoutSize();
      SearchedEndBounds(fm.docs, fm.byteToId, fm.sa, P, lo, hi);
      SuffixCount(fm.caseFold, fm.docs, fm.byteToId, fm.sigma, fm.sa, P, lo, hi);
    }
    n := hi - lo;
  }

  lemma SearchedEndBounds(docs: seq<Document>, ids: seq<int>, sa: seq<nat>, P: seq<Byte>, lo: nat, hi: nat)
    requires |ids| == 256 && SearchedEnd(docs, ids, sa, P, lo, hi)
    ensures lo <= hi <= |sa|
  {}

  lemma EndRow(fold: bool, docs: seq<Document>, ids: seq<int>, sigma: nat, sa: seq<nat>,
               P: seq<Byte>, lo: nat, hi: nat, i: nat)
    requires Layout(fold, docs, ids, sigma, sa) && P != [] && SearchedEnd(docs, ids, sa, P, lo, hi) && lo <= i < hi
    ensures sa[i] < TextLength(docs) && EndsWith(fold, docs[DocOf(docs, sa[i])], P)
  {
    hide Matches, OccursAt, Alphabet;
    LayoutFacts(fold, docs, ids, sigma, sa);
    MatchesThenSymbol(Text(ids, docs), sa[i], Syms(ids, P), SEPARATOR);
    EndMatches(fold, docs, ids, sigma, P, sa[i]);
  }

  lemma EndFinds(fold: bool, docs: seq<Document>, ids: seq<int>, sigma: nat, sa: seq<nat>,
                 P: seq<Byte>, lo: nat, hi: nat, d: nat) returns (i: nat)
    requires Layout(fold, docs, ids, sigma, sa) && P != [] && SearchedEnd(docs, ids, sa, P, lo, hi)
    requires d < |docs| && EndsWith(fold, docs[d], P)
    ensures lo <= i < hi && sa[i] < TextLength(docs) && DocOf(docs, sa[i]) == d
  {
    hide Matches, OccursAt, Alphabet, DocStart, Text, Known;
    LayoutFacts(fold, docs, ids, sigma, sa);
    var o := |docs[d]| - |P|;
    OccurrenceKnown(fold, docs, ids, sigma, P, d, o);
    OccurrenceMatches(fold, docs, ids, sigma, P, d, o);
    var p := DocStart(docs, d) + o;
    DocOfUnique(docs, p, d);
    EndMatches(fold, docs, ids, sigma, P, p);
    i := Find(sa, p);
  }

  /** The documents that end with the pattern. */
  method LocateSuffixDocs(fm: FMIndex, P: seq<Byte>) returns (r: seq<nat>)
    requires fm.Valid()
    ensures P == [] ==> r == []
    ensures P != [] ==> DocList(fm.docs, EndsDoc(fm.caseFold, fm.docs, P), r)
    ensures P != [] ==> Lists(r, Ending(fm.caseFold, fm.docs, P))
  {
    hide FMIndex.Built, Layout, SearchedEnd, OccursAt, SortValues, EndsWith, Lists, Ending;
    EndingListed(fm.caseFold, fm.docs, P);
    var lo, hi := SuffixDocInterval(fm, P);
    if P == [] || fm.c == [] {
      return [];
    }
    fm.LayoutSize();
    SearchedEndBounds(fm.docs, fm.byteToId, fm.sa, P, lo, hi);
    var ds: seq<nat> := [];
    var i := lo;
    while i < hi
      invariant lo <= i <= hi
      invariant forall k :: 0 <= k < |ds| ==> ds[k] < |fm.docs| && EndsWith(fm.caseFold, fm.docs[ds[k]], P)
      invariant forall x :: lo <= x < i ==> fm.sa[x] < TextLength(fm.docs) && DocOf(fm.docs, fm.sa[x]) in ds
    {
      EndRow(fm.caseFold, fm.docs, fm.byteToId, fm.sigma, fm.sa, P, lo, hi, i);
      var pos, _ := fm.LocateRow(i);
      var d := fm.DocumentOf(pos);
      ds := ds + [d];
      i := i + 1;
    }
    forall d: nat | d < |fm.docs| && EndsWith(fm.caseFold, fm.docs[d], P)
      ensures d in ds
    {
      var row := EndFinds(fm.caseFold, fm.docs, fm.byteToId, fm.sigma, fm.sa, P, lo, hi, d);
    }
    ListDocs(fm.docs, EndsDoc(fm.caseFold, fm.docs, P), ds);
    r := Unique(SortValues(ds));
  }
}
