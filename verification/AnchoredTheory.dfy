/** Occurrences at the start or the end of a document, seen from suffix-array intervals. */
module AnchoredTheory {
  import opened Counting
  import opened Sorting
  import opened SuffixArrays
  import opened Corpus
  import opened TextMatches
  import opened QueryTheory

  // ----- one flag per document -----

  /** In document d's stretch of the text, at most the position at offset off(d) is flagged, and it is
      exactly when d has the property. */
  ghost predicate OnePerDoc(docs: seq<Document>, flags: seq<nat>, has: nat -> bool, off: nat -> nat) {
    && |flags| == TextLength(docs) + 1
    && forall p: nat :: p < TextLength(docs) ==>
         flags[p] == if has(DocOf(docs, p)) && p - DocStart(docs, DocOf(docs, p)) == off(DocOf(docs, p)) then 1 else 0
  }

  lemma {:induction false} FlagInDoc(docs: seq<Document>, flags: seq<nat>, has: nat -> bool, off: nat -> nat, d: nat,
                                     n: nat)
    requires OnePerDoc(docs, flags, has, off) && d < |docs| && n <= |docs[d]| + 1
    requires DocStart(docs, d) + n <= DocStart(docs, d + 1) <= TextLength(docs)
    ensures Count(flags, 1, DocStart(docs, d) + n)
         == Count(flags, 1, DocStart(docs, d)) + if has(d) && off(d) < n then 1 else 0
  {
    hide DocStart;
    if n > 0 {
      DocStartNext(docs, d);
      FlagInDoc(docs, flags, has, off, d, n - 1);
      DocOfUnique(docs, DocStart(docs, d) + n - 1, d);
    }
  }

  lemma {:induction false} FlagsInDocs(docs: seq<Document>, flags: seq<nat>, has: nat -> bool, off: nat -> nat, n: nat)
    requires OnePerDoc(docs, flags, has, off) && n <= |docs| && DocStart(docs, n) <= TextLength(docs)
    requires forall d: nat :: d < |docs| && has(d) ==> off(d) <= |docs[d]|
    ensures Count(flags, 1, DocStart(docs, n)) == CountDocs(has, n)
  {
    hide OnePerDoc;
    if n > 0 {
      FlagsInDocs(docs, flags, has, off, n - 1);
      FlagInDoc(docs, flags, has, off, n - 1, |docs[n - 1]| + 1);
    }
  }

  // ----- documents that begin with the pattern -----

  /** The symbol before a text position is the sentinel or a separator exactly at document starts. */
  lemma BoundaryBefore(fold: bool, docs: seq<Document>, ids: seq<int>, sigma: nat, p: nat)
    requires Alphabet(fold, docs, ids, sigma) && p < TextLength(docs)
    ensures BwtSymbol(Text(ids, docs), p) <= 1 <==> p == DocStart(docs, DocOf(docs, p))
    ensures BwtSymbol(Text(ids, docs), p) == 0 <==> p == 0
  {
    assert |ids| == 256;
    hide DocStart, Text, Alphabet;
    var d := DocOf(docs, p);
    StartOfFirst(docs);
    if p > 0 {
      SymbolAt(ids, docs, p - 1);
      var e := DocOf(docs, p - 1);
      CorpusKnown(fold, docs, ids, sigma, e);
      DocStartNext(docs, e);
      if p < DocStart(docs, e + 1) {
        DocOfUnique(docs, p, e);
      } else {
        NextDocument(docs, p, e);
      }
    }
  }

  lemma StartOfFirst(docs: seq<Document>)
    ensures DocStart(docs, 0) == 0
  {}

  lemma DocStartNext(docs: seq<Document>, d: nat)
    requires d < |docs|
    ensures DocStart(docs, d + 1) == DocStart(docs, d) + |docs[d]| + 1
  {}

  /** The position after document e's separator is the start of document e + 1. */
  lemma NextDocument(docs: seq<Document>, p: nat, e: nat)
    requires e < |docs| && p == DocStart(docs, e + 1) < TextLength(docs)
    ensures e + 1 < |docs| && DocOf(docs, p) == e + 1
  {
    DocStartNext(docs, e + 1);
    DocOfUnique(docs, p, e + 1);
  }

  ghost function AtStart(): nat -> nat {
    (d: nat) => 0
  }

  /** Rows of [lo, hi) whose preceding symbol is the sentinel or a separator. */
  ghost function BoundaryRows(b: seq<nat>, lo: nat, hi: nat): (f: seq<nat>)
    ensures |f| == |b|
    ensures forall r :: 0 <= r < |b| ==> f[r] == if lo <= r < hi && b[r] <= 1 then 1 else 0
  {
    seq(|b|, r requires 0 <= r < |b| => if lo <= r < hi && b[r] <= 1 then 1 else 0)
  }

  lemma {:induction false} BoundaryRanks(b: seq<nat>, lo: nat, hi: nat, n: nat)
    requires lo <= hi <= |b| && n <= |b|
    ensures Count(BoundaryRows(b, lo, hi), 1, n)
         == if n <= lo then 0
            else if n <= hi then Count(b, 0, n) + Count(b, 1, n) - Count(b, 0, lo) - Count(b, 1, lo)
            else Count(b, 0, hi) + Count(b, 1, hi) - Count(b, 0, lo) - Count(b, 1, lo)
  {
    if n > 0 {
      BoundaryRanks(b, lo, hi, n - 1);
    }
  }

  /** Occurrences at a document start. */
  ghost function StartFlags(t: seq<nat>, W: seq<nat>): (f: seq<nat>)
    ensures |f| == |t|
    ensures forall p :: 0 <= p < |t| ==> f[p] == if Matches(t, p, W) && BwtSymbol(t, p) <= 1 then 1 else 0
  {
    seq(|t|, p requires 0 <= p < |t| => if Matches(t, p, W) && BwtSymbol(t, p) <= 1 then 1 else 0)
  }

  /** A rank difference over the interval counts the documents that begin with the pattern. */
  lemma PrefixCount(fold: bool, docs: seq<Document>, ids: seq<int>, sigma: nat, sa: seq<nat>,
                    P: seq<Byte>, lo: nat, hi: nat)
    requires Layout(fold, docs, ids, sigma, sa) && P != [] && Searched(docs, ids, sa, P, lo, hi)
    ensures var b := Bwt(Text(ids, docs), sa);
            Count(b, 0, hi) + Count(b, 1, hi) - Count(b, 0, lo) - Count(b, 1, lo)
            == CountDocs(BeginsDoc(fold, docs, P), |docs|)
  {
    hide Count, DocStart, OccursAt, Known, CountDocs;
    if Known(ids, P) {
      LayoutFacts(fold, docs, ids, sigma, sa);
      RankDifference(Text(ids, docs), sa, Syms(ids, P), lo, hi);
      StartCount(fold, docs, ids, sigma, P);
    } else {
      NoneBegin(fold, docs, ids, sigma, P, |docs|);
    }
  }

  lemma RankDifference(t: seq<nat>, sa: seq<nat>, W: seq<nat>, lo: nat, hi: nat)
    requires IsSuffixArray(t, sa) && IsPermutation(sa) && Exact(t, sa, W, lo, hi)
    ensures var b := Bwt(t, sa);
            Count(b, 0, hi) + Count(b, 1, hi) - Count(b, 0, lo) - Count(b, 1, lo) == Count(StartFlags(t, W), 1, |t|)
  {
    hide Count, Matches;
    StartRows(t, sa, W, lo, hi);
    BoundaryRanks(Bwt(t, sa), lo, hi, |sa|);
  }

  lemma StartCount(fold: bool, docs: seq<Document>, ids: seq<int>, sigma: nat, P: seq<Byte>)
    requires Alphabet(fold, docs, ids, sigma) && P != [] && Known(ids, P)
    ensures Count(StartFlags(Text(ids, docs), Syms(ids, P)), 1, TextLength(docs) + 1)
         == CountDocs(BeginsDoc(fold, docs, P), |docs|)
  {
    assert |ids| == 256;
    hide Count, DocStart, OccursAt, Known, Alphabet, Text, CountDocs;
    var flags := StartFlags(Text(ids, docs), Syms(ids, P));
    StartFlagsPerDoc(fold, docs, ids, sigma, P);
    FlagsInDocs(docs, flags, BeginsDoc(fold, docs, P), AtStart(), |docs|);
    NoStartAtSentinel(fold, docs, ids, sigma, P);
  }

  /** Flagged rows are the rows of flagged positions. */
  lemma StartRows(t: seq<nat>, sa: seq<nat>, W: seq<nat>, lo: nat, hi: nat)
    requires IsSuffixArray(t, sa) && IsPermutation(sa) && Exact(t, sa, W, lo, hi)
    ensures Count(BoundaryRows(Bwt(t, sa), lo, hi), 1, |sa|) == Count(StartFlags(t, W), 1, |t|)
  {
    hide Count, Matches;
    var rows, flags := BoundaryRows(Bwt(t, sa), lo, hi), StartFlags(t, W);
    forall r | 0 <= r < |sa|
      ensures flags[sa[r]] == rows[r]
    {
      assert Bwt(t, sa)[r] == BwtSymbol(t, sa[r]);
    }
    PermutedCount(rows, flags, sa, 1);
  }

  lemma NoStartAtSentinel(fold: bool, docs: seq<Document>, ids: seq<int>, sigma: nat, P: seq<Byte>)
    requires Alphabet(fold, docs, ids, sigma) && P != [] && Known(ids, P)
    ensures var f := StartFlags(Text(ids, docs), Syms(ids, P));
            Count(f, 1, TextLength(docs) + 1) == Count(f, 1, TextLength(docs))
  {}

  lemma StartFlagsPerDoc(fold: bool, docs: seq<Document>, ids: seq<int>, sigma: nat, P: seq<Byte>)
    requires Alphabet(fold, docs, ids, sigma) && P != [] && Known(ids, P)
    ensures OnePerDoc(docs, StartFlags(Text(ids, docs), Syms(ids, P)), BeginsDoc(fold, docs, P), AtStart())
  {
    assert |ids| == 256;
    hide Matches, DocStart, OccursAt, Text, Alphabet, Known;
    forall p: nat | p < TextLength(docs)
      ensures Matches(Text(ids, docs), p, Syms(ids, P)) && BwtSymbol(Text(ids, docs), p) <= 1
              <==> BeginsWith(fold, docs[DocOf(docs, p)], P) && p == DocStart(docs, DocOf(docs, p))
    {
      PatternMatches(fold, docs, ids, sigma, P, p);
      BoundaryBefore(fold, docs, ids, sigma, p);
    }
  }

  lemma {:induction false} NoneBegin(fold: bool, docs: seq<Document>, ids: seq<int>, sigma: nat, P: seq<Byte>, n: nat)
    requires Alphabet(fold, docs, ids, sigma) && !Known(ids, P) && n <= |docs|
    ensures CountDocs(BeginsDoc(fold, docs, P), n) == 0
    ensures CountDocs(EndsDoc(fold, docs, P), n) == 0
  {
    hide OccursAt;
    if n > 0 {
      NoneBegin(fold, docs, ids, sigma, P, n - 1);
      if BeginsWith(fold, docs[n - 1], P) {
        OccurrenceKnown(fold, docs, ids, sigma, P, n - 1, 0);
      }
      if EndsWith(fold, docs[n - 1], P) {
        OccurrenceKnown(fold, docs, ids, sigma, P, n - 1, |docs[n - 1]| - |P|);
      }
    }
  }

  // ----- documents that end with the pattern -----

  /** What the search seeded on the separators returns. */
  ghost predicate SearchedEnd(docs: seq<Document>, ids: seq<int>, sa: seq<nat>, P: seq<Byte>, lo: nat, hi: nat)
    requires |ids| == 256
  {
    && lo <= hi <= |sa|
    && (Known(ids, P) ==> Exact(Text(ids, docs), sa, Syms(ids, P) + [SEPARATOR], lo, hi))
    && (!Known(ids, P) ==> lo == hi)
  }

  lemma MatchesThenSymbol(t: seq<nat>, p: nat, W: seq<nat>, x: nat)
    ensures Matches(t, p, W + [x]) <==> p + |W| < |t| && Matches(t, p, W) && t[p + |W|] == x
  {
    if p + |W| < |t| {
      assert t[p..p + |W + [x]|] == t[p..p + |W|] + [t[p + |W|]];
      assert (W + [x])[..|W|] == W && (W + [x])[|W|] == x;
    }
  }

  /** A match followed by a separator is an occurrence at the end of its document. */
  lemma EndMatches(fold: bool, docs: seq<Document>, ids: seq<int>, sigma: nat, P: seq<Byte>, p: nat)
    requires Alphabet(fold, docs, ids, sigma) && P != [] && Known(ids, P) && p < TextLength(docs)
    ensures Matches(Text(ids, docs), p, Syms(ids, P) + [SEPARATOR])
            <==> var d := DocOf(docs, p); EndsWith(fold, docs[d], P) && p - DocStart(docs, d) == |docs[d]| - |P|
  {
    assert |ids| == 256;
    hide Matches, DocStart, OccursAt, Text, Alphabet, Known;
    var t, d := Text(ids, docs), DocOf(docs, p);
    MatchesThenSymbol(t, p, Syms(ids, P), SEPARATOR);
    PatternMatches(fold, docs, ids, sigma, P, p);
    var o := p - DocStart(docs, d);
    DocStartNext(docs, d);
    if OccursAt(fold, docs[d], o, P) {
      OccurrenceFits(fold, docs[d], o, P);
      EndSymbol(fold, docs, ids, sigma, d, o + |P|);
    }
  }

  lemma OccurrenceFits(fold: bool, doc: Document, o: nat, P: seq<Byte>)
    requires OccursAt(fold, doc, o, P)
    ensures o + |P| <= |doc|
  {}

  /** Within a document's stretch the separator is the symbol at its end, and only there. */
  lemma EndSymbol(fold: bool, docs: seq<Document>, ids: seq<int>, sigma: nat, d: nat, o: nat)
    requires Alphabet(fold, docs, ids, sigma) && d < |docs| && o <= |docs[d]|
    ensures DocStart(docs, d) + o < TextLength(docs)
    ensures Text(ids, docs)[DocStart(docs, d) + o] == SEPARATOR <==> o == |docs[d]|
  {
    TextAtDoc(ids, docs, d);
    DocOfUnique(docs, DocStart(docs, d) + o, d);
    SymbolAt(ids, docs, DocStart(docs, d) + o);
    CorpusKnown(fold, docs, ids, sigma, d);
  }

  ghost function EndOffset(docs: seq<Document>, P: seq<Byte>): nat -> nat {
    (d: nat) => if d < |docs| && |P| <= |docs[d]| then |docs[d]| - |P| else 0
  }

  /** The width of the end-anchored interval counts the documents that end with the pattern. */
  lemma SuffixCount(fold: bool, docs: seq<Document>, ids: seq<int>, sigma: nat, sa: seq<nat>,
                    P: seq<Byte>, lo: nat, hi: nat)
    requires Layout(fold, docs, ids, sigma, sa) && P != [] && SearchedEnd(docs, ids, sa, P, lo, hi)
    ensures hi - lo == CountDocs(EndsDoc(fold, docs, P), |docs|)
  {
    if Known(ids, P) {
      var t, W := Text(ids, docs), Syms(ids, P) + [SEPARATOR];
      hide Count, Matches, DocStart, OccursAt, Known, Alphabet;
      ExactWidth(t, sa, W, lo, hi);
      EndFlagsPerDoc(fold, docs, ids, sigma, P);
      FlagsInDocs(docs, MatchFlags(t, W), EndsDoc(fold, docs, P), EndOffset(docs, P), |docs|);
      NoEndAtSentinel(docs, ids, P);
    } else {
      NoneBegin(fold, docs, ids, sigma, P, |docs|);
    }
  }

  lemma NoEndAtSentinel(docs: seq<Document>, ids: seq<int>, P: seq<Byte>)
    requires |ids| == 256 && P != []
    ensures var f := MatchFlags(Text(ids, docs), Syms(ids, P) + [SEPARATOR]);
            Count(f, 1, TextLength(docs) + 1) == Count(f, 1, TextLength(docs))
  {}

  lemma EndFlagsPerDoc(fold: bool, docs: seq<Document>, ids: seq<int>, sigma: nat, P: seq<Byte>)
    requires Alphabet(fold, docs, ids, sigma) && P != [] && Known(ids, P)
    ensures OnePerDoc(docs, MatchFlags(Text(ids, docs), Syms(ids, P) + [SEPARATOR]), EndsDoc(fold, docs, P),
                      EndOffset(docs, P))
  {
    assert |ids| == 256;
    hide Matches, DocStart, OccursAt, Text, Alphabet, Known;
    forall p: nat | p < TextLength(docs)
      ensures Matches(Text(ids, docs), p, Syms(ids, P) + [SEPARATOR])
              <==> var d := DocOf(docs, p); EndsWith(fold, docs[d], P) && p - DocStart(docs, d) == EndOffset(docs, P)(d)
    {
      EndMatches(fold, docs, ids, sigma, P, p);
    }
  }
}
