/** Matches in the symbol text are exactly occurrences inside documents: nothing straddles a separator. */
module TextMatches {
  import opened Counting
  import opened SuffixArrays
  import opened Corpus

  predicate IsContent(W: seq<nat>) {
    forall k :: 0 <= k < |W| ==> W[k] >= 2
  }

  lemma MatchesAt(t: seq<nat>, p: nat, W: seq<nat>, k: nat)
    requires Matches(t, p, W) && k < |W|
    ensures p + k < |t| && t[p + k] == W[k]
  {}

  /** A match of content symbols lies inside one document. */
  lemma ContentInDoc(ids: seq<int>, docs: seq<Document>, p: nat, W: seq<nat>)
    requires |ids| == 256 && W != [] && IsContent(W) && Matches(Text(ids, docs), p, W)
    ensures p < TextLength(docs)
    ensures var d := DocOf(docs, p); var o := p - DocStart(docs, d);
            o + |W| <= |docs[d]| && Syms(ids, docs[d][o..o + |W|]) == W
  {
    var t := Text(ids, docs);
    MatchesAt(t, p, W, 0);
    var d := DocOf(docs, p);
    var a := DocStart(docs, d);
    var o := p - a;
    TextAtDoc(ids, docs, d);
    var stretch := Syms(ids, docs[d]) + [SEPARATOR];
    assert t[a..a + |docs[d]| + 1] == stretch;
    assert t[a + |docs[d]|] == stretch[|docs[d]|] == SEPARATOR;
    if o + |W| > |docs[d]| {
      MatchesAt(t, p, W, |docs[d]| - o);
    }
    forall k | 0 <= k < |W|
      ensures Syms(ids, docs[d][o..o + |W|])[k] == W[k]
    {
      MatchesAt(t, p, W, k);
      assert t[a + (o + k)] == stretch[o + k];
    }
  }

  lemma ContentFromDoc(ids: seq<int>, docs: seq<Document>, d: nat, o: nat, n: nat)
    requires |ids| == 256 && d < |docs| && o + n <= |docs[d]|
    ensures DocStart(docs, d) + o + n < DocStart(docs, d + 1) <= TextLength(docs)
    ensures Matches(Text(ids, docs), DocStart(docs, d) + o, Syms(ids, docs[d][o..o + n]))
  {
    TextAtDoc(ids, docs, d);
    var a := DocStart(docs, d);
    var stretch := Syms(ids, docs[d]) + [SEPARATOR];
    assert Text(ids, docs)[a + o..a + o + n] == Text(ids, docs)[a..a + |docs[d]| + 1][o..o + n];
    assert stretch[o..o + n] == Syms(ids, docs[d][o..o + n]);
  }

  lemma KnownIsContent(fold: bool, docs: seq<Document>, ids: seq<int>, sigma: nat, P: seq<Byte>)
    requires Alphabet(fold, docs, ids, sigma) && Known(ids, P)
    ensures IsContent(Syms(ids, P)) && forall k :: 0 <= k < |P| ==> Syms(ids, P)[k] < sigma
  {
    forall k | 0 <= k < |P|
      ensures 2 <= Syms(ids, P)[k] < sigma
    {
      IdRange(fold, docs, ids, sigma, P[k]);
    }
  }

  lemma KnownSlice(fold: bool, docs: seq<Document>, ids: seq<int>, sigma: nat, d: nat, a: nat, b: nat)
    requires Alphabet(fold, docs, ids, sigma) && d < |docs| && a <= b <= |docs[d]|
    ensures Known(ids, docs[d][a..b])
  {}

  /** P occurs in the document of text position p, right there. */
  ghost predicate OccursAtPosition(fold: bool, docs: seq<Document>, p: nat, P: seq<Byte>) {
    && p < TextLength(docs)
    && OccursAt(fold, docs[DocOf(docs, p)], p - DocStart(docs, DocOf(docs, p)), P)
  }

  /** Equal symbols at an offset mean an occurrence there. */
  lemma SliceOccurs(fold: bool, docs: seq<Document>, ids: seq<int>, sigma: nat, P: seq<Byte>, d: nat, o: nat)
    requires Alphabet(fold, docs, ids, sigma) && Known(ids, P) && d < |docs| && o + |P| <= |docs[d]|
    ensures OccursAt(fold, docs[d], o, P) <==> Syms(ids, docs[d][o..o + |P|]) == Syms(ids, P)
  {
    KnownSlice(fold, docs, ids, sigma, d, o, o + |P|);
    SymsFaithful(fold, docs, ids, sigma, docs[d][o..o + |P|], P);
  }

  lemma MatchOccurs(fold: bool, docs: seq<Document>, ids: seq<int>, sigma: nat, P: seq<Byte>, p: nat)
    requires Alphabet(fold, docs, ids, sigma) && P != [] && Known(ids, P)
    requires Matches(Text(ids, docs), p, Syms(ids, P))
    ensures OccursAtPosition(fold, docs, p, P)
  {
    hide Matches, FoldAll, DocStart;
    KnownIsContent(fold, docs, ids, sigma, P);
    ContentInDoc(ids, docs, p, Syms(ids, P));
    var d := DocOf(docs, p);
    SliceOccurs(fold, docs, ids, sigma, P, d, p - DocStart(docs, d));
  }

  lemma OccurrenceMatches(fold: bool, docs: seq<Document>, ids: seq<int>, sigma: nat, P: seq<Byte>, d: nat, o: nat)
    requires Alphabet(fold, docs, ids, sigma) && Known(ids, P) && d < |docs| && OccursAt(fold, docs[d], o, P)
    ensures DocStart(docs, d) + o + |P| < DocStart(docs, d + 1) <= TextLength(docs)
    ensures Matches(Text(ids, docs), DocStart(docs, d) + o, Syms(ids, P))
  {
    hide Matches, FoldAll, DocStart;
    SliceOccurs(fold, docs, ids, sigma, P, d, o);
    ContentFromDoc(ids, docs, d, o, |P|);
  }

  /** A known pattern matches at a text position exactly when it occurs in the document there. */
  lemma PatternMatches(fold: bool, docs: seq<Document>, ids: seq<int>, sigma: nat, P: seq<Byte>, p: nat)
    requires Alphabet(fold, docs, ids, sigma) && P != [] && Known(ids, P)
    ensures Matches(Text(ids, docs), p, Syms(ids, P)) <==> OccursAtPosition(fold, docs, p, P)
  {
    assert |ids| == 256;
    hide Matches, Text, Alphabet, OccursAt, Syms, DocStart;
    if Matches(Text(ids, docs), p, Syms(ids, P)) {
      MatchOccurs(fold, docs, ids, sigma, P, p);
    }
    if OccursAtPosition(fold, docs, p, P) {
      OccurrenceMatches(fold, docs, ids, sigma, P, DocOf(docs, p), p - DocStart(docs, DocOf(docs, p)));
    }
  }

  /** Whatever occurs in a document has only known bytes. */
  lemma OccurrenceKnown(fold: bool, docs: seq<Document>, ids: seq<int>, sigma: nat, P: seq<Byte>, d: nat, o: nat)
    requires Alphabet(fold, docs, ids, sigma) && d < |docs| && OccursAt(fold, docs[d], o, P)
    ensures Known(ids, P)
  {}

  // ----- counting occurrences document by document -----

  lemma {:induction false} FlagsOfDoc(fold: bool, docs: seq<Document>, P: seq<Byte>, flags: seq<nat>, d: nat, n: nat)
    requires d < |docs| && n <= |docs[d]| + 1 && |flags| == TextLength(docs) + 1
    requires DocStart(docs, d + 1) <= TextLength(docs)
    requires forall p: nat :: p < TextLength(docs) ==> flags[p] == if OccursAtPosition(fold, docs, p, P) then 1 else 0
    ensures Count(flags, 1, DocStart(docs, d) + n)
         == Count(flags, 1, DocStart(docs, d)) + OccurrencesBelow(fold, docs[d], P, n)
  {
    hide OccursAt;
    if n > 0 {
      FlagsOfDoc(fold, docs, P, flags, d, n - 1);
      DocOfUnique(docs, DocStart(docs, d) + n - 1, d);
    }
  }

  lemma {:induction false} FlagsOfDocs(fold: bool, docs: seq<Document>, P: seq<Byte>, flags: seq<nat>, n: nat)
    requires n <= |docs| && |flags| == TextLength(docs) + 1 && DocStart(docs, n) <= TextLength(docs)
    requires forall p: nat :: p < TextLength(docs) ==> flags[p] == if OccursAtPosition(fold, docs, p, P) then 1 else 0
    ensures Count(flags, 1, DocStart(docs, n)) == TotalOccurrences(fold, docs, P, n)
  {
    hide OccursAtPosition;
    if n > 0 {
      FlagsOfDocs(fold, docs, P, flags, n - 1);
      FlagsOfDoc(fold, docs, P, flags, n - 1, |docs[n - 1]| + 1);
    }
  }

  /** Matching positions of a known pattern, counted, are its occurrences in all documents. */
  lemma MatchCount(fold: bool, docs: seq<Document>, ids: seq<int>, sigma: nat, P: seq<Byte>)
    requires Alphabet(fold, docs, ids, sigma) && P != [] && Known(ids, P)
    ensures Count(MatchFlags(Text(ids, docs), Syms(ids, P)), 1, TextLength(docs) + 1)
         == TotalOccurrences(fold, docs, P, |docs|)
  {
    assert |ids| == 256;
    hide OccursAtPosition, Matches, Alphabet, Known, Text;
    var t := Text(ids, docs);
    var flags := MatchFlags(t, Syms(ids, P));
    forall p: nat | p < |t|
      ensures flags[p] == if OccursAtPosition(fold, docs, p, P) then 1 else 0
    {
      PatternMatches(fold, docs, ids, sigma, P, p);
    }
    FlagsOfDocs(fold, docs, P, flags, |docs|);
    NotAtSentinel(fold, docs, P);
  }

  lemma NotAtSentinel(fold: bool, docs: seq<Document>, P: seq<Byte>)
    ensures !OccursAtPosition(fold, docs, TextLength(docs), P)
  {}

  /** A pattern with an unknown byte occurs nowhere. */
  lemma {:induction false} UnknownCount(fold: bool, docs: seq<Document>, ids: seq<int>, sigma: nat, P: seq<Byte>,
                                        n: nat)
    requires Alphabet(fold, docs, ids, sigma) && !Known(ids, P) && n <= |docs|
    ensures TotalOccurrences(fold, docs, P, n) == 0
  {
    if n > 0 {
      UnknownCount(fold, docs, ids, sigma, P, n - 1);
      UnknownInDoc(fold, docs, ids, sigma, P, n - 1, |docs[n - 1]| + 1);
    }
  }

  lemma {:induction false} UnknownInDoc(fold: bool, docs: seq<Document>, ids: seq<int>, sigma: nat, P: seq<Byte>,
                                        d: nat, n: nat)
    requires Alphabet(fold, docs, ids, sigma) && !Known(ids, P) && d < |docs|
    ensures OccurrencesBelow(fold, docs[d], P, n) == 0
  {
    hide OccursAt;
    if n > 0 {
      UnknownInDoc(fold, docs, ids, sigma, P, d, n - 1);
      if OccursAt(fold, docs[d], n - 1, P) {
        OccurrenceKnown(fold, docs, ids, sigma, P, d, n - 1);
      }
    }
  }
}
