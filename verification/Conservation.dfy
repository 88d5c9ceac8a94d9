/** Every occurrence of a pattern is either followed by exactly one byte or ends its document. */
module Conservation {
  import opened Corpus
  import opened QueryTheory

  /** All occurrences of a pattern. */
  ghost function Occ(fold: bool, docs: seq<Document>, P: seq<Byte>): nat {
    TotalOccurrences(fold, docs, P, |docs|)
  }

  /** Occurrences of P followed by b. */
  ghost function Then(fold: bool, docs: seq<Document>, P: seq<Byte>, b: Byte): nat {
    Occ(fold, docs, P + [b])
  }

  // ----- occurrences by the byte that follows -----

  /** Occurrences of P below offset n that are followed, in the document, by a folded byte below top. */
  ghost function FollowedBelow(fold: bool, doc: Document, P: seq<Byte>, n: nat, top: nat): nat {
    if n == 0 then 0
    else FollowedBelow(fold, doc, P, n - 1, top) + if FollowedAt(fold, doc, P, n - 1, top) then 1 else 0
  }

  ghost predicate FollowedAt(fold: bool, doc: Document, P: seq<Byte>, o: nat, top: nat) {
    OccursAt(fold, doc, o, P) && o + |P| < |doc| && Fold(fold, doc[o + |P|]) < top
  }

  ghost function Followed(fold: bool, docs: seq<Document>, P: seq<Byte>, n: nat, top: nat): nat
    requires n <= |docs|
  {
    if n == 0 then 0
    else Followed(fold, docs, P, n - 1, top) + FollowedBelow(fold, docs[n - 1], P, |docs[n - 1]| + 1, top)
  }

  /** One byte more: P followed by b occurs where P occurs and the next byte folds to b. */
  lemma OccursThen(fold: bool, doc: Document, o: nat, P: seq<Byte>, b: Byte)
    ensures OccursAt(fold, doc, o, P + [b])
       <==> OccursAt(fold, doc, o, P) && o + |P| < |doc| && Fold(fold, doc[o + |P|]) == Fold(fold, b)
  {
    if o + |P| < |doc| {
      assert doc[o..o + |P| + 1] == doc[o..o + |P|] + [doc[o + |P|]];
      var A, B := FoldAll(fold, doc[o..o + |P| + 1]), FoldAll(fold, P + [b]);
      assert A == FoldAll(fold, doc[o..o + |P|]) + [Fold(fold, doc[o + |P|])];
      assert B == FoldAll(fold, P) + [Fold(fold, b)];
      assert A[..|P|] == FoldAll(fold, doc[o..o + |P|]) && B[..|P|] == FoldAll(fold, P);
    }
  }

  /** Raising the bound past a byte adds the occurrences followed by it, once, if it is its own folding. */
  lemma {:induction false} FollowedStep(fold: bool, doc: Document, P: seq<Byte>, n: nat, b: Byte)
    ensures FollowedBelow(fold, doc, P, n, b + 1)
         == FollowedBelow(fold, doc, P, n, b) + if Fold(fold, b) == b then OccurrencesBelow(fold, doc, P + [b], n) else 0
  {
    hide OccursAt;
    if n > 0 {
      FollowedStep(fold, doc, P, n - 1, b);
      OccursThen(fold, doc, n - 1, P, b);
    }
  }

  lemma {:induction false} FollowedStepAll(fold: bool, docs: seq<Document>, P: seq<Byte>, n: nat, b: Byte)
    requires n <= |docs|
    ensures Followed(fold, docs, P, n, b + 1)
         == Followed(fold, docs, P, n, b) + if Fold(fold, b) == b then TotalOccurrences(fold, docs, P + [b], n) else 0
  {
    if n > 0 {
      FollowedStepAll(fold, docs, P, n - 1, b);
      FollowedStep(fold, docs[n - 1], P, |docs[n - 1]| + 1, b);
    }
  }

  lemma {:induction false} FollowedByNothing(fold: bool, doc: Document, P: seq<Byte>, n: nat)
    ensures FollowedBelow(fold, doc, P, n, 0) == 0
  {
    if n > 0 {
      FollowedByNothing(fold, doc, P, n - 1);
    }
  }

  lemma {:induction false} FollowedByNone(fold: bool, docs: seq<Document>, P: seq<Byte>, n: nat)
    requires n <= |docs|
    ensures Followed(fold, docs, P, n, 0) == 0
  {
    if n > 0 {
      FollowedByNone(fold, docs, P, n - 1);
      FollowedByNothing(fold, docs[n - 1], P, |docs[n - 1]| + 1);
    }
  }

  /** Below any bound, an occurrence is followed by some byte or ends the document. */
  lemma {:induction false} FollowedOrEnds(fold: bool, doc: Document, P: seq<Byte>, n: nat)
    ensures OccurrencesBelow(fold, doc, P, n) == FollowedBelow(fold, doc, P, n, 256)
         + if EndsWith(fold, doc, P) && |doc| - |P| < n then 1 else 0
  {
    if n > 0 {
      FollowedOrEnds(fold, doc, P, n - 1);
    }
  }

  lemma {:induction false} FollowedOrEndsAll(fold: bool, docs: seq<Document>, P: seq<Byte>, n: nat)
    requires n <= |docs|
    ensures TotalOccurrences(fold, docs, P, n)
         == Followed(fold, docs, P, n, 256) + CountDocs(EndsDoc(fold, docs, P), n)
  {
    hide OccursAt;
    if n > 0 {
      FollowedOrEndsAll(fold, docs, P, n - 1);
      FollowedOrEnds(fold, docs[n - 1], P, |docs[n - 1]| + 1);
    }
  }

  // ----- summing over the bytes that can follow -----

  /** Occurrences of P followed by b, summed over the bytes b below n. */
  ghost function NextSum(fold: bool, docs: seq<Document>, P: seq<Byte>, n: nat): nat
    requires n <= 256
  {
    if n == 0 then 0 else NextSum(fold, docs, P, n - 1) + Then(fold, docs, P, n - 1)
  }

  /** The part of that sum due to bytes that fold to another byte: each repeats its small letter's count. */
  ghost function RepeatedSum(fold: bool, docs: seq<Document>, P: seq<Byte>, n: nat): nat
    requires n <= 256
  {
    if n == 0 then 0
    else RepeatedSum(fold, docs, P, n - 1) + if Fold(fold, n - 1) == n - 1 then 0 else Then(fold, docs, P, n - 1)
  }

  lemma {:induction false} NextSumFollowed(fold: bool, docs: seq<Document>, P: seq<Byte>, n: nat)
    requires n <= 256
    ensures NextSum(fold, docs, P, n) == Followed(fold, docs, P, |docs|, n) + RepeatedSum(fold, docs, P, n)
  {
    hide TotalOccurrences, Followed;
    if n > 0 {
      NextSumFollowed(fold, docs, P, n - 1);
      FollowedStepAll(fold, docs, P, |docs|, n - 1);
    } else {
      FollowedByNone(fold, docs, P, |docs|);
    }
  }

  /** The balance: continuations plus document ends exceed the occurrences by the repeated continuations. */
  lemma Balance(fold: bool, docs: seq<Document>, P: seq<Byte>)
    ensures NextSum(fold, docs, P, 256) + CountDocs(EndsDoc(fold, docs, P), |docs|)
         == Occ(fold, docs, P) + RepeatedSum(fold, docs, P, 256)
  {
    hide Followed, TotalOccurrences;
    NextSumFollowed(fold, docs, P, 256);
    FollowedOrEndsAll(fold, docs, P, |docs|);
  }

  lemma {:induction false} RepeatedNothing(fold: bool, docs: seq<Document>, P: seq<Byte>, n: nat)
    requires n <= 256
    ensures RepeatedSum(fold, docs, P, n) == 0
       <==> forall b: Byte :: b < n && Fold(fold, b) != b ==> Then(fold, docs, P, b) == 0
  {
    hide Occ, Then;
    if n > 0 {
      RepeatedNothing(fold, docs, P, n - 1);
    }
  }

  /** Conservation holds exactly when no capital letter is counted as a continuation; on a case-sensitive
      index it always does. */
  lemma ConservationExact(fold: bool, docs: seq<Document>, P: seq<Byte>)
    ensures Occ(fold, docs, P) == NextSum(fold, docs, P, 256) + CountDocs(EndsDoc(fold, docs, P), |docs|)
       <==> !fold || forall b: Byte :: 65 <= b <= 90 ==> Then(fold, docs, P, b) == 0
  {
    hide Occ, Then;
    Balance(fold, docs, P);
    RepeatedNothing(fold, docs, P, 256);
  }

  /** A folded corpus where it fails: the y after an x is counted once as Y and once as y. */
  lemma ConservationFailsFolded()
    ensures var docs := [[120, 121]];
            && Occ(true, docs, [120]) == 1
            && Then(true, docs, [120], 89) == 1
            && NextSum(true, docs, [120], 256) + CountDocs(EndsDoc(true, docs, [120]), 1) != 1
  {
    var doc: Document := [120, 121];
    var docs := [doc];
    OneAt(doc, [120], 0);
    OneAt(doc, [120] + [89], 0);
    assert Then(true, docs, [120], 89) == 1;
    ConservationExact(true, docs, [120]);
  }

  lemma OneAt(doc: Document, P: seq<Byte>, o: nat)
    requires doc == [120, 121] && o == 0
    requires P == [120] || P == [120, 89]
    ensures TotalOccurrences(true, [doc], P, 1) == 1
  {
    assert doc[0..1] == [120] && doc[1..2] == [121] && doc[0..2] == doc;
    assert FoldAll(true, doc[0..1]) == [120] && FoldAll(true, doc[1..2]) == [121];
    assert FoldAll(true, doc) == [120, 121] && FoldAll(true, P) == if |P| == 1 then [120] else [120, 121];
    assert OccursAt(true, doc, 0, P);
    assert FoldAll(true, doc[1..2])[0] == 121 && FoldAll(true, P)[0] == 120;
    assert !OccursAt(true, doc, 1, P) && !OccursAt(true, doc, 2, P);
    assert OccurrencesBelow(true, doc, P, 1) == 1;
    assert OccurrencesBelow(true, doc, P, 2) == 1;
    assert OccurrencesBelow(true, doc, P, 3) == 1;
    assert TotalOccurrences(true, [doc], P, 0) == 0;
  }
}
