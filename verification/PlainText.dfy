/** What the queries' specifications say, byte by byte and without folding: two bytes agree if they are equal or, on
    a case-insensitive index, the two cases of one letter; an occurrence is a place where the pattern reads. */
module PlainText {
  import opened Counting
  import opened Corpus
  import opened QueryTheory

  // ----- letters -----

  /** Equal bytes, or a capital letter and the small letter 32 above it. */
  predicate SameLetter(fold: bool, x: Byte, y: Byte) {
    x == y || (fold && ((65 <= x <= 90 && y == x + 32) || (65 <= y <= 90 && x == y + 32)))
  }

  /** Folding identifies exactly the two cases of a letter, and chooses the small one. */
  lemma FoldMeans(fold: bool, x: Byte, y: Byte)
    ensures Fold(fold, x) == Fold(fold, y) <==> SameLetter(fold, x, y)
    ensures SameLetter(fold, x, Fold(fold, x)) && !(fold && 65 <= Fold(fold, x) <= 90)
    ensures Fold(false, x) == x
  {}

  /** P reads at offset o of doc. */
  predicate Reads(fold: bool, doc: Document, o: nat, P: seq<Byte>) {
    o + |P| <= |doc| && forall i :: 0 <= i < |P| ==> SameLetter(fold, doc[o + i], P[i])
  }

  lemma OccursByteByByte(fold: bool, doc: Document, o: nat, P: seq<Byte>)
    ensures OccursAt(fold, doc, o, P) <==> Reads(fold, doc, o, P)
  {
    if o + |P| <= |doc| {
      var A, B := FoldAll(fold, doc[o..o + |P|]), FoldAll(fold, P);
      forall i | 0 <= i < |P|
        ensures A[i] == B[i] <==> SameLetter(fold, doc[o + i], P[i])
      {
        FoldMeans(fold, doc[o + i], P[i]);
      }
      assert A == B <==> forall i :: 0 <= i < |P| ==> A[i] == B[i];
    }
  }

  /** The small letter for a capital on a case-insensitive index, any other byte itself. */
  function SmallLetter(fold: bool, x: Byte): Byte {
    if fold && 65 <= x <= 90 then x + 32 else x
  }

  /** The bytes of doc from offset on, len of them or as many as there are, letters in small. */
  predicate ReadsOut(fold: bool, doc: Document, offset: nat, len: nat, r: seq<Byte>) {
    && |r| == (if offset >= |doc| then 0 else if len <= |doc| - offset then len else |doc| - offset)
    && forall x :: 0 <= x < |r| ==> r[x] == SmallLetter(fold, doc[offset + x])
  }

  // ----- counting the places -----

  /** The offsets below n where P reads. */
  ghost function OffsetsBelow(fold: bool, doc: Document, P: seq<Byte>, n: nat): set<nat> {
    set o: nat | o < n && Reads(fold, doc, o, P)
  }

  /** All offsets of doc where P reads. */
  ghost function Offsets(fold: bool, doc: Document, P: seq<Byte>): set<nat> {
    set o: nat | o <= |doc| && Reads(fold, doc, o, P)
  }

  /** All places, document and offset, where P reads. */
  ghost function Spots(fold: bool, docs: seq<Document>, P: seq<Byte>): set<(nat, nat)> {
    set d: nat, o: nat | d < |docs| && o <= |docs[d]| && Reads(fold, docs[d], o, P) :: (d, o)
  }

  lemma {:induction false} OffsetsCounted(fold: bool, doc: Document, P: seq<Byte>, n: nat)
    ensures OccurrencesBelow(fold, doc, P, n) == |OffsetsBelow(fold, doc, P, n)|
  {
    hide OccursAt, Reads;
    if n > 0 {
      OffsetsCounted(fold, doc, P, n - 1);
      OccursByteByByte(fold, doc, n - 1, P);
      var rest := OffsetsBelow(fold, doc, P, n - 1);
      assert OffsetsBelow(fold, doc, P, n) == if Reads(fold, doc, n - 1, P) then rest + {n - 1} else rest;
    }
  }

  lemma OccurrencesAreOffsets(fold: bool, doc: Document, P: seq<Byte>)
    ensures Occurrences(fold, doc, P) == |Offsets(fold, doc, P)|
  {
    hide Reads;
    OffsetsCounted(fold, doc, P, |doc| + 1);
    assert OffsetsBelow(fold, doc, P, |doc| + 1) == Offsets(fold, doc, P);
  }

  /** The places in the first n documents. */
  ghost function SpotsBelow(fold: bool, docs: seq<Document>, P: seq<Byte>, n: nat): set<(nat, nat)>
    requires n <= |docs|
  {
    set d: nat, o: nat | d < n && o <= |docs[d]| && Reads(fold, docs[d], o, P) :: (d, o)
  }

  /** Offsets paired with their document. */
  ghost function InDocument(d: nat, offsets: set<nat>): set<(nat, nat)> {
    set o | o in offsets :: (d, o)
  }

  lemma {:induction false} PairedSize(d: nat, offsets: set<nat>)
    ensures |InDocument(d, offsets)| == |offsets|
    decreases offsets
  {
    if offsets != {} {
      var o :| o in offsets;
      PairedSize(d, offsets - {o});
      assert InDocument(d, offsets) == InDocument(d, offsets - {o}) + {(d, o)};
    }
  }

  lemma {:induction false} SpotsCounted(fold: bool, docs: seq<Document>, P: seq<Byte>, n: nat)
    requires n <= |docs|
    ensures TotalOccurrences(fold, docs, P, n) == |SpotsBelow(fold, docs, P, n)|
  {
    hide Occurrences, Reads, Offsets, InDocument;
    if n > 0 {
      SpotsCounted(fold, docs, P, n - 1);
      OccurrencesAreOffsets(fold, docs[n - 1], P);
      PairedSize(n - 1, Offsets(fold, docs[n - 1], P));
      OneMoreDocument(fold, docs, P, n - 1);
    }
  }

  lemma OneMoreDocument(fold: bool, docs: seq<Document>, P: seq<Byte>, d: nat)
    requires d < |docs|
    ensures var last := InDocument(d, Offsets(fold, docs[d], P));
            && SpotsBelow(fold, docs, P, d + 1) == SpotsBelow(fold, docs, P, d) + last
            && SpotsBelow(fold, docs, P, d) !! last
  {
    hide Reads;
  }

  /** The number of occurrences is the number of places where the pattern reads. */
  lemma OccurrencesAreSpots(fold: bool, docs: seq<Document>, P: seq<Byte>)
    ensures TotalOccurrences(fold, docs, P, |docs|) == |Spots(fold, docs, P)|
  {
    hide Reads;
    SpotsCounted(fold, docs, P, |docs|);
    assert SpotsBelow(fold, docs, P, |docs|) == Spots(fold, docs, P);
  }

  // ----- lists of places and of documents -----

  /** r lists exactly the places where P reads, by document and then by offset. */
  ghost predicate ListsSpots(fold: bool, docs: seq<Document>, P: seq<Byte>, r: seq<(nat, nat)>) {
    && (forall i, j :: 0 <= i < j < |r| ==> r[i].0 < r[j].0 || (r[i].0 == r[j].0 && r[i].1 < r[j].1))
    && (forall d: nat, o: nat :: (d, o) in r <==> d < |docs| && Reads(fold, docs[d], o, P))
  }

  lemma LocatedMeans(fold: bool, docs: seq<Document>, P: seq<Byte>, r: seq<(nat, nat)>)
    requires Located(fold, docs, P, r)
    ensures ListsSpots(fold, docs, P, r) && |r| == |Spots(fold, docs, P)|
  {
    hide OccursAt, Reads, TotalOccurrences;
    OccurrencesAreSpots(fold, docs, P);
    forall d: nat, o: nat
      ensures (d, o) in r <==> d < |docs| && Reads(fold, docs[d], o, P)
    {
      if d < |docs| {
        OccursByteByByte(fold, docs[d], o, P);
      }
      if (d, o) in r {
        var i :| 0 <= i < |r| && r[i] == (d, o);
      }
    }
  }

  /** r lists exactly the members of a set, in ascending order. */
  ghost predicate Lists(r: seq<nat>, members: set<nat>) {
    && (forall i, j :: 0 <= i < j < |r| ==> r[i] < r[j])
    && (forall d: nat :: d in r <==> d in members)
  }

  /** The documents in which P reads somewhere, at the start, at the end. */
  ghost function Containing(fold: bool, docs: seq<Document>, P: seq<Byte>): set<nat> {
    set d: nat | d < |docs| && exists o: nat :: Reads(fold, docs[d], o, P)
  }

  ghost function Beginning(fold: bool, docs: seq<Document>, P: seq<Byte>): set<nat> {
    set d: nat | d < |docs| && Reads(fold, docs[d], 0, P)
  }

  ghost function Ending(fold: bool, docs: seq<Document>, P: seq<Byte>): set<nat> {
    set d: nat | d < |docs| && |P| <= |docs[d]| && Reads(fold, docs[d], |docs[d]| - |P|, P)
  }

  lemma DocListMeans(docs: seq<Document>, has: nat -> bool, r: seq<nat>, members: set<nat>)
    requires DocList(docs, has, r) && forall d: nat :: d in members <==> d < |docs| && has(d)
    ensures Lists(r, members)
  {
    forall d: nat
      ensures d in r <==> d in members
    {
      if d in r {
        var i :| 0 <= i < |r| && r[i] == d;
      }
    }
  }

  lemma {:induction false} DocsCounted(has: nat -> bool, n: nat)
    ensures CountDocs(has, n) == |set d: nat | d < n && has(d)|
  {
    if n > 0 {
      DocsCounted(has, n - 1);
      var rest := set d: nat | d < n - 1 && has(d);
      assert (set d: nat | d < n && has(d)) == if has(n - 1) then rest + {n - 1} else rest;
    }
  }

  lemma CountMeans(docs: seq<Document>, has: nat -> bool, members: set<nat>)
    requires forall d: nat :: d in members <==> d < |docs| && has(d)
    ensures CountDocs(has, |docs|) == |members|
  {
    DocsCounted(has, |docs|);
    assert (set d: nat | d < |docs| && has(d)) == members;
  }

  lemma BeginningMeans(fold: bool, docs: seq<Document>, P: seq<Byte>)
    ensures forall d: nat :: d in Beginning(fold, docs, P) <==> d < |docs| && BeginsDoc(fold, docs, P)(d)
    ensures CountDocs(BeginsDoc(fold, docs, P), |docs|) == |Beginning(fold, docs, P)|
  {
    hide OccursAt, Reads;
    forall d: nat | d < |docs|
      ensures BeginsDoc(fold, docs, P)(d) <==> Reads(fold, docs[d], 0, P)
    {
      OccursByteByByte(fold, docs[d], 0, P);
    }
    CountMeans(docs, BeginsDoc(fold, docs, P), Beginning(fold, docs, P));
  }

  lemma BeginningListed(fold: bool, docs: seq<Document>, P: seq<Byte>)
    ensures forall r :: DocList(docs, BeginsDoc(fold, docs, P), r) ==> Lists(r, Beginning(fold, docs, P))
  {
    hide DocList, Lists, Beginning;
    BeginningMeans(fold, docs, P);
    forall r | DocList(docs, BeginsDoc(fold, docs, P), r)
      ensures Lists(r, Beginning(fold, docs, P))
    {
      DocListMeans(docs, BeginsDoc(fold, docs, P), r, Beginning(fold, docs, P));
    }
  }

  lemma EndingMeans(fold: bool, docs: seq<Document>, P: seq<Byte>)
    ensures forall d: nat :: d in Ending(fold, docs, P) <==> d < |docs| && EndsDoc(fold, docs, P)(d)
    ensures CountDocs(EndsDoc(fold, docs, P), |docs|) == |Ending(fold, docs, P)|
  {
    hide OccursAt, Reads;
    forall d: nat | d < |docs|
      ensures EndsDoc(fold, docs, P)(d) <==> |P| <= |docs[d]| && Reads(fold, docs[d], |docs[d]| - |P|, P)
    {
      if |P| <= |docs[d]| {
        OccursByteByByte(fold, docs[d], |docs[d]| - |P|, P);
      }
    }
    CountMeans(docs, EndsDoc(fold, docs, P), Ending(fold, docs, P));
  }

  lemma EndingListed(fold: bool, docs: seq<Document>, P: seq<Byte>)
    ensures forall r :: DocList(docs, EndsDoc(fold, docs, P), r) ==> Lists(r, Ending(fold, docs, P))
  {
    hide DocList, Lists, Ending;
    EndingMeans(fold, docs, P);
    forall r | DocList(docs, EndsDoc(fold, docs, P), r)
      ensures Lists(r, Ending(fold, docs, P))
    {
      DocListMeans(docs, EndsDoc(fold, docs, P), r, Ending(fold, docs, P));
    }
  }

  lemma ContainingMeans(fold: bool, docs: seq<Document>, P: seq<Byte>)
    ensures forall d: nat :: d in Containing(fold, docs, P) <==> d < |docs| && ContainsDoc(fold, docs, P)(d)
  {
    hide OccursAt, Reads;
    forall d: nat, o: nat | d < |docs|
      ensures OccursAt(fold, docs[d], o, P) <==> Reads(fold, docs[d], o, P)
    {
      OccursByteByByte(fold, docs[d], o, P);
    }
  }
}
