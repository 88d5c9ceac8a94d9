/** What the index is about: documents, case folding, occurrences inside documents, and the
    separator-delimited symbol text the documents are laid out in. */
module Corpus {
  import opened Counting
  import opened SuffixArrays

  type Byte = b: int | 0 <= b < 256
  type Document = seq<Byte>

  const SEPARATOR: nat := 1

  /** ASCII A-Z to a-z when folding is on. */
  function Fold(fold: bool, b: Byte): Byte {
    if fold && 65 <= b <= 90 then b + 32 else b
  }

  function FoldAll(fold: bool, s: seq<Byte>): (r: seq<Byte>)
    ensures |r| == |s|
    ensures forall i :: 0 <= i < |s| ==> r[i] == Fold(fold, s[i])
  {
    seq(|s|, i requires 0 <= i < |s| => Fold(fold, s[i]))
  }

  // ----- what queries mean -----

  /** P occurs in doc at offset o. */
  ghost predicate OccursAt(fold: bool, doc: Document, o: nat, P: seq<Byte>) {
    o + |P| <= |doc| && FoldAll(fold, doc[o..o + |P|]) == FoldAll(fold, P)
  }

  ghost predicate BeginsWith(fold: bool, doc: Document, P: seq<Byte>) {
    OccursAt(fold, doc, 0, P)
  }

  ghost predicate EndsWith(fold: bool, doc: Document, P: seq<Byte>) {
    |P| <= |doc| && OccursAt(fold, doc, |doc| - |P|, P)
  }

  ghost predicate Contains(fold: bool, doc: Document, P: seq<Byte>) {
    exists o: nat :: OccursAt(fold, doc, o, P)
  }

  /** Occurrences of P in doc at offsets below n. */
  ghost function OccurrencesBelow(fold: bool, doc: Document, P: seq<Byte>, n: nat): nat {
    if n == 0 then 0
    else OccurrencesBelow(fold, doc, P, n - 1) + (if OccursAt(fold, doc, n - 1, P) then 1 else 0)
  }

  ghost function Occurrences(fold: bool, doc: Document, P: seq<Byte>): nat {
    OccurrencesBelow(fold, doc, P, |doc| + 1)
  }

  /** Occurrences of P inside the first n documents. */
  ghost function TotalOccurrences(fold: bool, docs: seq<Document>, P: seq<Byte>, n: nat): nat
    requires n <= |docs|
  {
    if n == 0 then 0
    else TotalOccurrences(fold, docs, P, n - 1) + Occurrences(fold, docs[n - 1], P)
  }

  // ----- the dense alphabet -----

  /** present[b] is 1 exactly when the folded byte b occurs somewhere. */
  ghost predicate PresentBytes(fold: bool, docs: seq<Document>, present: seq<nat>) {
    && |present| == 256
    && (forall b :: 0 <= b < 256 ==> present[b] <= 1)
    && (forall d, o :: 0 <= d < |docs| && 0 <= o < |docs[d]| ==> present[Fold(fold, docs[d][o])] == 1)
    && (forall b :: 0 <= b < 256 && present[b] == 1 ==> ByteOccurs(fold, docs, b))
  }

  ghost predicate ByteOccurs(fold: bool, docs: seq<Document>, b: int) {
    exists d, o :: 0 <= d < |docs| && 0 <= o < |docs[d]| && Fold(fold, docs[d][o]) == b
  }

  /** Ids 2, 3, ... in byte order for the bytes that occur, -1 for the others. */
  function DenseId(present: seq<nat>, b: nat): int
    requires b < |present|
  {
    if present[b] == 1 then 2 + Count(present, 1, b) else -1
  }

  /** The byte-to-id table and alphabet size of a corpus. */
  ghost predicate Alphabet(fold: bool, docs: seq<Document>, ids: seq<int>, sigma: nat) {
    exists present :: AlphabetOf(fold, docs, ids, sigma, present)
  }

  ghost predicate AlphabetOf(fold: bool, docs: seq<Document>, ids: seq<int>, sigma: nat, present: seq<nat>) {
    && PresentBytes(fold, docs, present)
    && |ids| == 256 && sigma == 2 + Count(present, 1, 256)
    && forall b :: 0 <= b < 256 ==> ids[b] == DenseId(present, Fold(fold, b))
  }

  lemma IdRange(fold: bool, docs: seq<Document>, ids: seq<int>, sigma: nat, b: Byte)
    requires Alphabet(fold, docs, ids, sigma)
    ensures ids[b] == -1 || 2 <= ids[b] < sigma
    ensures 2 <= sigma <= 258
    ensures ids[b] == ids[Fold(fold, b)]
    ensures ids[b] == -1 <==> !ByteOccurs(fold, docs, Fold(fold, b))
  {
    var present :| AlphabetOf(fold, docs, ids, sigma, present);
    var f := Fold(fold, b);
    assert Fold(fold, f) == f;
    assert ids[f] == DenseId(present, Fold(fold, f));
    CountMonotone(present, 1, f, 256);
  }

  /** Ids identify folded bytes, and order them as the bytes are ordered. */
  lemma IdsFaithful(fold: bool, docs: seq<Document>, ids: seq<int>, sigma: nat, a: Byte, b: Byte)
    requires Alphabet(fold, docs, ids, sigma) && ids[a] != -1 && ids[b] != -1
    ensures ids[a] == ids[b] <==> Fold(fold, a) == Fold(fold, b)
    ensures ids[a] < ids[b] <==> Fold(fold, a) < Fold(fold, b)
  {
    var present :| AlphabetOf(fold, docs, ids, sigma, present);
    var x, y := Fold(fold, a), Fold(fold, b);
    assert ids[a] == DenseId(present, x) && ids[b] == DenseId(present, y);
    if x < y {
      CountMonotone(present, 1, x, y);
    } else if y < x {
      CountMonotone(present, 1, y, x);
    }
  }

  /** The symbol written into the text for a byte. */
  function Sym(ids: seq<int>, b: Byte): nat
    requires |ids| == 256
  {
    if ids[b] < 0 then 0 else ids[b]
  }

  function Syms(ids: seq<int>, s: seq<Byte>): (r: seq<nat>)
    requires |ids| == 256
    ensures |r| == |s|
    ensures forall i :: 0 <= i < |s| ==> r[i] == Sym(ids, s[i])
  {
    seq(|s|, i requires 0 <= i < |s| => Sym(ids, s[i]))
  }

  /** Every byte of s has an id. */
  predicate Known(ids: seq<int>, s: seq<Byte>)
    requires |ids| == 256
  {
    forall i :: 0 <= i < |s| ==> ids[s[i]] != -1
  }

  lemma CorpusKnown(fold: bool, docs: seq<Document>, ids: seq<int>, sigma: nat, d: nat)
    requires Alphabet(fold, docs, ids, sigma) && d < |docs|
    ensures Known(ids, docs[d])
    ensures forall o :: 0 <= o < |docs[d]| ==> 2 <= Sym(ids, docs[d][o]) < sigma
  {
    forall o | 0 <= o < |docs[d]|
      ensures ids[docs[d][o]] != -1 && 2 <= Sym(ids, docs[d][o]) < sigma
    {
      IdRange(fold, docs, ids, sigma, docs[d][o]);
    }
  }

  /** Equal symbols mean equal folded bytes. */
  lemma SymsFaithful(fold: bool, docs: seq<Document>, ids: seq<int>, sigma: nat, s: seq<Byte>, P: seq<Byte>)
    requires Alphabet(fold, docs, ids, sigma) && Known(ids, s) && Known(ids, P) && |s| == |P|
    ensures Syms(ids, s) == Syms(ids, P) <==> FoldAll(fold, s) == FoldAll(fold, P)
  {
    forall i | 0 <= i < |s|
      ensures Syms(ids, s)[i] == Syms(ids, P)[i] <==> FoldAll(fold, s)[i] == FoldAll(fold, P)[i]
    {
      IdsFaithful(fold, docs, ids, sigma, s[i], P[i]);
      IdRange(fold, docs, ids, sigma, s[i]);
      IdRange(fold, docs, ids, sigma, P[i]);
    }
    if Syms(ids, s) == Syms(ids, P) {
      assert forall i :: 0 <= i < |s| ==> FoldAll(fold, s)[i] == FoldAll(fold, P)[i];
    }
    if FoldAll(fold, s) == FoldAll(fold, P) {
      assert forall i :: 0 <= i < |s| ==> Syms(ids, s)[i] == Syms(ids, P)[i];
    }
  }

  // ----- the text -----

  /** Where document d starts: each document takes its length and one separator. */
  function DocStart(docs: seq<Document>, d: nat): nat
    requires d <= |docs|
  {
    if d == 0 then 0 else DocStart(docs, d - 1) + |docs[d - 1]| + 1
  }

  function TextLength(docs: seq<Document>): nat {
    DocStart(docs, |docs|)
  }

  lemma {:induction false} DocStartMonotone(docs: seq<Document>, d: nat, e: nat)
    requires d <= e <= |docs|
    ensures DocStart(docs, d) + (e - d) <= DocStart(docs, e)
    ensures d < e ==> DocStart(docs, d) + |docs[d]| + 1 <= DocStart(docs, e)
  {
    if d < e {
      DocStartMonotone(docs, d, e - 1);
    }
  }

  /** The symbols of the first n documents, a separator after each. */
  function Body(ids: seq<int>, docs: seq<Document>, n: nat): (t: seq<nat>)
    requires |ids| == 256 && n <= |docs|
    ensures |t| == DocStart(docs, n)
  {
    if n == 0 then [] else Body(ids, docs, n - 1) + Syms(ids, docs[n - 1]) + [SEPARATOR]
  }

  function Text(ids: seq<int>, docs: seq<Document>): (t: seq<nat>)
    requires |ids| == 256
    ensures |t| == TextLength(docs) + 1
  {
    Body(ids, docs, |docs|) + [0]
  }

  lemma {:induction false} BodyPrefix(ids: seq<int>, docs: seq<Document>, d: nat, n: nat)
    requires |ids| == 256 && d <= n <= |docs|
    ensures DocStart(docs, d) <= DocStart(docs, n)
    ensures Body(ids, docs, n)[..DocStart(docs, d)] == Body(ids, docs, d)
  {
    if d < n {
      BodyPrefix(ids, docs, d, n - 1);
    }
  }

  /** Document d's stretch of the text. */
  lemma TextAtDoc(ids: seq<int>, docs: seq<Document>, d: nat)
    requires |ids| == 256 && d < |docs|
    ensures DocStart(docs, d + 1) == DocStart(docs, d) + |docs[d]| + 1 <= TextLength(docs)
    ensures var a := DocStart(docs, d);
            Text(ids, docs)[a..a + |docs[d]| + 1] == Syms(ids, docs[d]) + [SEPARATOR]
  {
    BodyPrefix(ids, docs, d + 1, |docs|);
    var a := DocStart(docs, d);
    var t := Text(ids, docs);
    assert t[..DocStart(docs, d + 1)] == Body(ids, docs, d + 1);
    assert t[a..a + |docs[d]| + 1] == t[..DocStart(docs, d + 1)][a..];
  }

  /** The document whose stretch of the text holds position p. */
  ghost function DocOf(docs: seq<Document>, p: nat): (d: nat)
    requires p < TextLength(docs)
    ensures d < |docs| && DocStart(docs, d) <= p < DocStart(docs, d + 1)
  {
    DocOfBelow(docs, p, |docs|)
  }

  ghost function DocOfBelow(docs: seq<Document>, p: nat, n: nat): (d: nat)
    requires n <= |docs| && p < DocStart(docs, n)
    ensures d < n && DocStart(docs, d) <= p < DocStart(docs, d + 1)
  {
    if DocStart(docs, n - 1) <= p then n - 1 else DocOfBelow(docs, p, n - 1)
  }

  lemma DocOfUnique(docs: seq<Document>, p: nat, d: nat)
    requires d < |docs| && DocStart(docs, d) <= p < DocStart(docs, d + 1)
    ensures p < TextLength(docs) && DocOf(docs, p) == d
  {
    DocStartMonotone(docs, d + 1, |docs|);
    var e := DocOf(docs, p);
    if e < d {
      DocStartMonotone(docs, e + 1, d);
    } else if d < e {
      DocStartMonotone(docs, d + 1, e);
    }
  }

  lemma CorpusIsText(fold: bool, docs: seq<Document>, ids: seq<int>, sigma: nat)
    requires Alphabet(fold, docs, ids, sigma)
    ensures IsText(Text(ids, docs))
    ensures forall p :: 0 <= p < |Text(ids, docs)| ==> Text(ids, docs)[p] < sigma
  {
    var t := Text(ids, docs);
    IdRange(fold, docs, ids, sigma, 0);
    forall p: nat | p < TextLength(docs)
      ensures 1 <= t[p] < sigma
    {
      SymbolAt(ids, docs, p);
      CorpusKnown(fold, docs, ids, sigma, DocOf(docs, p));
    }
  }

  /** The symbol at a position: a content symbol of its document, or that document's separator. */
  lemma SymbolAt(ids: seq<int>, docs: seq<Document>, p: nat)
    requires |ids| == 256 && p < TextLength(docs)
    ensures var d := DocOf(docs, p); var o := p - DocStart(docs, d);
            && o <= |docs[d]|
            && Text(ids, docs)[p] == if o < |docs[d]| then Sym(ids, docs[d][o]) else SEPARATOR
  {
    var d := DocOf(docs, p);
    var a := DocStart(docs, d);
    TextAtDoc(ids, docs, d);
    assert Text(ids, docs)[p] == Text(ids, docs)[a..a + |docs[d]| + 1][p - a];
  }
}
