/** Extracting after a build, and after a second build of the same object. */
module Rebuilds {
  import opened Counting
  import opened Sorting
  import opened SuffixArrays
  import opened Corpus
  import opened QueryTheory
  import opened PlainText
  import opened Construction
  import opened FMIndexes
  import opened Extraction

  /** Build, then extract, with any options and any request. If the index was never extracted from before
      the build, the answer is right; otherwise it is right exactly when the old table happens to spell it. */
  method BuildThenExtract(fm: FMIndex, docs: seq<Document>, rate: nat, fold: bool, forceWide: bool, blockBytes: nat,
                          docId: nat, offset: nat, len: nat)
    returns (ok: bool, r: Outcome)
    requires rate < TWO32 && docId < TWO64
    modifies fm
    ensures ok <==> TextLength(docs) < MAX_LENGTH
    ensures ok && docId >= |docs| ==> r == if docId == TWO64 - 1 then OutsideTables else Bytes([])
    ensures ok && docId < |docs| ==>
              && fm.docs == docs && fm.caseFold == fold && fm.saSampleRate > 0 && |fm.byteToId| == 256
              && (r.Bytes? && ReadsOut(fold, docs[docId], offset, len, r.bytes) <==> Spells(fm, docId, offset, len))
              && (old(!fm.isaDone) ==> r.Bytes? && ReadsOut(fold, docs[docId], offset, len, r.bytes))
  {
    hide FMIndex.Valid, DocStart, Spells, Extracted, ReadsOut;
    r := Bytes([]);
    ok := fm.Build(docs, rate, fold, forceWide, blockBytes);
    if ok {
      r := Extract(fm, docId, offset, len);
    }
  }

  // ----- a table left over from another text -----

  /** The text of one document. */
  lemma TextOfOne(ids: seq<int>, doc: Document)
    requires |ids| == 256
    ensures Text(ids, [doc]) == Syms(ids, doc) + [SEPARATOR, 0] && TextLength([doc]) == |doc| + 1
  {
    assert Body(ids, [doc], 0) == [] && DocStart([doc], 0) == 0;
    assert Body(ids, [doc], 1) == Syms(ids, doc) + [SEPARATOR];
  }

  /** Two different letters in ascending order, and in descending order: the only suffix arrays. */
  lemma TwoLetters(a: nat, b: nat, sa: seq<nat>)
    requires 2 <= a < b
    ensures IsSuffixArray([a, b, 1, 0], sa) ==> sa == [3, 2, 0, 1]
    ensures IsSuffixArray([b, a, 1, 0], sa) ==> sa == [3, 2, 1, 0]
  {
    var up, down: seq<nat> := [a, b, 1, 0], [b, a, 1, 0];
    assert SuffixLess(up, 3, 2) && SuffixLess(up, 2, 0) && SuffixLess(up, 0, 1);
    assert SuffixLess(up, 3, 0) && SuffixLess(up, 3, 1) && SuffixLess(up, 2, 1);
    assert IsSuffixArray(up, [3, 2, 0, 1]);
    assert SuffixLess(down, 3, 2) && SuffixLess(down, 2, 1) && SuffixLess(down, 1, 0);
    assert SuffixLess(down, 3, 1) && SuffixLess(down, 3, 0) && SuffixLess(down, 2, 0);
    assert IsSuffixArray(down, [3, 2, 1, 0]);
    if IsSuffixArray(up, sa) {
      SuffixArrayUnique(up, sa, [3, 2, 0, 1]);
    }
    if IsSuffixArray(down, sa) {
      SuffixArrayUnique(down, sa, [3, 2, 1, 0]);
    }
  }

  const LETTER_A: Byte := 97
  const LETTER_B: Byte := 98

  /** The ids of a and b in a corpus that has both. */
  lemma LetterIds(fm: FMIndex, doc: Document)
    requires fm.Valid() && fm.c != [] && !fm.caseFold && fm.docs == [doc]
    requires doc == [LETTER_A, LETTER_B] || doc == [LETTER_B, LETTER_A]
    ensures |fm.byteToId| == 256 && 2 <= fm.byteToId[LETTER_A] < fm.byteToId[LETTER_B]
  {
    hide RankOk, SamplingOk, Alphabet;
    fm.LayoutSize();
    CorpusKnown(fm.caseFold, fm.docs, fm.byteToId, fm.sigma, 0);
    assert fm.docs[0] == doc && doc[0] in doc && doc[1] in doc;
    IdRange(fm.caseFold, fm.docs, fm.byteToId, fm.sigma, LETTER_A);
    IdRange(fm.caseFold, fm.docs, fm.byteToId, fm.sigma, LETTER_B);
    IdsFaithful(fm.caseFold, fm.docs, fm.byteToId, fm.sigma, LETTER_A, LETTER_B);
  }

  /** The inverse table of "ab" at rate 1. */
  lemma TableOfAb(fm: FMIndex)
    requires fm.Valid() && fm.c != [] && !fm.caseFold && fm.docs == [[LETTER_A, LETTER_B]]
    requires fm.saSampleRate == 1 && fm.isaDone && Fresh(fm)
    ensures fm.isaSample == [2, 3, 1, 0]
  {
    hide RankOk, SamplingOk, Alphabet, Matches;
    LetterIds(fm, [LETTER_A, LETTER_B]);
    fm.LayoutSize();
    var ids := fm.byteToId;
    TextOfOne(ids, [LETTER_A, LETTER_B]);
    assert Syms(ids, [LETTER_A, LETTER_B]) == [ids[LETTER_A], ids[LETTER_B]];
    assert fm.Symbols() == [ids[LETTER_A], ids[LETTER_B], 1, 0];
    TwoLetters(ids[LETTER_A], ids[LETTER_B], fm.sa);
    var isa := fm.isaSample;
    assert |isa| == 4;
    assert fm.sa[isa[0]] == 0 && fm.sa[isa[1]] == 1 && fm.sa[isa[2]] == 2 && fm.sa[isa[3]] == 3;
    assert isa == [isa[0], isa[1], isa[2], isa[3]];
  }

  /** That table on "ba": position 1 is looked up in the row of position 0, before which lies the sentinel. */
  lemma TableOnBa(fm: FMIndex)
    requires fm.Valid() && fm.c != [] && !fm.caseFold && fm.docs == [[LETTER_B, LETTER_A]]
    requires fm.saSampleRate == 1 && fm.isaSample == [2, 3, 1, 0]
    ensures |fm.byteToId| == 256 && Extracted(fm, 0, 0, 1) == Bytes([0])
  {
    hide RankOk, SamplingOk, Alphabet, Matches;
    LetterIds(fm, [LETTER_B, LETTER_A]);
    fm.LayoutSize();
    var ids := fm.byteToId;
    TextOfOne(ids, [LETTER_B, LETTER_A]);
    assert Syms(ids, [LETTER_B, LETTER_A]) == [ids[LETTER_B], ids[LETTER_A]];
    assert fm.Symbols() == [ids[LETTER_B], ids[LETTER_A], 1, 0];
    TwoLetters(ids[LETTER_A], ids[LETTER_B], fm.sa);
    assert DocStart(fm.docs, 0) == 0;
    assert StartFrom(fm.isaSample, fm.textLen, 1, 1) == (3, 1);
    assert ByteBack(fm.Symbols(), fm.idToByte, 0, 1) == 0;
    assert Stretch(fm.Symbols(), fm.idToByte, 0, 1, 1) == [0];
  }

  /** That table on the shorter text of "a": the row consulted does not exist. */
  lemma TableOnA(fm: FMIndex)
    requires fm.Valid() && fm.c != [] && fm.docs == [[LETTER_A]]
    requires fm.saSampleRate == 1 && fm.isaSample == [2, 3, 1, 0]
    ensures |fm.byteToId| == 256 && Extracted(fm, 0, 0, 1) == OutsideTables
  {
    hide RankOk, SamplingOk, Alphabet, Matches;
    fm.LayoutSize();
    TextOfOne(fm.byteToId, [LETTER_A]);
    assert DocStart(fm.docs, 0) == 0;
    assert StartFrom(fm.isaSample, fm.textLen, 1, 1) == (3, 1);
  }

  /** Build "ab" and extract; build "ba" and extract its first byte: a zero byte instead of b. Build "a" and
      extract its first byte: a row past the last one is looked up. */
  method StaleTable() returns (ab: Outcome, ba: Outcome, a: Outcome)
    ensures ab == Bytes([LETTER_A])
    ensures ba == Bytes([0]) && ba != Bytes([LETTER_B])
    ensures a == OutsideTables
  {
    hide FMIndex.Valid, Spells, Extracted, Fresh;
    var fm := new FMIndex();
    SmallTexts();
    var ok := fm.Build([[LETTER_A, LETTER_B]], 1, false, false, 8);
    NotFilled(fm);
    ab := Extract(fm, 0, 0, 1);
    TableOfAb(fm);
    ok := fm.Build([[LETTER_B, LETTER_A]], 1, false, false, 8);
    ba := Extract(fm, 0, 0, 1);
    TableOnBa(fm);
    ok := fm.Build([[LETTER_A]], 1, false, false, 8);
    a := Extract(fm, 0, 0, 1);
    TableOnA(fm);
  }

  lemma NotFilled(fm: FMIndex)
    requires !fm.isaDone
    ensures Fresh(fm)
  {}

  lemma SmallTexts()
    ensures TextLength([[LETTER_A, LETTER_B]]) == TextLength([[LETTER_B, LETTER_A]]) == 3
    ensures TextLength([[LETTER_A]]) == 2
  {
    assert DocStart([[LETTER_A, LETTER_B]], 0) == DocStart([[LETTER_B, LETTER_A]], 0) == DocStart([[LETTER_A]], 0) == 0;
  }
}
