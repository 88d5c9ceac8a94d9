/** What a built index holds, in terms of its documents alone: every field, number by number. */
module BuiltStates {
  import opened Counting
  import opened SuffixArrays
  import opened Corpus
  import opened QueryTheory
  import opened PlainText
  import opened Construction
  import opened QuadVectors
  import opened WaveletTheory
  import opened WaveletMatrices
  import opened ByteReadings
  import opened FMIndexes
  import BitVectors

  // ----- documents -----

  /** Each document takes its bytes and one separator; the boundaries say where. */
  lemma BoundariesMean(fm: FMIndex)
    requires fm.Valid() && fm.c != []
    ensures |fm.docStart| == |fm.docs| + 1 && fm.docStart[0] == 0 && fm.docStart[|fm.docs|] == fm.textLen
    ensures forall d :: 0 <= d < |fm.docs| ==> fm.docStart[d + 1] == fm.docStart[d] + |fm.docs[d]| + 1
  {
    hide Layout, RankOk, SamplingOk, DocStart;
    FirstStart(fm.docs);
    forall d | 0 <= d < |fm.docs|
      ensures fm.docStart[d + 1] == fm.docStart[d] + |fm.docs[d]| + 1
    {
      DocStartStep(fm.docs, d);
    }
  }

  lemma {:induction false} StartOfPrefix(docs: seq<Document>, more: seq<Document>, n: nat)
    requires n <= |docs|
    ensures DocStart(docs + more, n) == DocStart(docs, n)
  {
    if n > 0 {
      StartOfPrefix(docs, more, n - 1);
    }
  }

  /** The length that a build refuses or accepts by: all bytes and one separator a document. */
  lemma LengthMeans(docs: seq<Document>, doc: Document)
    ensures TextLength([]) == 0 && TextLength(docs + [doc]) == TextLength(docs) + |doc| + 1
  {
    StartOfPrefix(docs, [doc], |docs|);
  }

  // ----- the alphabet -----

  /** y stands in some document, letters taken as small ones. */
  ghost predicate InUse(fold: bool, docs: seq<Document>, y: nat) {
    exists d: nat, o: nat :: d < |docs| && o < |docs[d]| && SmallLetter(fold, docs[d][o]) == y
  }

  lemma FoldIsSmall(fold: bool, x: Byte)
    ensures Fold(fold, x) == SmallLetter(fold, x)
  {
    FoldMeans(fold, x, x);
  }

  lemma PresentInUse(fold: bool, docs: seq<Document>, present: seq<nat>, y: nat)
    requires PresentBytes(fold, docs, present) && y < 256
    ensures present[y] == 1 <==> InUse(fold, docs, y)
  {
    if present[y] == 1 {
      assert ByteOccurs(fold, docs, y);
      var d, o :| 0 <= d < |docs| && 0 <= o < |docs[d]| && Fold(fold, docs[d][o]) == y;
      FoldIsSmall(fold, docs[d][o]);
    }
    if InUse(fold, docs, y) {
      var d: nat, o: nat :| d < |docs| && o < |docs[d]| && SmallLetter(fold, docs[d][o]) == y;
      FoldIsSmall(fold, docs[d][o]);
    }
  }

  /** Ids count up from 2 over the bytes in use; other bytes have none, and capitals have their small letters'. */
  lemma IdsMean(fm: FMIndex)
    requires fm.Valid() && fm.c != []
    ensures |fm.byteToId| == 256 && fm.sigma == 2 + |set y: nat | y < 256 && InUse(fm.caseFold, fm.docs, y)|
    ensures forall x: Byte ::
              fm.byteToId[x] == if InUse(fm.caseFold, fm.docs, SmallLetter(fm.caseFold, x))
                                then 2 + |set y: nat | y < SmallLetter(fm.caseFold, x) && InUse(fm.caseFold, fm.docs, y)|
                                else -1
  {
    hide RankOk, SamplingOk, InUse, Count, DocStart, PresentBytes, SmallLetter;
    fm.LayoutSize();
    var present :| AlphabetOf(fm.caseFold, fm.docs, fm.byteToId, fm.sigma, present);
    PresentSize(fm.caseFold, fm.docs, present);
    UsedBelow(fm.caseFold, fm.docs, present, 256);
    forall x: Byte
      ensures fm.byteToId[x] == if InUse(fm.caseFold, fm.docs, SmallLetter(fm.caseFold, x))
                                then 2 + |set y: nat | y < SmallLetter(fm.caseFold, x) && InUse(fm.caseFold, fm.docs, y)|
                                else -1
    {
      FoldIsSmall(fm.caseFold, x);
      PresentInUse(fm.caseFold, fm.docs, present, Fold(fm.caseFold, x));
      UsedBelow(fm.caseFold, fm.docs, present, Fold(fm.caseFold, x));
    }
  }

  lemma PresentSize(fold: bool, docs: seq<Document>, present: seq<nat>)
    requires PresentBytes(fold, docs, present)
    ensures |present| == 256
  {}

  lemma UsedBelow(fold: bool, docs: seq<Document>, present: seq<nat>, n: nat)
    requires PresentBytes(fold, docs, present) && n <= 256
    ensures |present| == 256 && Count(present, 1, n) == |set y: nat | y < n && InUse(fold, docs, y)|
  {
    hide InUse;
    CountIsCard(present, 1, n);
    forall y: nat | y < n
      ensures present[y] == 1 <==> InUse(fold, docs, y)
    {
      PresentInUse(fold, docs, present, y);
    }
    assert Indices(present, 1, n) == set y: nat | y < n && InUse(fold, docs, y);
  }

  /** The byte of an id in use is the small letter; it is what extraction gives back. */
  lemma BytesMean(fm: FMIndex)
    requires fm.Valid() && fm.c != []
    ensures |fm.byteToId| == 256 && |fm.idToByte| == fm.sigma
    ensures forall x: Byte :: fm.byteToId[x] != -1 ==>
              0 <= fm.byteToId[x] < fm.sigma && fm.idToByte[fm.byteToId[x]] == SmallLetter(fm.caseFold, x)
  {
    hide RankOk, SamplingOk, Layout, SmallLetter, Derived;
    fm.LayoutSize();
    assert |fm.idToByte| == fm.sigma by { InverseSize(fm); }
    forall x: Byte
      ensures Fold(fm.caseFold, x) == SmallLetter(fm.caseFold, x)
    {
      FoldIsSmall(fm.caseFold, x);
    }
  }

  lemma InverseSize(fm: FMIndex)
    requires fm.Valid() && fm.c != []
    ensures |fm.idToByte| == fm.sigma
  {}

  // ----- the text and its sorted suffixes -----

  /** The text: the ids of each document's bytes, 1 after each document, 0 at the end. */
  lemma TextMeans(fm: FMIndex)
    requires fm.Valid() && fm.c != []
    ensures |fm.byteToId| == 256 && |fm.Symbols()| == fm.textLen + 1 && fm.Symbols()[fm.textLen] == 0
    ensures |fm.docStart| == |fm.docs| + 1
    ensures forall d :: 0 <= d < |fm.docs| ==> fm.docStart[d] + |fm.docs[d]| < fm.textLen
    ensures forall d :: 0 <= d < |fm.docs| ==> fm.Symbols()[fm.docStart[d] + |fm.docs[d]|] == 1
    ensures forall d, o :: 0 <= d < |fm.docs| && 0 <= o < |fm.docs[d]| ==>
              fm.Symbols()[fm.docStart[d] + o] == fm.byteToId[fm.docs[d][o]]
  {
    hide RankOk, SamplingOk, Alphabet, DocStart;
    fm.LayoutSize();
    BoundariesMean(fm);
    forall d | 0 <= d < |fm.docs|
      ensures fm.docStart[d] + |fm.docs[d]| < fm.textLen
      ensures fm.Symbols()[fm.docStart[d] + |fm.docs[d]|] == 1
    {
      StretchMeans(fm, d, |fm.docs[d]|);
    }
    forall d, o | 0 <= d < |fm.docs| && 0 <= o < |fm.docs[d]|
      ensures fm.docStart[d] + o < fm.textLen
      ensures fm.Symbols()[fm.docStart[d] + o] == fm.byteToId[fm.docs[d][o]]
    {
      StretchMeans(fm, d, o);
    }
  }

  lemma StretchMeans(fm: FMIndex, d: nat, o: nat)
    requires fm.Valid() && fm.c != [] && d < |fm.docs| && o <= |fm.docs[d]| && |fm.byteToId| == 256
    ensures d < |fm.docStart| && fm.docStart[d] + o < fm.textLen < |fm.Symbols()|
    ensures fm.Symbols()[fm.docStart[d] + o] == if o < |fm.docs[d]| then fm.byteToId[fm.docs[d][o]] else 1
  {
    hide RankOk, SamplingOk, Alphabet, DocStart, Text;
    fm.LayoutSize();
    var p := DocStart(fm.docs, d) + o;
    DocStartStep(fm.docs, d);
    DocStartMonotone(fm.docs, d + 1, |fm.docs|);
    DocOfUnique(fm.docs, p, d);
    SymbolAt(fm.byteToId, fm.docs, p);
    CorpusKnown(fm.caseFold, fm.docs, fm.byteToId, fm.sigma, d);
  }

  /** The suffixes at i and j agree for a while, and then the one at i goes on with a smaller symbol. */
  ghost predicate SmallerSuffix(t: seq<nat>, i: nat, j: nat) {
    exists k: nat :: PartAfter(t, i, j, k)
  }

  predicate PartAfter(t: seq<nat>, i: nat, j: nat, k: nat) {
    i + k < |t| && j + k < |t| && t[i..i + k] == t[j..j + k] && t[i + k] < t[j + k]
  }

  lemma {:induction false} SuffixLessMeans(t: seq<nat>, i: nat, j: nat)
    requires IsText(t) && i < |t| && j < |t| && SuffixLess(t, i, j)
    ensures SmallerSuffix(t, i, j)
    decreases |t| - i
  {
    if t[i] < t[j] {
      assert PartAfter(t, i, j, 0);
    } else {
      assert t[j] != 0 ==> i + 1 < |t|;
      SuffixLessMeans(t, i + 1, j + 1);
      var k: nat :| PartAfter(t, i + 1, j + 1, k);
      assert t[i..i + (k + 1)] == [t[i]] + t[i + 1..i + 1 + k];
      assert t[j..j + (k + 1)] == [t[j]] + t[j + 1..j + 1 + k];
      assert PartAfter(t, i, j, k + 1);
    }
  }

  /** The rows are all text positions, in the order of their suffixes. */
  lemma RowsMean(fm: FMIndex)
    requires fm.Valid() && fm.c != []
    ensures |fm.byteToId| == 256 && |fm.sa| == fm.textLen + 1
    ensures forall r :: 0 <= r < |fm.sa| ==> fm.sa[r] <= fm.textLen
    ensures forall r, s :: 0 <= r < s < |fm.sa| ==> SmallerSuffix(fm.Symbols(), fm.sa[r], fm.sa[s])
  {
    hide RankOk, SamplingOk, Alphabet, Text, SuffixLess, SmallerSuffix;
    fm.LayoutSize();
    forall r, s | 0 <= r < s < |fm.sa|
      ensures SmallerSuffix(fm.Symbols(), fm.sa[r], fm.sa[s])
    {
      SuffixLessMeans(fm.Symbols(), fm.sa[r], fm.sa[s]);
    }
  }

  // ----- the rank structures -----

  /** The matrix holds the symbol before each row's suffix, 0 for the whole text; entry x of the C-table is the number
      of its symbols below x. */
  lemma TransformMeans(fm: FMIndex)
    requires fm.Valid() && fm.c != []
    ensures |fm.byteToId| == 256 && |fm.wm.layers| > 0 && |fm.sa| == |fm.Symbols()| == fm.textLen + 1
    ensures |fm.wm.Contents()| == fm.textLen + 1
    ensures forall r :: 0 <= r <= fm.textLen ==>
              fm.sa[r] <= fm.textLen && fm.wm.Contents()[r] == if fm.sa[r] == 0 then 0 else fm.Symbols()[fm.sa[r] - 1]
    ensures |fm.c| == fm.sigma
    ensures forall x: nat :: x < fm.sigma ==> fm.c[x] == |set r: nat | r <= fm.textLen && fm.wm.Contents()[r] < x|
  {
    hide SamplingOk, Alphabet, Text, CountBelow, DocStart;
    fm.LayoutSize();
    var b := fm.wm.Contents();
    assert b == fm.Transform();
    forall x: nat | x < fm.sigma
      ensures fm.c[x] == |set r: nat | r <= fm.textLen && b[r] < x|
    {
      CountBelowIsCard(b, x, |b|);
      assert IndicesBelow(b, x, |b|) == set r: nat | r <= fm.textLen && b[r] < x;
    }
  }

  /** 4 to the power k. */
  function FourTo(k: nat): nat
    requires k < 5
  {
    [1, 4, 16, 64, 256][k]
  }

  lemma FourIsPow(k: nat)
    requires k < 5
    ensures Pow2(2 * k) == FourTo(k)
  {
    Powers();
  }

  /** B is A stably sorted by its digits D: the element at i goes after all with smaller digits and the earlier ones
      with its own. */
  ghost predicate SortedInto(A: seq<nat>, D: seq<nat>, B: seq<nat>, i: nat)
    requires i < |A| == |D|
  {
    var p := |set j: nat | j < |D| && D[j] < D[i]| + |set j: nat | j < i && D[j] == D[i]|;
    p < |B| && B[p] == A[i]
  }

  /** At i, D holds the digit of worth 4^k of A's symbol, and B has that symbol in its place. */
  ghost predicate PackedAt(A: seq<nat>, D: seq<nat>, B: seq<nat>, k: nat, i: nat)
    requires k < 5
  {
    i < |A| == |D| && D[i] == A[i] / FourTo(k) % 4 && SortedInto(A, D, B, i)
  }

  ghost predicate Packed(A: seq<nat>, D: seq<nat>, B: seq<nat>, k: nat)
    requires k < 5
  {
    |A| == |D| == |B| && forall i :: 0 <= i < |A| ==> PackedAt(A, D, B, k, i)
  }

  lemma ScatteredMeans(A: seq<nat>, D: seq<nat>, B: seq<nat>, k: nat)
    requires k < 5 && D == DigitsOf(A, 2 * k) && Scattered(A, D, B)
    ensures Packed(A, D, B, k)
  {
    hide Pow2, LevelMap;
    FourIsPow(k);
    forall i | 0 <= i < |A|
      ensures PackedAt(A, D, B, k, i)
    {
      assert ScatteredAt(A, D, B, i);
      PlaceCounted(D, i);
    }
  }

  /** A level packs one base-4 digit of each symbol of its layer, the top digit on the first level; the next layer is
      the layer stably sorted by those digits. */
  lemma LevelMeans(fm: FMIndex, l: nat)
    requires fm.Valid() && fm.c != [] && l < fm.qlevels
    ensures fm.qlevels <= 5 && |fm.wm.layers| == fm.qlevels + 1 && |fm.wm.qv| == fm.qlevels
    ensures |fm.wm.layers[l]| == |fm.wm.layers[l + 1]| == fm.textLen + 1
    ensures |fm.wm.qv[l].words| == (fm.textLen + 1 + 31) / 32
    ensures Packed(fm.wm.layers[l], Digits(fm.wm.qv[l].words, fm.textLen + 1), fm.wm.layers[l + 1], fm.qlevels - 1 - l)
  {
    hide SamplingOk, Layout, CountBelow, Count, DocStart, DirectoryOk, Descend, Top, LevelsFor, Scattered, Packed;
    fm.LayoutSize();
    FewLevels(fm);
    assert fm.wm.LevelUsable(l) && LevelOk(fm.wm.layers, fm.wm.digits, fm.qlevels, l);
    assert Digits(fm.wm.qv[l].words, fm.textLen + 1) == fm.wm.digits[l];
    ScatteredMeans(fm.wm.layers[l], fm.wm.digits[l], fm.wm.layers[l + 1], fm.qlevels - 1 - l);
  }

  lemma PlaceCounted(D: seq<nat>, i: nat)
    requires i < |D|
    ensures LevelMap(D, D[i], i) == |set j: nat | j < |D| && D[j] < D[i]| + |set j: nat | j < i && D[j] == D[i]|
  {
    CountBelowIsCard(D, D[i], |D|);
    CountIsCard(D, D[i], i);
    assert IndicesBelow(D, D[i], |D|) == set j: nat | j < |D| && D[j] < D[i];
    assert Indices(D, D[i], i) == set j: nat | j < i && D[j] == D[i];
  }

  lemma FewLevels(fm: FMIndex)
    requires fm.Valid() && fm.c != []
    ensures 1 <= fm.qlevels <= 5
  {
    hide SamplingOk, RankOk, LevelsFor;
    fm.LayoutSize();
    BitsMean(fm.sigma);
  }

  // ----- the samples -----

  /** A row is flagged if its position is a multiple of the rate; sample k is the position of the flagged row that has
      k flagged rows before it. */
  lemma SamplesMean(fm: FMIndex)
    requires fm.Valid() && fm.c != []
    ensures fm.saSampleRate > 0 && |fm.sa| == fm.textLen + 1 && |fm.samples| == fm.textLen / fm.saSampleRate + 1
    ensures fm.sampled.n == fm.textLen + 1 && |fm.sampled.words| == (fm.textLen + 1 + 63) / 64
    ensures forall r :: 0 <= r <= fm.textLen ==>
              (BitVectors.BitOf(fm.sampled.words, r) == 1 <==> fm.sa[r] % fm.saSampleRate == 0)
    ensures forall r :: 0 <= r <= fm.textLen && fm.sa[r] % fm.saSampleRate == 0 ==>
              var k := |set s: nat | s < r && fm.sa[s] % fm.saSampleRate == 0|;
              k < |fm.samples| && fm.samples[k] == fm.sa[r]
  {
    hide RankOk, Layout, Count, BitVectors.DirectoryOk, DocStart;
    fm.LayoutSize();
    SampleCount(fm.sa, fm.saSampleRate);
    var f := SampleFlags(fm.sa, fm.saSampleRate);
    assert f == BitVectors.Bits(fm.sampled.words, fm.textLen + 1);
    forall r | 0 <= r <= fm.textLen && fm.sa[r] % fm.saSampleRate == 0
      ensures var k := |set s: nat | s < r && fm.sa[s] % fm.saSampleRate == 0|;
              k < |fm.samples| && fm.samples[k] == fm.sa[r]
    {
      CountIsCard(f, 1, r);
      assert Indices(f, 1, r) == set s: nat | s < r && fm.sa[s] % fm.saSampleRate == 0;
      assert f[r] == 1;
    }
  }
}
