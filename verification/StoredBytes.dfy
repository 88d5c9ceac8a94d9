/** Which byte of a blob holds what of an index: every field at its literal offset, least significant byte first. */
module StoredBytes {
  import opened Corpus
  import opened Construction
  import opened LittleEndian
  import opened QuadVectors
  import opened Words
  import opened WordBytes
  import opened Blobs
  import opened BlobTheory
  import opened FMIndexes
  import opened Images
  import opened ByteDigits
  import opened ByteLayout
  import opened ByteReadings
  import BitVectors

  // ----- the relation between bytes and fields -----

  predicate ScalarsStored(b: seq<Byte>, rate: nat, sigma: nat, qlevels: nat, fold: bool, wide: bool, wpb: nat,
                          textLen: nat)
  {
    && |b| >= 32
    && U32(b, 8) == rate && U32(b, 12) == sigma && U32(b, 16) == qlevels
    && (b[20] % 2 == 1 <==> fold) && (b[20] / 2 % 2 == 1 <==> wide) && b[21] == wpb
    && U64(b, 24) == textLen
  }

  /** Ids from byte 32 on, an absent one as four bytes of 255; the C-table from byte 1056 on. */
  predicate IdsStored(b: seq<Byte>, ids: seq<int>, c: seq<nat>) {
    && |ids| == 256 && 1056 + 8 * |c| <= |b|
    && (forall x: nat :: x < 256 ==> U32(b, 32 + 4 * x) == if ids[x] == -1 then 0xFFFF_FFFF else ids[x])
    && (forall x: nat :: x < |c| ==> U64(b, 1056 + 8 * x) == c[x])
  }

  /** Four group starts a level, after the C-table. */
  predicate StartsStored(b: seq<Byte>, starts: seq<seq<nat>>)
    requires FrontGood(b)
  {
    && |starts| == LevelsOf(b)
    && forall l: nat, d: nat :: l < |starts| && d < 4 ==>
         StartsOffset(b, l, d) + 8 <= |b| && |starts[l]| == 4 && U64(b, StartsOffset(b, l, d)) == starts[l][d]
  }

  /** Byte k of word j stands at off + 8j + k. */
  predicate WordsStored(b: seq<Byte>, off: nat, words: seq<bv64>) {
    && off + 8 * |words| <= |b|
    && forall j: nat, k: nat :: j < |words| && k < 8 ==> WordByteStored(b, off, words, j, k)
  }

  predicate WordByteStored(b: seq<Byte>, off: nat, words: seq<bv64>, j: nat, k: nat)
    requires j < |words| && k < 8 && off + 8 * |words| <= |b|
  {
    Word(b[off + 8 * j + k]) == ByteAt(words[j], k)
  }

  predicate LevelsStored(b: seq<Byte>, quads: seq<seq<bv64>>)
    requires FrontGood(b)
  {
    && |quads| == LevelsOf(b)
    && forall l: nat :: l < |quads| ==>
         8 * |quads[l]| == LevelBytes(b) && WordsStored(b, LevelOffset(b, l), quads[l])
  }

  predicate SamplesStored(b: seq<Byte>, samples: seq<nat>)
    requires FrontGood(b)
  {
    && |samples| == SampleTotal(b)
    && forall k: nat :: k < |samples| ==> SampleStored(b, samples, k)
  }

  predicate SampleStored(b: seq<Byte>, samples: seq<nat>, k: nat)
    requires FrontGood(b) && k < |samples|
  {
    SamplesOffset(b) + Times(k + 1, SampleBytes(b)) <= |b| && SampleIn(b, k) == samples[k]
  }

  predicate BoundsStored(b: seq<Byte>, bounds: seq<nat>)
    requires FrontGood(b)
  {
    && SizesOffset(b, LevelsOf(b) + 3) <= |b| && |bounds| == BoundsTotal(b)
    && forall i: nat :: i < |bounds| ==> BoundsOffset(b) + 8 * i + 8 <= |b| && BoundIn(b, i) == bounds[i]
  }

  /** The packed words of every level. */
  ghost function LevelWords(fm: FMIndex): (q: seq<seq<bv64>>)
    reads fm, fm.wm, fm.wm.qv
    ensures |q| == |fm.wm.qv| && forall l :: 0 <= l < |q| ==> q[l] == fm.wm.qv[l].words
  {
    seq(|fm.wm.qv|, l requires 0 <= l < |fm.wm.qv| reads fm, fm.wm, fm.wm.qv => fm.wm.qv[l].words)
  }

  /** The blob holds the index. */
  ghost predicate Stores(b: seq<Byte>, fm: FMIndex)
    reads fm, fm.wm, fm.wm.qv, fm.sampled
  {
    && FrontGood(b)
    && ScalarsStored(b, fm.saSampleRate, fm.sigma, fm.qlevels, fm.caseFold, fm.wide, fm.wordsPerBlock, fm.textLen)
    && IdsStored(b, fm.byteToId, fm.c) && |fm.c| == fm.sigma
    && StartsStored(b, fm.wm.start) && LevelsStored(b, LevelWords(fm))
    && 8 * |fm.sampled.words| == FlagBytes(b) && WordsStored(b, FlagsOffset(b), fm.sampled.words)
    && SamplesStored(b, fm.samples) && BoundsStored(b, fm.docStart)
  }

  /** What only the writer does: unused flag bits and padding are zero, and nothing follows the boundaries. */
  predicate Tidy(b: seq<Byte>) {
    && FrontGood(b) && SizesOffset(b, LevelsOf(b) + 3) <= |b|
    && b[20] < 4 && b[22] == b[23] == 0
    && |b| == BoundsOffset(b) + 8 * BoundsTotal(b)
    && forall i: nat :: SamplesStop(b) <= i < BoundsOffset(b) ==> b[i] == 0
  }

  // ----- what was parsed is stored -----

  lemma WordsAreStored(b: seq<Byte>, off: nat, n: nat)
    requires off + n * 8 <= |b|
    ensures WordsStored(b, off, WordsAt(b, off, n))
  {
    hide WordsAt, WordOf, Word, ByteAt;
    forall j: nat, k: nat | j < n && k < 8
      ensures WordByteStored(b, off, WordsAt(b, off, n), j, k)
    {
      WordStands(b, off, n, j);
      WordBytesAre(b[off + 8 * j..off + 8 * j + 8], k);
    }
  }

  lemma AbsentId(u: nat, id: int, sigma: nat)
    requires u < 0x1_0000_0000 && id == Signed32(u) && IdOk(id, sigma) && sigma <= 258
    ensures u == if id == -1 then 0xFFFF_FFFF else id
  {}

  lemma HeadStored(b: seq<Byte>, h: Header)
    requires HeadHeld(b, h)
    ensures ScalarsStored(b, h.rate, h.sigma, h.qlevels, h.fold, h.wide, h.wpb, h.textLen)
    ensures IdsStored(b, h.ids, h.c) && FrontGood(b) && StartsStored(b, h.starts)
  {
    HeadIs(b);
    HeadReadOk(b);
    hide ParseHead, TablesGood, LevelsFor, U32, U64, Signed32, IdOk, BoundsTotal;
    forall x: nat | x < 256
      ensures U32(b, 32 + 4 * x) == if h.ids[x] == -1 then 0xFFFF_FFFF else h.ids[x]
    {
      U32Small(b, 32 + 4 * x);
      AbsentId(U32(b, 32 + 4 * x), h.ids[x], h.sigma);
    }
    forall l: nat, d: nat | l < |h.starts| && d < 4
      ensures StartsOffset(b, l, d) + 8 <= |b| && |h.starts[l]| == 4 && U64(b, StartsOffset(b, l, d)) == h.starts[l][d]
    {
      assert StartHeld(b, h, l, d);
    }
  }

  lemma HeadIs(b: seq<Byte>)
    requires ParseHead(b).Some?
    ensures FrontGood(b) && ParseHead(b).value.fold == FrontHeader(b).fold && ParseHead(b).value.wpb == FrontHeader(b).wpb
  {
    FrontParsed(b);
    hide NumberAt, NumbersAt, ParseScalars, FrontGood, TablesOk;
  }

  lemma QuadsStored(b: seq<Byte>, h: Header)
    requires RoomFor(b, h) && QuadsEnd(h) <= |b|
    ensures FrontGood(b) && LevelsStored(b, QuadsAt(b, h))
  {
    hide FrontGood, TablesGood, HeadHeld, ParseHead, RoomFor, WordsAt, WordsStored, LevelOffset, LevelStart, LevelBytes;
    hide QuadVectors.WordCount, QuadsEnd;
    RoomThere(b, h);
    forall l: nat | l < h.qlevels
      ensures 8 * |QuadsAt(b, h)[l]| == LevelBytes(b) && WordsStored(b, LevelOffset(b, l), QuadsAt(b, h)[l])
    {
      LevelPlaces(b, h, l);
      assert LevelFits(b, h, l);
      WordsAreStored(b, LevelStart(h, l), QuadVectors.WordCount(h.textLen + 1));
    }
  }

  lemma FlagsStored(b: seq<Byte>, h: Header)
    requires RoomFor(b, h) && SampledEnd(h) <= |b|
    ensures FrontGood(b) && 8 * |SampledAt(b, h)| == FlagBytes(b) && WordsStored(b, FlagsOffset(b), SampledAt(b, h))
  {
    hide FrontGood, TablesGood, HeadHeld, ParseHead, RoomFor, WordsAt, WordsStored, FlagsOffset, FlagBytes, QuadsEnd;
    hide BitVectors.WordCount;
    RoomThere(b, h);
    SectionPlaces(b, h);
    WordsAreStored(b, QuadsEnd(h), BitVectors.WordCount(h.textLen + 1));
  }

  lemma SampleHere(b: seq<Byte>, h: Header, k: nat)
    requires RoomFor(b, h) && SamplesEnd(h) <= |b| && k < |SamplesAt(b, h)|
    ensures FrontGood(b) && |SamplesAt(b, h)| == SampleTotal(b) && SampleStored(b, SamplesAt(b, h), k)
  {
    hide FrontGood, TablesGood, HeadHeld, ParseHead, RoomFor, SamplesAt, SampleIn, SamplesIn, SampleTotal, SamplesEnd;
    hide SamplesOffset, Times, SampleBytes, SampleWidth, SectionsThere;
    RoomThere(b, h);
    SectionPlaces(b, h);
    SampleStands(b, h, k);
  }

  lemma SamplesAreStored(b: seq<Byte>, h: Header)
    requires RoomFor(b, h) && SamplesEnd(h) <= |b|
    ensures FrontGood(b) && SamplesStored(b, SamplesAt(b, h))
  {
    hide FrontGood, TablesGood, HeadHeld, ParseHead, RoomFor, SamplesAt, SampleStored, SamplesIn, SampleTotal, SamplesEnd;
    hide SectionsThere;
    RoomThere(b, h);
    SectionPlaces(b, h);
    forall k: nat | k < |SamplesAt(b, h)|
      ensures SampleStored(b, SamplesAt(b, h), k)
    {
      SampleHere(b, h, k);
    }
  }

  lemma BoundsAreStored(b: seq<Byte>, h: Header)
    requires RoomFor(b, h)
    ensures FrontGood(b) && BlobSize(h) <= |b| && BoundsStored(b, BoundsAt(b, h))
  {
    hide FrontGood, TablesGood, HeadHeld, ParseHead, RoomFor, BoundsAt, BoundIn, BoundsOffset, BlobSize, BoundsTotal;
    hide SizesOffset;
    RoomThere(b, h);
    assert SizesOffset(b, LevelsOf(b) + 3) <= |b| by { SizesThere(b); }
    forall i: nat | i < h.bounds
      ensures BoundsOffset(b) + 8 * i + 8 <= |b| && BoundIn(b, i) == BoundsAt(b, h)[i]
    {
      BoundStands(b, h, i);
    }
  }

  lemma SizesThere(b: seq<Byte>)
    requires FrontGood(b) && TablesGood(b)
    ensures SizesOffset(b, LevelsOf(b) + 3) <= |b|
  {}

  /** What was parsed stands in the blob. */
  ghost predicate FieldsStored(b: seq<Byte>, f: Fields) {
    && FrontGood(b)
    && ScalarsStored(b, f.head.rate, f.head.sigma, f.head.qlevels, f.head.fold, f.head.wide, f.head.wpb, f.head.textLen)
    && IdsStored(b, f.head.ids, f.head.c) && StartsStored(b, f.head.starts) && LevelsStored(b, f.quads)
    && 8 * |f.sampled| == FlagBytes(b) && WordsStored(b, FlagsOffset(b), f.sampled)
    && SamplesStored(b, f.samples) && BoundsStored(b, f.docStart)
  }

  lemma ParsedIsStored(b: seq<Byte>)
    requires Parse(b).Some?
    ensures FieldsStored(b, Parse(b).value)
  {
    hide FrontGood, ParseHead, HeadHeld, RoomFor, BodyOk, QuadsAt, SampledAt, SamplesAt, BoundsAt, BlobSize, QuadsEnd;
    hide SampledEnd, SamplesEnd, ScalarsStored, IdsStored, StartsStored, LevelsStored, WordsStored, SamplesStored;
    hide BoundsStored, FlagBytes, FlagsOffset;
    var h := ParseHead(b).value;
    HeadHolds(b);
    RoomHere(b, h);
    SectionOrder(h);
    HeadStored(b, h);
    QuadsStored(b, h);
    FlagsStored(b, h);
    SamplesAreStored(b, h);
    BoundsAreStored(b, h);
  }

  /** A blob that parses as what an index holds stores the index. */
  lemma ParsedStores(b: seq<Byte>, fm: FMIndex)
    requires Parse(b) == Some(Image(fm))
    ensures Acceptable(b) && Stores(b, fm)
  {
    hide FrontGood, Parse, ScalarsStored, IdsStored, StartsStored, LevelsStored, WordsStored, SamplesStored;
    hide BoundsStored, FlagBytes, FlagsOffset, Acceptable;
    AcceptedMeans(b);
    ParsedIsStored(b);
    assert Image(fm).quads == LevelWords(fm);
    ParsedOk(b);
    assert |fm.c| == fm.sigma by { TableSizes(Image(fm)); }
  }

  lemma TableSizes(f: Fields)
    requires FieldsOk(f)
    ensures |f.head.c| == f.head.sigma
  {}

  // ----- what is written is tidy -----

  lemma FlagsWritten(b: seq<Byte>, h: Header)
    requires StandsAt(b, 0, HeadBytes(h, SectionSizes(h))) && HeadOk(h)
    ensures |b| >= 32 && b[20] < 4 && b[22] == b[23] == 0
  {
    hide HeadBytes, NumberAt, NumbersAt, LevelsFor, U32, StandsAt;
    WordsRead(b, h);
    WordsMean(b);
    FlagsSmall(h);
    FourBytes(b, 20, Flags(h));
  }

  lemma FlagsSmall(h: Header)
    requires SmallPower(h.wpb)
    ensures Flags(h) < 0x1_0000 && Flags(h) % 256 < 4
  {}

  lemma PaddingWritten(b: seq<Byte>, p: nat)
    requires StandsAt(b, p, Zeros(Pad(p)))
    ensures forall i: nat :: p <= i < p + Pad(p) ==> i < |b| && b[i] == 0
  {
    hide Pad;
    forall i: nat | p <= i < p + Pad(p)
      ensures i < |b| && b[i] == 0
    {
      assert b[p..p + Pad(p)][i - p] == 0;
    }
  }

  /** What is written from acceptable content is acceptable, tidy, and parses back. */
  lemma EncodedTidy(f: Fields)
    requires FieldsOk(f)
    ensures Parse(Encode(f)) == Some(f) && Tidy(Encode(f))
  {
    hide Encode, ParseHead, HeadBytes, FrontGood, TablesGood, BodyOk, HeadOk, StandsAt, Pad, SamplesEnd, BoundsOffset;
    hide BoundsTotal, HeadHeld, SamplesStop, BlobSize, SizesOffset, LevelsFor;
    var b, h := Encode(f), f.head;
    assert Encode(f) + [] == b;
    ParseRoundTrip(f, []);
    HeadHolds(b);
    RoomHere(b, h) by { ParsedOk(b); }
    RoomThere(b, h);
    SizesThere(b);
    assert StandsAt(b, 0, b) by { Itself(b); }
    BodyPieces(b, f);
    FlagsWritten(b, h);
    PaddingWritten(b, SamplesEnd(h));
    SectionPlaces(b, h);
    TidyEnds(h);
  }

  lemma Itself(b: seq<Byte>)
    ensures StandsAt(b, 0, b)
  {
    assert b[0..0 + |b|] == b;
  }

  lemma TidyEnds(h: Header)
    ensures BoundsStart(h) == SamplesEnd(h) + Pad(SamplesEnd(h)) && BlobSize(h) == BoundsStart(h) + 8 * h.bounds
  {}

  // ----- the same, byte by byte -----

  /** The w bytes from off on are those of v, the least significant first. */
  predicate NumberStored(b: seq<Byte>, off: nat, v: nat, w: nat)
    requires w <= 8
  {
    off + w <= |b| && forall k: nat :: k < w ==> b[off + k] == NumberByte(v, k)
  }

  lemma StoredIn4(b: seq<Byte>, off: nat)
    requires off + 4 <= |b|
    ensures NumberStored(b, off, U32(b, off), 4)
  {
    hide NumberByte, U32;
    forall k: nat | k < 4
      ensures b[off + k] == NumberByte(U32(b, off), k)
    {
      BytesOf32(b, off, k);
    }
  }

  lemma StoredIn8(b: seq<Byte>, off: nat)
    requires off + 8 <= |b|
    ensures NumberStored(b, off, U64(b, off), 8)
  {
    hide NumberByte, U64;
    forall k: nat | k < 8
      ensures b[off + k] == NumberByte(U64(b, off), k)
    {
      BytesOf64(b, off, k);
    }
  }

  /** Every byte of the fixed front. */
  lemma ScalarBytes(b: seq<Byte>, fm: FMIndex)
    requires Stores(b, fm) && Tidy(b)
    ensures |b| >= 32 && b[..8] == [0x58, 0x49, 0x4D, 0x46, 8, 0, 0, 0]
    ensures NumberStored(b, 8, fm.saSampleRate, 4) && NumberStored(b, 12, fm.sigma, 4) && NumberStored(b, 16, fm.qlevels, 4)
    ensures b[20] == (if fm.caseFold then 1 else 0) + (if fm.wide then 2 else 0)
    ensures b[21] == fm.wordsPerBlock && b[22] == b[23] == 0
    ensures NumberStored(b, 24, fm.textLen, 8)
  {
    hide U32, U64, LevelsGood, IdsStored, StartsStored, LevelsStored, WordsStored, SamplesStored, BoundsStored;
    hide SizesOffset, BoundsOffset, BoundsTotal, SamplesStop, NumberStored;
    StoredIn4(b, 8);
    StoredIn4(b, 12);
    StoredIn4(b, 16);
    StoredIn8(b, 24);
  }

  /** An absent byte's entry is four bytes of 255, another's is its id. */
  lemma IdBytes(b: seq<Byte>, fm: FMIndex, x: Byte)
    requires Stores(b, fm)
    ensures |fm.byteToId| == 256 && |b| >= 1056
    ensures fm.byteToId[x] == -1 ==> b[32 + 4 * x] == b[33 + 4 * x] == b[34 + 4 * x] == b[35 + 4 * x] == 255
    ensures fm.byteToId[x] != -1 ==> fm.byteToId[x] >= 0 && NumberStored(b, 32 + 4 * x, fm.byteToId[x], 4)
  {
    hide U64, FrontGood, StartsStored, LevelsStored, WordsStored, SamplesStored, BoundsStored, NumberStored;
    FourBytes(b, 32 + 4 * x, 0xFFFF_FFFF);
    StoredIn4(b, 32 + 4 * x);
    hide U32;
  }

  /** The four group starts of a level. */
  predicate RowStored(b: seq<Byte>, off: nat, row: seq<nat>) {
    && |row| == 4 && NumberStored(b, off, row[0], 8) && NumberStored(b, off + 8, row[1], 8)
    && NumberStored(b, off + 16, row[2], 8) && NumberStored(b, off + 24, row[3], 8)
  }

  lemma FourOffsets(b: seq<Byte>, l: nat)
    requires FrontGood(b)
    ensures StartsOffset(b, l, 0) == 1056 + 8 * SigmaOf(b) + 32 * l && StartsOffset(b, l, 1) == StartsOffset(b, l, 0) + 8
    ensures StartsOffset(b, l, 2) == StartsOffset(b, l, 0) + 16 && StartsOffset(b, l, 3) == StartsOffset(b, l, 0) + 24
  {}

  /** Every byte of the C-table and the group starts. */
  lemma TableBytes(b: seq<Byte>, fm: FMIndex)
    requires Stores(b, fm)
    ensures |fm.c| == fm.sigma && |fm.wm.start| == fm.qlevels
    ensures forall x :: 0 <= x < fm.sigma ==> NumberStored(b, 1056 + 8 * x, fm.c[x], 8)
    ensures forall l :: 0 <= l < fm.qlevels ==> RowStored(b, 1056 + 8 * fm.sigma + 32 * l, fm.wm.start[l])
  {
    hide U32, U64, LevelsGood, LevelsStored, WordsStored, SamplesStored, BoundsStored, NumberStored;
    forall x | 0 <= x < fm.sigma
      ensures NumberStored(b, 1056 + 8 * x, fm.c[x], 8)
    {
      StoredIn8(b, 1056 + 8 * x);
    }
    forall l | 0 <= l < fm.qlevels
      ensures RowStored(b, 1056 + 8 * fm.sigma + 32 * l, fm.wm.start[l])
    {
      forall d: nat | d < 4
        ensures |fm.wm.start[l]| == 4 && NumberStored(b, StartsOffset(b, l, d), fm.wm.start[l][d], 8)
      {
        assert StartsOffset(b, l, d) + 8 <= |b|;
        StoredIn8(b, StartsOffset(b, l, d));
      }
      FourOffsets(b, l);
    }
  }

  /** Every byte of the samples and the boundaries; the packed words' bytes are part of the relation itself. */
  lemma SectionBytes(b: seq<Byte>, fm: FMIndex)
    requires Stores(b, fm)
    ensures FrontGood(b) && SampleBytes(b) == (if fm.wide then 8 else 4)
    ensures forall i :: 0 <= i < |fm.samples| ==>
              NumberStored(b, SamplesOffset(b) + Times(i, SampleBytes(b)), fm.samples[i], SampleBytes(b))
    ensures forall d :: 0 <= d < |fm.docStart| ==> NumberStored(b, BoundsOffset(b) + 8 * d, fm.docStart[d], 8)
  {
    hide U32, U64, IdsStored, StartsStored, LevelsStored, WordsStored, FrontGood, SamplesOffset, BoundsOffset;
    hide Times, BoundsTotal, SampleTotal, NumberStored;
    forall i | 0 <= i < |fm.samples|
      ensures NumberStored(b, SamplesOffset(b) + Times(i, SampleBytes(b)), fm.samples[i], SampleBytes(b))
    {
      assert SampleStored(b, fm.samples, i);
      TimesOrdered(i, i + 1, SampleBytes(b));
      if SampleBytes(b) == 8 {
        StoredIn8(b, SamplesOffset(b) + Times(i, 8));
      } else {
        StoredIn4(b, SamplesOffset(b) + Times(i, 4));
      }
    }
    forall d | 0 <= d < |fm.docStart|
      ensures NumberStored(b, BoundsOffset(b) + 8 * d, fm.docStart[d], 8)
    {
      StoredIn8(b, BoundsOffset(b) + 8 * d);
    }
  }
}
