/** The serialized form spelled out byte by byte, at literal offsets, and what the loader accepts of it. Nothing here
    is shared with the code that writes and reads blobs. */
module ByteLayout {
  import opened Corpus
  import opened ByteDigits

  // ----- numbers, least significant byte first -----

  function U32(b: seq<Byte>, off: nat): nat
    requires off + 4 <= |b|
  {
    b[off] as nat + 0x100 * (b[off + 1] as nat) + 0x1_0000 * (b[off + 2] as nat) + 0x100_0000 * (b[off + 3] as nat)
  }

  function U64(b: seq<Byte>, off: nat): nat
    requires off + 8 <= |b|
  {
    U32(b, off) + 0x1_0000_0000 * U32(b, off + 4)
  }

  /** Digit i of the packed digits at off: two bits each, from the low end of every byte. */
  function DigitIn(b: seq<Byte>, off: nat, i: nat): nat
    requires off + i / 4 < |b|
  {
    Quarter(b[off + i / 4], i % 4)
  }

  /** Flag i of the packed flags at off: one bit each, from the low end of every byte. */
  function FlagIn(b: seq<Byte>, off: nat, i: nat): nat
    requires off + i / 8 < |b|
  {
    Eighth(b[off + i / 8], i % 8)
  }

  // ----- the fixed front -----

  /** Two bits a level, as many levels as the ids need. */
  predicate LevelsGood(sigma: nat, levels: nat) {
    || (2 <= sigma <= 4 && levels == 1) || (5 <= sigma <= 16 && levels == 2) || (17 <= sigma <= 64 && levels == 3)
    || (65 <= sigma <= 256 && levels == 4) || (257 <= sigma <= 258 && levels == 5)
  }

  /** Magic, version, rate, alphabet size, levels, flags, block size and text length. */
  predicate FrontGood(b: seq<Byte>) {
    && |b| >= 32
    && b[..8] == [0x58, 0x49, 0x4D, 0x46, 8, 0, 0, 0]
    && U32(b, 8) > 0
    && LevelsGood(U32(b, 12), U32(b, 16))
    && (b[21] == 1 || b[21] == 2 || b[21] == 4 || b[21] == 8 || b[21] == 16)
    && U64(b, 24) < 0x8000_0000_0000_0000
  }

  // ----- where the parts are -----

  function Times(x: nat, k: nat): nat {
    x * k
  }

  /** Multiples of rate among 0, 1, .. n. */
  function MultiplesTo(n: nat, rate: nat): nat
    requires rate > 0
  {
    n / rate + 1
  }

  function RateOf(b: seq<Byte>): nat
    requires FrontGood(b)
    ensures RateOf(b) > 0
  {
    U32(b, 8)
  }

  function SigmaOf(b: seq<Byte>): nat
    requires FrontGood(b)
  {
    U32(b, 12)
  }

  function LevelsOf(b: seq<Byte>): nat
    requires FrontGood(b)
  {
    U32(b, 16)
  }

  function LengthOf(b: seq<Byte>): nat
    requires FrontGood(b)
  {
    U64(b, 24)
  }

  /** Bytes of a stored sample. */
  function SampleBytes(b: seq<Byte>): nat
    requires FrontGood(b)
  {
    if b[20] / 2 % 2 == 1 then 8 else 4
  }

  function SampleTotal(b: seq<Byte>): nat
    requires FrontGood(b)
  {
    MultiplesTo(LengthOf(b), RateOf(b))
  }

  /** The group starts follow the C-table, the section sizes the group starts, the sections the sizes. */
  function StartsOffset(b: seq<Byte>, l: nat, d: nat): nat
    requires FrontGood(b)
  {
    1056 + 8 * SigmaOf(b) + 32 * l + 8 * d
  }

  function SizesOffset(b: seq<Byte>, s: nat): nat
    requires FrontGood(b)
  {
    1056 + 8 * SigmaOf(b) + 32 * LevelsOf(b) + 8 * s
  }

  /** Bytes of one level's packed digits, of the packed flags. */
  function LevelBytes(b: seq<Byte>): nat
    requires FrontGood(b)
  {
    (LengthOf(b) + 1 + 31) / 32 * 8
  }

  function FlagBytes(b: seq<Byte>): nat
    requires FrontGood(b)
  {
    (LengthOf(b) + 1 + 63) / 64 * 8
  }

  function LevelOffset(b: seq<Byte>, l: nat): nat
    requires FrontGood(b)
  {
    1080 + 8 * SigmaOf(b) + 40 * LevelsOf(b) + Times(l, LevelBytes(b))
  }

  function FlagsOffset(b: seq<Byte>): nat
    requires FrontGood(b)
  {
    LevelOffset(b, LevelsOf(b))
  }

  function SamplesOffset(b: seq<Byte>): nat
    requires FrontGood(b)
  {
    FlagsOffset(b) + FlagBytes(b)
  }

  function SamplesStop(b: seq<Byte>): nat
    requires FrontGood(b)
  {
    SamplesOffset(b) + Times(SampleTotal(b), SampleBytes(b))
  }

  /** The boundaries start at the next multiple of eight. */
  function BoundsOffset(b: seq<Byte>): nat
    requires FrontGood(b)
  {
    (SamplesStop(b) + 7) / 8 * 8
  }

  // ----- the tables -----

  /** A byte's id is absent, four bytes of 255, or a content id: never the sentinel's 0 or the separator's 1. */
  predicate IdGood(b: seq<Byte>, x: nat, sigma: nat)
    requires 36 + 4 * x <= |b|
  {
    U32(b, 32 + 4 * x) == 0xFFFF_FFFF || 2 <= U32(b, 32 + 4 * x) < sigma
  }

  function BoundsTotal(b: seq<Byte>): nat
    requires FrontGood(b) && SizesOffset(b, LevelsOf(b) + 3) <= |b|
  {
    U64(b, SizesOffset(b, LevelsOf(b) + 2))
  }

  predicate TablesGood(b: seq<Byte>)
    requires FrontGood(b)
  {
    && SizesOffset(b, LevelsOf(b) + 3) <= |b|
    && (forall x: nat :: x < 256 ==> IdGood(b, x, SigmaOf(b)))
    && (forall l: nat :: l < LevelsOf(b) ==> U64(b, SizesOffset(b, l)) == (LengthOf(b) + 1 + 31) / 32)
    && U64(b, SizesOffset(b, LevelsOf(b))) == (LengthOf(b) + 1 + 63) / 64
    && U64(b, SizesOffset(b, LevelsOf(b) + 1)) == SampleTotal(b)
    && 0 < BoundsTotal(b) <= LengthOf(b) + 1
  }

  // ----- the sections -----

  ghost predicate SectionsThere(b: seq<Byte>)
    requires FrontGood(b) && TablesGood(b)
  {
    BoundsOffset(b) + 8 * BoundsTotal(b) <= |b|
  }

  /** The stored group starts of a level count its smaller digits. */
  ghost predicate StartsGood(b: seq<Byte>, l: nat)
    requires FrontGood(b) && TablesGood(b) && SectionsThere(b) && l < LevelsOf(b)
  {
    forall d: nat :: d < 4 ==> StartGood(b, l, d)
  }

  ghost predicate StartGood(b: seq<Byte>, l: nat, d: nat)
    requires FrontGood(b) && TablesGood(b) && SectionsThere(b) && l < LevelsOf(b) && d < 4
  {
    DigitsThere(b, l);
    U64(b, StartsOffset(b, l, d)) == |set i: nat | i <= LengthOf(b) && DigitIn(b, LevelOffset(b, l), i) < d|
  }

  /** As many rows are flagged as samples are stored. */
  ghost predicate FlagsGood(b: seq<Byte>)
    requires FrontGood(b) && TablesGood(b) && SectionsThere(b)
  {
    FlagsThere(b);
    |set r: nat | r <= LengthOf(b) && FlagIn(b, FlagsOffset(b), r) == 1| == SampleTotal(b)
  }

  function SampleIn(b: seq<Byte>, k: nat): nat
    requires FrontGood(b) && SamplesOffset(b) + Times(k + 1, SampleBytes(b)) <= |b|
  {
    if SampleBytes(b) == 8 then U64(b, SamplesOffset(b) + Times(k, 8)) else U32(b, SamplesOffset(b) + Times(k, 4))
  }

  /** A sample is a position in the text, the end included, and a multiple of the rate. */
  ghost predicate SampleGood(b: seq<Byte>, k: nat)
    requires FrontGood(b) && TablesGood(b) && SectionsThere(b) && k < SampleTotal(b)
  {
    SampleThere(b, k);
    SampleIn(b, k) <= LengthOf(b) && SampleIn(b, k) % RateOf(b) == 0
  }

  function BoundIn(b: seq<Byte>, i: nat): nat
    requires FrontGood(b) && BoundsOffset(b) + 8 * i + 8 <= |b|
  {
    U64(b, BoundsOffset(b) + 8 * i)
  }

  /** Document boundaries: from 0 to the text length, strictly increasing. */
  ghost predicate BoundsGood(b: seq<Byte>)
    requires FrontGood(b) && TablesGood(b) && SectionsThere(b)
  {
    && BoundIn(b, 0) == 0 && BoundIn(b, BoundsTotal(b) - 1) == LengthOf(b)
    && forall i: nat :: 1 <= i < BoundsTotal(b) ==> BoundIn(b, i - 1) < BoundIn(b, i)
  }

  ghost predicate SectionsGood(b: seq<Byte>)
    requires FrontGood(b) && TablesGood(b)
  {
    && SectionsThere(b)
    && (forall l: nat :: l < LevelsOf(b) ==> StartsGood(b, l))
    && FlagsGood(b)
    && (forall k: nat :: k < SampleTotal(b) ==> SampleGood(b, k))
    && BoundsGood(b)
  }

  /** What the loader accepts. Whatever follows the last section, the unused flag bits and the padding may be anything. */
  ghost predicate Acceptable(b: seq<Byte>) {
    FrontGood(b) && TablesGood(b) && SectionsGood(b)
  }

  // ----- the parts are where they are said to be -----

  lemma SectionsOrdered(b: seq<Byte>)
    requires FrontGood(b) && TablesGood(b) && SectionsThere(b)
    ensures LevelOffset(b, 0) <= FlagsOffset(b) <= SamplesOffset(b) <= SamplesStop(b) <= BoundsOffset(b) <= |b|
    ensures LevelOffset(b, 0) == SizesOffset(b, LevelsOf(b) + 3)
  {
    hide FrontGood, TablesGood, LevelBytes, FlagBytes, SampleTotal, SampleBytes;
    TimesGrows(0, LevelsOf(b), LevelBytes(b));
  }

  lemma TimesOrdered(x: nat, y: nat, k: nat)
    requires x < y
    ensures Times(x, k) + k == Times(x + 1, k) <= Times(y, k)
  {
    if x + 1 < y {
      TimesGrows(x + 1, y, k);
    }
  }

  lemma {:induction false} TimesGrows(x: nat, y: nat, k: nat)
    requires x <= y
    ensures Times(x, k) <= Times(y, k)
  {
    assert Times(y, k) == Times(x, k) + (y - x) * k;
  }

  lemma DigitsThere(b: seq<Byte>, l: nat)
    requires FrontGood(b) && TablesGood(b) && SectionsThere(b) && l < LevelsOf(b)
    ensures LevelOffset(b, l) + LevelBytes(b) == LevelOffset(b, l + 1) <= |b|
    ensures StartsOffset(b, l, 4) <= |b|
    ensures forall i: nat :: i <= LengthOf(b) ==> LevelOffset(b, l) + i / 4 < |b|
  {
    SectionsOrdered(b);
    hide FrontGood, TablesGood, SectionsThere;
    LevelRoom(b, l);
    var m := LengthOf(b) + 1;
    forall i: nat | i < m
      ensures i / 4 < LevelBytes(b)
    {}
  }

  lemma LevelRoom(b: seq<Byte>, l: nat)
    requires FrontGood(b) && l < LevelsOf(b)
    ensures LevelOffset(b, l) + LevelBytes(b) == LevelOffset(b, l + 1) <= FlagsOffset(b)
  {
    hide FrontGood, LevelBytes, Times;
    TimesOrdered(l, LevelsOf(b), LevelBytes(b));
  }

  lemma FlagsThere(b: seq<Byte>)
    requires FrontGood(b) && TablesGood(b) && SectionsThere(b)
    ensures forall r: nat :: r <= LengthOf(b) ==> FlagsOffset(b) + r / 8 < |b|
  {
    SectionsOrdered(b);
    hide FrontGood, TablesGood, SectionsThere, FlagsOffset;
    var m := LengthOf(b) + 1;
    forall r: nat | r < m
      ensures r / 8 < FlagBytes(b)
    {}
  }

  lemma SampleThere(b: seq<Byte>, k: nat)
    requires FrontGood(b) && TablesGood(b) && SectionsThere(b) && k < SampleTotal(b)
    ensures SamplesOffset(b) + Times(k + 1, SampleBytes(b)) <= |b|
  {
    SectionsOrdered(b);
    hide FrontGood, TablesGood, SectionsThere, SamplesOffset, SampleBytes, SampleTotal, Times;
    TimesOrdered(k, SampleTotal(b), SampleBytes(b));
  }
}
