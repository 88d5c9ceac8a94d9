/** The parser accepts exactly the blobs whose bytes are acceptable at their literal offsets, and reads off them the
    numbers that stand there. */
module ByteReadings {
  import opened Counting
  import opened Corpus
  import opened Construction
  import opened LittleEndian
  import opened QuadVectors
  import opened WaveletTheory
  import opened Words
  import opened WordBytes
  import opened Blobs
  import opened BlobTheory
  import opened ByteDigits
  import opened ByteLayout
  import BitVectors

  // ----- numbers -----

  lemma FourMore(s: seq<Byte>)
    requires |s| >= 4
    ensures UnLe(s) == U32(s, 0) + 0x1_0000_0000 * UnLe(s[4..])
  {
    assert s[1..][1..] == s[2..] && s[2..][1..] == s[3..] && s[3..][1..] == s[4..];
    var u1, u2, u3 := UnLe(s[1..]), UnLe(s[2..]), UnLe(s[3..]);
    assert UnLe(s) == s[0] + 256 * u1 && u1 == s[1] + 256 * u2 && u2 == s[2] + 256 * u3;
    assert u3 == s[3] + 256 * UnLe(s[4..]);
  }

  lemma NumberIs32(b: seq<Byte>, off: nat)
    requires off + 4 <= |b|
    ensures NumberAt(b, off, 4) == U32(b, off)
  {
    hide UnLe;
    var s := b[off..off + 4];
    FourMore(s);
    assert UnLe(s[4..]) == 0 by { NoBytes(s[4..]); }
  }

  lemma NoBytes(s: seq<Byte>)
    requires |s| == 0
    ensures UnLe(s) == 0
  {}

  lemma NumberIs64(b: seq<Byte>, off: nat)
    requires off + 8 <= |b|
    ensures NumberAt(b, off, 8) == U64(b, off)
  {
    hide UnLe;
    var s := b[off..off + 8];
    FourMore(s);
    FourMore(s[4..]);
    NoBytes(s[4..][4..]);
  }

  lemma LowByteFirst(x: Byte, rest: nat, v: nat)
    ensures x + 256 * rest == v <==> x == v % 256 && rest == v / 256
  {}

  lemma ByteQuotients(v: nat)
    ensures v / 0x100 / 0x100 == v / 0x1_0000 && v / 0x1_0000 / 0x100 == v / 0x100_0000
  {}

  /** The bytes of a number, and the number of the bytes. */
  lemma FourBytes(b: seq<Byte>, off: nat, v: nat)
    requires off + 4 <= |b| && v < 0x1_0000_0000
    ensures U32(b, off) == v
       <==> b[off] == v % 256 && b[off + 1] == v / 0x100 % 256 && b[off + 2] == v / 0x1_0000 % 256
            && b[off + 3] == v / 0x100_0000
  {
    var x3: nat := b[off + 3];
    var x2: nat := b[off + 2] + 256 * x3;
    var x1: nat := b[off + 1] + 256 * x2;
    LowByteFirst(b[off], x1, v);
    LowByteFirst(b[off + 1], x2, v / 0x100);
    LowByteFirst(b[off + 2], x3, v / 0x1_0000);
    ByteQuotients(v);
  }

  /** Byte k of a number. */
  function NumberByte(v: nat, k: nat): nat
    requires k < 8
  {
    var units := [1, 0x100, 0x1_0000, 0x100_0000, 0x1_0000_0000, 0x100_0000_0000, 0x1_0000_0000_0000, 0x100_0000_0000_0000];
    v / units[k] % 256
  }

  lemma BytesOf32(b: seq<Byte>, off: nat, k: nat)
    requires off + 4 <= |b| && k < 4
    ensures b[off + k] == NumberByte(U32(b, off), k)
  {
    U32Small(b, off);
    FourBytes(b, off, U32(b, off));
    hide U32;
  }

  lemma HighHalf(low: nat, high: nat, k: nat)
    requires low < 0x1_0000_0000 && k < 8
    ensures NumberByte(low + 0x1_0000_0000 * high, k) == if k < 4 then NumberByte(low, k) else NumberByte(high, k - 4)
  {
    var v := low + 0x1_0000_0000 * high;
    if k < 4 {
      LowQuotients(low, high);
    } else {
      assert v / 0x1_0000_0000 == high;
      HighQuotients(v);
    }
  }

  lemma AddBytes(a: nat, k: nat)
    ensures (a + 256 * k) % 256 == a % 256 && (a + 256 * k) / 256 == a / 256 + k
  {}

  lemma LowQuotients(low: nat, high: nat)
    requires low < 0x1_0000_0000
    ensures var v := low + 0x1_0000_0000 * high;
            && v % 256 == low % 256 && v / 0x100 % 256 == low / 0x100 % 256
            && v / 0x1_0000 % 256 == low / 0x1_0000 % 256 && v / 0x100_0000 % 256 == low / 0x100_0000 % 256
  {
    var v := low + 0x1_0000_0000 * high;
    ByteQuotients(low);
    ByteQuotients(v);
    AddBytes(low, 0x100_0000 * high);
    AddBytes(low / 0x100, 0x1_0000 * high);
    AddBytes(low / 0x1_0000, 0x100 * high);
    AddBytes(low / 0x100_0000, high);
  }

  lemma HighQuotients(v: nat)
    ensures v / 0x100_0000_0000 == v / 0x1_0000_0000 / 0x100
    ensures v / 0x1_0000_0000_0000 == v / 0x1_0000_0000 / 0x1_0000
    ensures v / 0x100_0000_0000_0000 == v / 0x1_0000_0000 / 0x100_0000
  {}

  lemma BytesOf64(b: seq<Byte>, off: nat, k: nat)
    requires off + 8 <= |b| && k < 8
    ensures b[off + k] == NumberByte(U64(b, off), k)
  {
    hide U32, NumberByte;
    U32Small(b, off);
    HighHalf(U32(b, off), U32(b, off + 4), k);
    if k < 4 {
      BytesOf32(b, off, k);
    } else {
      BytesOf32(b, off + 4, k - 4);
    }
  }

  lemma U32Small(b: seq<Byte>, off: nat)
    requires off + 4 <= |b|
    ensures U32(b, off) < 0x1_0000_0000
  {}

  // ----- the front -----

  lemma LevelsMean(sigma: nat, levels: nat)
    ensures 2 <= sigma <= 258 && levels == LevelsFor(sigma) <==> LevelsGood(sigma, levels)
  {
    if 2 <= sigma <= 258 {
      BitsMean(sigma);
    }
  }

  lemma Powers()
    ensures Pow2(1) == 2 && Pow2(2) == 4 && Pow2(3) == 8 && Pow2(4) == 16 && Pow2(5) == 32
    ensures Pow2(6) == 64 && Pow2(7) == 128 && Pow2(8) == 256 && Pow2(9) == 512
  {
    assert Pow2(3) == 8;
    assert Pow2(6) == 64;
  }

  lemma NextBits(sigma: nat, bits: nat)
    ensures BitsFor(sigma, bits) == if Pow2(bits) < sigma then BitsFor(sigma, bits + 1) else bits
  {}

  lemma BitsMean(sigma: nat)
    requires 2 <= sigma <= 258
    ensures LevelsFor(sigma)
         == if sigma <= 4 then 1 else if sigma <= 16 then 2 else if sigma <= 64 then 3 else if sigma <= 256 then 4 else 5
  {
    hide BitsFor, Pow2;
    Powers();
    NextBits(sigma, 1);
    NextBits(sigma, 2);
    NextBits(sigma, 3);
    NextBits(sigma, 4);
    NextBits(sigma, 5);
    NextBits(sigma, 6);
    NextBits(sigma, 7);
    NextBits(sigma, 8);
    NextBits(sigma, 9);
  }

  lemma FlagBytesMean(b: seq<Byte>)
    requires |b| >= 24
    ensures U32(b, 20) % 2 == b[20] % 2 && U32(b, 20) / 2 % 2 == b[20] / 2 % 2 && U32(b, 20) / 256 % 256 == b[21]
  {
    var rest := 0x100 * (b[22] as nat) + 0x1_0000 * (b[23] as nat);
    assert U32(b, 20) == b[20] + 256 * (b[21] + rest);
    FlagDigits(b[20], b[21], b[22] as nat + 0x100 * (b[23] as nat));
  }

  lemma FlagDigits(x: Byte, y: Byte, z: nat)
    ensures var v: nat := x + 256 * (y + 256 * z); v % 2 == x % 2 && v / 2 % 2 == x / 2 % 2 && v / 256 % 256 == y
  {
    var r: nat := y + 256 * z;
    var v: nat := x + 256 * r;
    AddEven(x, 128 * r);
    AddEven(x / 2, 64 * r);
    LowByteFirst(x, r, v);
    LowByteFirst(y, z, r);
  }

  lemma AddEven(x: nat, k: nat)
    ensures (x + 2 * k) % 2 == x % 2 && (x + 2 * k) / 2 == x / 2 + k
  {}

  lemma MagicMeans(b: seq<Byte>)
    requires |b| >= 8
    ensures U32(b, 0) == MAGIC && U32(b, 4) == VERSION <==> b[..8] == [0x58, 0x49, 0x4D, 0x46, 8, 0, 0, 0]
  {
    FourBytes(b, 0, MAGIC);
    FourBytes(b, 4, VERSION);
    var s := b[..8];
    assert s == [b[0], b[1], b[2], b[3], b[4], b[5], b[6], b[7]];
  }

  lemma WordsMean(b: seq<Byte>)
    requires |b| >= 32
    ensures NumbersAt(b, 0, 4, 6) == [U32(b, 0), U32(b, 4), U32(b, 8), U32(b, 12), U32(b, 16), U32(b, 20)]
    ensures NumberAt(b, 24, 8) == U64(b, 24)
  {
    hide NumberAt, U32;
    NumberIs64(b, 24);
    var w := NumbersAt(b, 0, 4, 6);
    NumberIs32(b, 0);
    NumberIs32(b, 4);
    NumberIs32(b, 8);
    NumberIs32(b, 12);
    NumberIs32(b, 16);
    NumberIs32(b, 20);
    assert w[0] == U32(b, 0) && w[1] == U32(b, 4) && w[2] == U32(b, 8) && w[3] == U32(b, 12) && w[4] == U32(b, 16)
           && w[5] == U32(b, 20);
  }

  /** The scalars of a front. */
  function FrontHeader(b: seq<Byte>): Header
    requires |b| >= 32
  {
    Header(U32(b, 8), U32(b, 12), U32(b, 16), b[20] % 2 == 1, b[20] / 2 % 2 == 1, b[21], U64(b, 24), [], [], [], 0)
  }

  lemma FrontParsed(b: seq<Byte>)
    ensures ParseScalars(b) == if FrontGood(b) then Some(FrontHeader(b)) else None
  {
    hide NumberAt, NumbersAt, U32, U64, LevelsFor, LevelsGood;
    if |b| >= 32 {
      WordsMean(b);
      FlagBytesMean(b);
      MagicMeans(b);
      LevelsMean(U32(b, 12), U32(b, 16));
      U32Small(b, 8);
    }
  }

  // ----- where the parts are -----

  /** h holds the scalars of the front. */
  predicate Agrees(b: seq<Byte>, h: Header) {
    && FrontGood(b)
    && h.rate == RateOf(b) && h.sigma == SigmaOf(b) && h.qlevels == LevelsOf(b) && h.textLen == LengthOf(b)
    && (h.wide <==> b[20] / 2 % 2 == 1)
  }

  lemma HeadPlaces(b: seq<Byte>, h: Header)
    requires Agrees(b, h)
    ensures HeadSize(h.sigma, h.qlevels) == LevelOffset(b, 0) == SizesOffset(b, LevelsOf(b) + 3)
    ensures HeadSize(h.sigma, h.qlevels) - 8 * (h.qlevels + 3) == SizesOffset(b, 0)
    ensures h.sigma <= 258 && h.qlevels <= 5
  {}

  lemma LevelPlaces(b: seq<Byte>, h: Header, l: nat)
    requires Agrees(b, h)
    ensures LevelStart(h, l) == LevelOffset(b, l)
    ensures QuadVectors.WordCount(h.textLen + 1) * 8 == LevelBytes(b)
  {
    HeadPlaces(b, h);
    hide FrontGood;
  }

  lemma SectionPlaces(b: seq<Byte>, h: Header)
    requires Agrees(b, h)
    ensures QuadsEnd(h) == FlagsOffset(b) && SampledEnd(h) == SamplesOffset(b) && SamplesEnd(h) == SamplesStop(b)
    ensures BoundsStart(h) == BoundsOffset(b)
    ensures SamplesIn(h) == SampleTotal(b) && SampleWidth(h) == SampleBytes(b)
    ensures BitVectors.WordCount(h.textLen + 1) * 8 == FlagBytes(b)
  {
    LevelPlaces(b, h, h.qlevels);
    assert QuadsEnd(h) == LevelStart(h, h.qlevels);
    hide FrontGood, LevelStart, QuadsEnd, FlagsOffset, LevelOffset;
    RoundedUp(SamplesEnd(h));
  }

  lemma RoundedUp(p: nat)
    ensures p + Pad(p) == (p + 7) / 8 * 8
  {}

  // ----- the tables -----

  lemma IdMeans(b: seq<Byte>, x: nat, sigma: nat)
    requires 36 + 4 * x <= |b| && sigma <= 258
    ensures IdOk(Signed32(NumberAt(b, 32 + x * 4, 4)), sigma) <==> IdGood(b, x, sigma)
  {
    NumberIs32(b, 32 + x * 4);
    hide U32, NumberAt;
  }

  lemma IdsMean(b: seq<Byte>, sigma: nat)
    requires |b| >= 1056 && sigma <= 258
    ensures (forall x :: 0 <= x < 256 ==> IdOk(SignedAll(NumbersAt(b, 32, 4, 256))[x], sigma))
       <==> (forall x: nat :: x < 256 ==> IdGood(b, x, sigma))
  {
    hide IdOk, IdGood, NumberAt, Signed32;
    forall x: nat | x < 256
      ensures IdOk(SignedAll(NumbersAt(b, 32, 4, 256))[x], sigma) <==> IdGood(b, x, sigma)
    {
      IdMeans(b, x, sigma);
    }
  }

  /** The section sizes as they stand. */
  function SizesIn(b: seq<Byte>): (z: seq<nat>)
    requires FrontGood(b) && SizesOffset(b, LevelsOf(b) + 3) <= |b|
    ensures |z| == LevelsOf(b) + 3
    ensures forall s: nat :: s < LevelsOf(b) + 3 ==> z[s] == U64(b, SizesOffset(b, s))
  {
    seq(LevelsOf(b) + 3, (s: nat) requires s < LevelsOf(b) + 3 => U64(b, SizesOffset(b, s)))
  }

  lemma SizesRead(b: seq<Byte>, h: Header)
    requires Agrees(b, h) && HeadSize(h.sigma, h.qlevels) <= |b| && SizesOffset(b, LevelsOf(b) + 3) <= |b|
    ensures SizesOffset(b, 0) + (h.qlevels + 3) * 8 == HeadSize(h.sigma, h.qlevels)
    ensures NumbersAt(b, SizesOffset(b, 0), 8, h.qlevels + 3) == SizesIn(b)
  {
    HeadPlaces(b, h);
    hide FrontGood, NumberAt, U64;
    var w := NumbersAt(b, SizesOffset(b, 0), 8, h.qlevels + 3);
    forall s: nat | s < h.qlevels + 3
      ensures w[s] == SizesIn(b)[s]
    {
      NumberIs64(b, SizesOffset(b, s));
    }
  }

  lemma SizesEqual(w: seq<nat>, z: seq<nat>, q: nat, a: nat, c: nat, d: nat)
    requires |w| == |z| == q + 3 && w[q + 2] == z[q + 2]
    requires (forall l: nat :: l < q ==> z[l] == a) && z[q] == c && z[q + 1] == d
    ensures w == z <==> (forall l: nat :: l < q ==> w[l] == a) && w[q] == c && w[q + 1] == d
  {
    if (forall l: nat :: l < q ==> w[l] == a) && w[q] == c && w[q + 1] == d {
      assert forall s: nat :: s < q + 3 ==> w[s] == z[s];
    }
  }

  lemma SizesMean(b: seq<Byte>, h: Header)
    requires Agrees(b, h) && SizesOffset(b, LevelsOf(b) + 3) <= |b| && h.bounds == BoundsTotal(b)
    ensures SizesIn(b) == SectionSizes(h)
       <==> (forall l: nat :: l < LevelsOf(b) ==> SizesIn(b)[l] == (LengthOf(b) + 1 + 31) / 32)
            && SizesIn(b)[LevelsOf(b)] == (LengthOf(b) + 1 + 63) / 64 && SizesIn(b)[LevelsOf(b) + 1] == SampleTotal(b)
  {
    SizesWanted(b, h);
    hide FrontGood, U64, SampleTotal, SizesOffset, SectionSizes;
    SizesEqual(SizesIn(b), SectionSizes(h), h.qlevels, (LengthOf(b) + 1 + 31) / 32, (LengthOf(b) + 1 + 63) / 64,
               SampleTotal(b));
  }

  lemma SizesWanted(b: seq<Byte>, h: Header)
    requires Agrees(b, h)
    ensures var z, q := SectionSizes(h), h.qlevels;
            && |z| == q + 3 && (forall l: nat :: l < q ==> z[l] == (LengthOf(b) + 1 + 31) / 32)
            && z[q] == (LengthOf(b) + 1 + 63) / 64 && z[q + 1] == SampleTotal(b) && z[q + 2] == h.bounds
  {
    SectionPlaces(b, h);
    hide FrontGood, SamplesIn, SampleTotal;
  }

  /** The whole header, if the tables are good. */
  lemma HeadParsed(b: seq<Byte>)
    ensures ParseHead(b).Some? <==> FrontGood(b) && TablesGood(b)
    ensures ParseHead(b).Some? ==> Agrees(b, ParseHead(b).value) && ParseHead(b).value.bounds == BoundsTotal(b)
  {
    FrontParsed(b);
    if FrontGood(b) {
      var h := FrontHeader(b);
      assert Agrees(b, h);
      HeadPlaces(b, h);
      if HeadSize(h.sigma, h.qlevels) <= |b| {
        TablesParsed(b, h);
      }
    }
  }

  predicate IdsGood(b: seq<Byte>)
    requires FrontGood(b) && |b| >= 1056
  {
    forall x: nat :: x < 256 ==> IdGood(b, x, SigmaOf(b))
  }

  lemma TablesOkParts(b: seq<Byte>, h: Header)
    requires Agrees(b, h) && HeadSize(h.sigma, h.qlevels) <= |b| && SizesOffset(b, LevelsOf(b) + 3) <= |b| && |b| >= 1056
    requires h.bounds == BoundsTotal(b) && h.ids == SignedAll(NumbersAt(b, 32, 4, 256))
    ensures TablesOk(b, h) <==> IdsGood(b) && SizesIn(b) == SectionSizes(h) && 0 < BoundsTotal(b) <= LengthOf(b) + 1
  {
    hide NumberAt, NumbersAt, SignedAll, IdOk, IdsGood, SectionSizes, U64, FrontGood, SizesOffset, HeadSize, SizesIn;
    hide BoundsTotal;
    HeadPlaces(b, h);
    SizesRead(b, h);
    IdsOf(b, h.ids, h.sigma);
    assert HeadSize(h.sigma, h.qlevels) - 8 * (h.qlevels + 3) == SizesOffset(b, 0);
  }

  lemma IdsOf(b: seq<Byte>, ids: seq<int>, sigma: nat)
    requires FrontGood(b) && sigma == SigmaOf(b) && |b| >= 1056 && ids == SignedAll(NumbersAt(b, 32, 4, 256))
    ensures (forall x :: 0 <= x < 256 ==> IdOk(ids[x], sigma)) <==> IdsGood(b)
  {
    assert sigma <= 258;
    hide IdOk, IdGood, NumbersAt, SignedAll, FrontGood;
    IdsMean(b, sigma);
  }

  lemma TablesGoodParts(b: seq<Byte>)
    requires FrontGood(b) && SizesOffset(b, LevelsOf(b) + 3) <= |b|
    ensures |b| >= 1056
    ensures TablesGood(b)
       <==> IdsGood(b) && 0 < BoundsTotal(b) <= LengthOf(b) + 1
            && (forall l: nat :: l < LevelsOf(b) ==> SizesIn(b)[l] == (LengthOf(b) + 1 + 31) / 32)
            && SizesIn(b)[LevelsOf(b)] == (LengthOf(b) + 1 + 63) / 64 && SizesIn(b)[LevelsOf(b) + 1] == SampleTotal(b)
  {
    assert SizesOffset(b, LevelsOf(b) + 3) >= 1056;
    hide IdGood, U64, FrontGood, SizesOffset, BoundsTotal, SampleTotal;
    assert forall s: nat :: s < LevelsOf(b) + 3 ==> SizesIn(b)[s] == U64(b, SizesOffset(b, s));
  }

  lemma TablesMean(b: seq<Byte>, h: Header)
    requires Agrees(b, h) && HeadSize(h.sigma, h.qlevels) <= |b| && SizesOffset(b, LevelsOf(b) + 3) <= |b| && |b| >= 1056
    requires h.bounds == BoundsTotal(b) && h.ids == SignedAll(NumbersAt(b, 32, 4, 256))
    ensures TablesOk(b, h) <==> TablesGood(b)
  {
    TablesOkParts(b, h);
    TablesGoodParts(b);
    SizesMean(b, h);
    hide *;
  }

  lemma TablesParsed(b: seq<Byte>, h: Header)
    requires Agrees(b, h) && HeadSize(h.sigma, h.qlevels) <= |b|
    ensures ParseTables(b, h).Some? <==> TablesGood(b)
    ensures ParseTables(b, h).Some? ==>
              Agrees(b, ParseTables(b, h).value) && ParseTables(b, h).value.bounds == BoundsTotal(b)
  {
    HeadPlaces(b, h);
    hide NumberAt, NumbersAt, SignedAll, TablesOk, TablesGood, U64, FrontGood;
    var h' := h.(ids := SignedAll(NumbersAt(b, 32, 4, 256)), c := NumbersAt(b, 1056, 8, h.sigma),
                 starts := StartsAt(b, h), bounds := NumberAt(b, HeadSize(h.sigma, h.qlevels) - 8, 8));
    NumberIs64(b, SizesOffset(b, LevelsOf(b) + 2));
    assert HeadSize(h.sigma, h.qlevels) - 8 == SizesOffset(b, LevelsOf(b) + 2);
    TablesMean(b, h');
  }

  // ----- packed words -----

  /** A word of a section is made of the eight bytes that stand there. */
  lemma WordStands(b: seq<Byte>, off: nat, n: nat, j: nat)
    requires off + n * 8 <= |b| && j < n
    ensures off + 8 * j + 8 <= |b| && WordsAt(b, off, n)[j] == WordOf(b[off + 8 * j..off + 8 * j + 8])
  {
    hide Le, UnLe, WordOf;
    ReadWritten(b[off + 8 * j..off + 8 * j + 8]);
  }

  lemma DigitMeans(b: seq<Byte>, off: nat, n: nat, i: nat)
    requires off + n * 8 <= |b| && i / 32 < n
    ensures off + i / 4 < |b| && DigitAt(WordsAt(b, off, n), i) == DigitIn(b, off, i)
  {
    var j, t := i / 32, i % 32;
    assert i == 32 * j + t && i / 4 == 8 * j + t / 4 && i % 4 == t % 4;
    hide WordsAt, WordOf, Lane, Quarter;
    WordStands(b, off, n, j);
    var s := b[off + 8 * j..off + 8 * j + 8];
    LaneInByte(s, t);
    LaneDigit(WordOf(s), t, Quarter(s[t / 4], t % 4));
  }

  lemma FlagMeans(b: seq<Byte>, off: nat, n: nat, i: nat)
    requires off + n * 8 <= |b| && i / 64 < n
    ensures off + i / 8 < |b| && BitVectors.BitOf(WordsAt(b, off, n), i) == FlagIn(b, off, i)
  {
    var j, t := i / 64, i % 64;
    assert i == 64 * j + t && i / 8 == 8 * j + t / 8 && i % 8 == t % 8;
    hide WordsAt, WordOf, Bit, Eighth;
    WordStands(b, off, n, j);
    BitInByte(b[off + 8 * j..off + 8 * j + 8], t);
  }

  // ----- the sections -----

  /** A good header, with the tables that stand behind it. */
  ghost predicate HeadHeld(b: seq<Byte>, h: Header) {
    && ParseHead(b) == Some(h) && Agrees(b, h) && TablesGood(b) && h.bounds == BoundsTotal(b)
    && LevelOffset(b, 0) <= |b| && StartsOffset(b, LevelsOf(b), 0) <= |b|
    && |h.starts| == h.qlevels && |h.ids| == 256 && |h.c| == h.sigma
    && (forall l: nat, d: nat :: l < h.qlevels && d < 4 ==> StartHeld(b, h, l, d))
    && (forall x: nat :: x < 256 ==> h.ids[x] == Signed32(U32(b, 32 + 4 * x)))
    && (forall x: nat :: x < h.sigma ==> h.c[x] == U64(b, 1056 + 8 * x))
  }

  ghost predicate StartHeld(b: seq<Byte>, h: Header, l: nat, d: nat)
    requires FrontGood(b) && l < |h.starts| && StartsOffset(b, l, d) + 8 <= |b|
  {
    |h.starts[l]| == 4 && (d < 4 ==> h.starts[l][d] == U64(b, StartsOffset(b, l, d)))
  }

  lemma IdsHeld(b: seq<Byte>)
    requires |b| >= 1056
    ensures forall x: nat :: x < 256 ==> SignedAll(NumbersAt(b, 32, 4, 256))[x] == Signed32(U32(b, 32 + 4 * x))
  {
    hide NumberAt, U32, Signed32;
    forall x: nat | x < 256
      ensures SignedAll(NumbersAt(b, 32, 4, 256))[x] == Signed32(U32(b, 32 + 4 * x))
    {
      NumberIs32(b, 32 + 4 * x);
    }
  }

  lemma TableHeld(b: seq<Byte>, off: nat, n: nat)
    requires off + n * 8 <= |b|
    ensures forall x: nat :: x < n ==> off + 8 * x + 8 <= |b| && NumbersAt(b, off, 8, n)[x] == U64(b, off + 8 * x)
  {
    hide NumberAt, U64;
    forall x: nat | x < n
      ensures off + 8 * x + 8 <= |b| && NumbersAt(b, off, 8, n)[x] == U64(b, off + 8 * x)
    {
      NumberIs64(b, off + 8 * x);
    }
  }

  lemma StartsHeld(b: seq<Byte>, h: Header, l: nat)
    requires FrontGood(b) && h.sigma == SigmaOf(b) && h.qlevels == LevelsOf(b) && l < h.qlevels
    requires HeadSize(h.sigma, h.qlevels) <= |b| && h.starts == StartsAt(b, h)
    ensures StartsOffset(b, l, 4) <= |b| && forall d: nat :: d < 4 ==> StartHeld(b, h, l, d)
  {
    hide FrontGood, NumbersAt, U64;
    assert h.starts[l] == NumbersAt(b, 8 * (132 + h.sigma + 4 * l), 8, 4);
    TableHeld(b, 8 * (132 + h.sigma + 4 * l), 4);
  }

  lemma HeadTables(b: seq<Byte>)
    requires ParseHead(b).Some?
    ensures var h := ParseHead(b).value;
            && |b| >= HeadSize(h.sigma, h.qlevels) >= 1056 + 8 * h.sigma
            && h.ids == SignedAll(NumbersAt(b, 32, 4, 256)) && h.c == NumbersAt(b, 1056, 8, h.sigma)
            && h.starts == StartsAt(b, h)
  {
    hide NumberAt, ParseScalars, SignedAll, TablesOk;
  }

  lemma HeadHolds(b: seq<Byte>)
    requires ParseHead(b).Some?
    ensures HeadHeld(b, ParseHead(b).value)
  {
    HeadParsed(b);
    HeadTables(b);
    var h := ParseHead(b).value;
    HeadPlaces(b, h);
    IdsHeld(b);
    TableHeld(b, 1056, h.sigma);
    hide FrontGood, TablesGood, ParseHead, U32, U64, HeadSize, SignedAll, NumbersAt, Signed32, StartHeld, BoundsTotal;
    forall l: nat, d: nat | l < h.qlevels && d < 4
      ensures StartsOffset(b, l, d) + 8 <= |b| && StartHeld(b, h, l, d)
    {
      StartsHeld(b, h, l);
    }
  }

  // ----- each section -----

  /** The blob has a good header and room for its sections. */
  ghost predicate RoomFor(b: seq<Byte>, h: Header) {
    HeadHeld(b, h) && SectionsThere(b) && BlobSize(h) <= |b|
  }

  lemma RoomMeans(b: seq<Byte>, h: Header)
    requires HeadHeld(b, h)
    ensures BlobSize(h) <= |b| <==> SectionsThere(b)
  {
    SectionPlaces(b, h);
    hide FrontGood, TablesGood, BoundsOffset, BoundsStart, ParseHead, BoundsTotal, StartHeld;
  }

  lemma LevelDigits(b: seq<Byte>, h: Header, l: nat, i: nat)
    requires RoomFor(b, h) && QuadsEnd(h) <= |b| && l < h.qlevels && i <= h.textLen
    ensures LevelOffset(b, l) + i / 4 < |b|
    ensures Digits(QuadsAt(b, h)[l], h.textLen + 1)[i] == DigitIn(b, LevelOffset(b, l), i)
  {
    hide FrontGood, TablesGood, HeadHeld, ParseHead, WordsAt, DigitAt, DigitIn, LevelOffset, LevelStart;
    assert Agrees(b, h) by { AgreesHere(b, h); }
    LevelPlaces(b, h, l);
    assert LevelFits(b, h, l);
    DigitMeans(b, LevelStart(h, l), QuadVectors.WordCount(h.textLen + 1), i);
  }

  lemma AgreesHere(b: seq<Byte>, h: Header)
    requires HeadHeld(b, h)
    ensures Agrees(b, h) && TablesGood(b)
  {}

  /** Counting smaller entries is counting the places that hold them. */
  lemma StartCounts(D: seq<nat>, d: nat, smaller: set<nat>)
    requires d < 4 && forall i: nat :: i in smaller <==> i < |D| && D[i] < d
    ensures Starts(D)[d] == |smaller|
  {
    CountBelowIsCard(D, d, |D|);
    assert IndicesBelow(D, d, |D|) == smaller;
  }

  lemma StartHere(b: seq<Byte>, h: Header, l: nat, d: nat)
    requires RoomFor(b, h) && l < h.qlevels && d < 4
    ensures FrontGood(b) && |h.starts| == h.qlevels && StartsOffset(b, l, d) + 8 <= |b| && StartHeld(b, h, l, d)
  {}

  lemma StartMeans(b: seq<Byte>, h: Header, l: nat, d: nat)
    requires RoomFor(b, h) && QuadsEnd(h) <= |b| && TablesGood(b) && l < h.qlevels == LevelsOf(b) && d < 4
    ensures |h.starts[l]| == 4
    ensures h.starts[l][d] == Starts(Digits(QuadsAt(b, h)[l], h.textLen + 1))[d] <==> StartGood(b, l, d)
  {
    hide FrontGood, TablesGood, HeadHeld, ParseHead, Digits, QuadsAt, DigitIn, LevelOffset, Starts, QuadsEnd, U64;
    hide RoomFor;
    RoomThere(b, h);
    StartHere(b, h, l, d);
    var D := Digits(QuadsAt(b, h)[l], h.textLen + 1);
    DigitsThere(b, l);
    forall i: nat | i < |D|
      ensures D[i] == DigitIn(b, LevelOffset(b, l), i)
    {
      LevelDigits(b, h, l, i);
    }
    StartCounts(D, d, set i: nat | i <= LengthOf(b) && DigitIn(b, LevelOffset(b, l), i) < d);
  }

  lemma FourSame(s: seq<nat>, t: seq<nat>)
    requires |s| == |t| == 4
    ensures s == t <==> forall d: nat :: d < 4 ==> s[d] == t[d]
  {}

  lemma LevelMeans(b: seq<Byte>, h: Header, l: nat)
    requires RoomFor(b, h) && QuadsEnd(h) <= |b| && TablesGood(b) && l < h.qlevels == LevelsOf(b)
    ensures h.starts[l] == Starts(Digits(QuadsAt(b, h)[l], h.textLen + 1)) <==> StartsGood(b, l)
  {
    hide FrontGood, TablesGood, HeadHeld, ParseHead, Digits, QuadsAt, Starts, QuadsEnd, StartGood, RoomFor;
    RoomThere(b, h);
    forall d: nat | d < 4
      ensures |h.starts[l]| == 4
      ensures h.starts[l][d] == Starts(Digits(QuadsAt(b, h)[l], h.textLen + 1))[d] <==> StartGood(b, l, d)
    {
      StartMeans(b, h, l, d);
    }
    StartMeans(b, h, l, 0);
    FourSame(h.starts[l], Starts(Digits(QuadsAt(b, h)[l], h.textLen + 1)));
  }

  lemma FlagCounts(F: seq<nat>, ones: set<nat>)
    requires forall i: nat :: i in ones <==> i < |F| && F[i] == 1
    ensures Count(F, 1, |F|) == |ones|
  {
    CountIsCard(F, 1, |F|);
    assert Indices(F, 1, |F|) == ones;
  }

  /** The flags of a section, one by one. */
  lemma FlagsRead(b: seq<Byte>, off: nat, m: nat)
    requires off + BitVectors.WordCount(m) * 8 <= |b|
    ensures forall i: nat :: i < m ==>
              off + i / 8 < |b|
              && BitVectors.Bits(WordsAt(b, off, BitVectors.WordCount(m)), m)[i] == FlagIn(b, off, i)
  {
    hide FlagIn, WordsAt, BitVectors.BitOf;
    forall i: nat | i < m
      ensures off + i / 8 < |b|
      ensures BitVectors.Bits(WordsAt(b, off, BitVectors.WordCount(m)), m)[i] == FlagIn(b, off, i)
    {
      FlagMeans(b, off, BitVectors.WordCount(m), i);
    }
  }

  lemma FlagsCounted(b: seq<Byte>, off: nat, m: nat, ones: set<nat>)
    requires off + BitVectors.WordCount(m) * 8 <= |b| && forall r: nat :: r < m ==> off + r / 8 < |b|
    requires forall r: nat :: r in ones <==> r < m && FlagIn(b, off, r) == 1
    ensures Count(BitVectors.Bits(WordsAt(b, off, BitVectors.WordCount(m)), m), 1, m) == |ones|
  {
    hide FlagIn, WordsAt, BitVectors.Bits, BitVectors.WordCount, Count;
    FlagsRead(b, off, m);
    FlagCounts(BitVectors.Bits(WordsAt(b, off, BitVectors.WordCount(m)), m), ones);
  }

  lemma FlagsMean(b: seq<Byte>, h: Header)
    requires RoomFor(b, h) && SampledEnd(h) <= |b| && TablesGood(b)
    ensures FlagsFit(h, SampledAt(b, h)) <==> FlagsGood(b)
  {
    hide FrontGood, TablesGood, HeadHeld, ParseHead, FlagIn, FlagsOffset, QuadsEnd, WordsAt, SamplesIn, SampleTotal;
    hide RoomFor, BitVectors.Bits, BitVectors.WordCount, Count, SectionsThere, StartHeld;
    RoomThere(b, h);
    SectionPlaces(b, h);
    FlagsThere(b);
    FlagsCounted(b, QuadsEnd(h), h.textLen + 1, set r: nat | r <= LengthOf(b) && FlagIn(b, FlagsOffset(b), r) == 1);
  }

  lemma EntryStands(b: seq<Byte>, off: nat, n: nat, k: nat)
    requires k < n
    ensures off + n * 8 <= |b| ==> off + Times(k, 8) + 8 <= |b| && NumbersAt(b, off, 8, n)[k] == U64(b, off + Times(k, 8))
    ensures off + n * 4 <= |b| ==> off + Times(k, 4) + 4 <= |b| && NumbersAt(b, off, 4, n)[k] == U32(b, off + Times(k, 4))
  {
    hide NumberAt, U32, U64;
    if off + n * 8 <= |b| {
      NumberIs64(b, off + k * 8);
    }
    if off + n * 4 <= |b| {
      NumberIs32(b, off + k * 4);
    }
  }

  lemma TwoWidths(h: Header)
    ensures SampleWidth(h) == 8 || SampleWidth(h) == 4
  {}

  lemma SampleStands(b: seq<Byte>, h: Header, k: nat)
    requires RoomFor(b, h) && SamplesEnd(h) <= |b| && TablesGood(b) && k < SamplesIn(h) == SampleTotal(b)
    ensures SamplesOffset(b) + Times(k + 1, SampleBytes(b)) <= |b|
    ensures SamplesAt(b, h)[k] == SampleIn(b, k)
  {
    hide FrontGood, TablesGood, HeadHeld, ParseHead, SamplesOffset, SamplesIn, SampleTotal, SampledEnd, NumbersAt;
    hide RoomFor, U32, U64, Times, SampleWidth, SampleBytes, SectionsThere;
    RoomThere(b, h);
    assert SampleWidth(h) == 8 || SampleWidth(h) == 4 by { TwoWidths(h); }
    SectionPlaces(b, h);
    SampleThere(b, k);
    EntryStands(b, SamplesOffset(b), SamplesIn(h), k);
  }

  lemma SamplesMean(b: seq<Byte>, h: Header)
    requires RoomFor(b, h) && SamplesEnd(h) <= |b| && TablesGood(b)
    ensures SamplesIn(h) == SampleTotal(b)
    ensures SamplesFit(h, SamplesAt(b, h)) <==> forall k: nat :: k < SampleTotal(b) ==> SampleGood(b, k)
  {
    hide FrontGood, TablesGood, HeadHeld, ParseHead, SamplesIn, SampleTotal, SampleIn, RoomFor, SamplesAt, SectionsThere;
    RoomThere(b, h);
    SectionPlaces(b, h);
    forall k: nat | k < SampleTotal(b)
      ensures SampleOk(h, SamplesAt(b, h)[k]) <==> SectionsThere(b) && SampleGood(b, k)
    {
      SampleStands(b, h, k);
      RoomThere(b, h);
    }
  }

  lemma RoomThere(b: seq<Byte>, h: Header)
    requires RoomFor(b, h)
    ensures FrontGood(b) && TablesGood(b) && SectionsThere(b) && Agrees(b, h)
    ensures BlobSize(h) <= |b| && h.bounds == BoundsTotal(b) > 0 && |h.starts| == h.qlevels
  {}

  lemma BoundStands(b: seq<Byte>, h: Header, i: nat)
    requires RoomFor(b, h) && i < h.bounds
    ensures FrontGood(b) && BoundsOffset(b) + 8 * i + 8 <= |b| && BoundsAt(b, h)[i] == BoundIn(b, i)
  {
    hide FrontGood, TablesGood, HeadHeld, ParseHead, RoomFor, BoundsOffset, BoundsStart, U64, NumberAt;
    RoomThere(b, h);
    SectionPlaces(b, h);
    TableHeld(b, BoundsStart(h), h.bounds);
  }

  /** The boundaries as they stand. */
  function BoundsIn(b: seq<Byte>, n: nat): (v: seq<nat>)
    requires FrontGood(b) && BoundsOffset(b) + 8 * n <= |b|
    ensures |v| == n && forall i: nat :: i < |v| ==> v[i] == BoundIn(b, i)
  {
    seq(n, (i: nat) requires i < n => BoundIn(b, i))
  }

  lemma BoundsRead(b: seq<Byte>, h: Header)
    requires RoomFor(b, h)
    ensures FrontGood(b) && TablesGood(b) && SectionsThere(b) && BoundsAt(b, h) == BoundsIn(b, h.bounds)
  {
    hide FrontGood, TablesGood, HeadHeld, ParseHead, RoomFor, BoundsOffset, BoundsStart, BoundsAt, BoundIn, BlobSize;
    hide BoundsTotal;
    RoomThere(b, h);
    forall i: nat | i < h.bounds
      ensures BoundsAt(b, h)[i] == BoundsIn(b, h.bounds)[i]
    {
      BoundStands(b, h, i);
    }
  }

  lemma BoundsInGood(b: seq<Byte>, n: nat)
    requires FrontGood(b) && TablesGood(b) && SectionsThere(b) && n == BoundsTotal(b) > 0
    ensures var v := BoundsIn(b, n);
            BoundsGood(b) <==> v[0] == 0 && v[|v| - 1] == LengthOf(b) && forall i :: 1 <= i < |v| ==> v[i - 1] < v[i]
  {
    hide FrontGood, TablesGood, BoundsOffset, BoundIn, BoundsTotal;
  }

  lemma BoundsMean(b: seq<Byte>, h: Header)
    requires RoomFor(b, h) && TablesGood(b)
    ensures BoundsFit(h, BoundsAt(b, h)) <==> BoundsGood(b)
  {
    hide FrontGood, TablesGood, HeadHeld, ParseHead, RoomFor, BoundsAt, BoundsIn, BoundsGood, BlobSize;
    RoomThere(b, h);
    BoundsRead(b, h);
    BoundsInGood(b, h.bounds);
  }

  // ----- the whole blob -----

  predicate LevelStartsFit(h: Header, quads: seq<seq<bv64>>, l: nat)
    requires |h.starts| == h.qlevels == |quads| && l < h.qlevels
    requires |quads[l]| == QuadVectors.WordCount(h.textLen + 1)
  {
    h.starts[l] == Starts(Digits(quads[l], h.textLen + 1))
  }

  lemma StartsFitLevels(h: Header, quads: seq<seq<bv64>>)
    requires |h.starts| == h.qlevels == |quads|
    requires forall l :: 0 <= l < h.qlevels ==> |quads[l]| == QuadVectors.WordCount(h.textLen + 1)
    ensures StartsFit(h, quads) <==> forall l: nat :: l < h.qlevels ==> LevelStartsFit(h, quads, l)
  {
    hide Starts, Digits, QuadVectors.WordCount;
    if forall l: nat :: l < h.qlevels ==> LevelStartsFit(h, quads, l) {
      forall l | 0 <= l < h.qlevels
        ensures h.starts[l] == Starts(Digits(quads[l], h.textLen + 1))
      {
        assert LevelStartsFit(h, quads, l);
      }
    }
  }

  lemma LevelAgrees(b: seq<Byte>, h: Header, l: nat)
    requires RoomFor(b, h) && QuadsEnd(h) <= |b| && l < h.qlevels
    ensures FrontGood(b) && TablesGood(b) && SectionsThere(b) && |h.starts| == h.qlevels == LevelsOf(b)
    ensures LevelStartsFit(h, QuadsAt(b, h), l) <==> StartsGood(b, l)
  {
    hide FrontGood, TablesGood, HeadHeld, ParseHead, RoomFor, QuadsAt, Digits, Starts, StartsGood, SectionsThere, QuadsEnd;
    RoomThere(b, h);
    LevelMeans(b, h, l);
  }

  lemma LevelsMeanAll(b: seq<Byte>, h: Header)
    requires RoomFor(b, h) && QuadsEnd(h) <= |b|
    ensures FrontGood(b) && TablesGood(b) && SectionsThere(b) && |h.starts| == h.qlevels
    ensures StartsFit(h, QuadsAt(b, h)) <==> forall l: nat :: l < LevelsOf(b) ==> StartsGood(b, l)
  {
    hide FrontGood, TablesGood, HeadHeld, ParseHead, RoomFor, QuadsAt, StartsGood, SectionsThere, QuadsEnd, StartsFit;
    hide LevelStartsFit, LevelsOf;
    RoomThere(b, h);
    StartsFitLevels(h, QuadsAt(b, h));
    forall l: nat | l < h.qlevels
      ensures LevelStartsFit(h, QuadsAt(b, h), l) <==> StartsGood(b, l)
    {
      LevelAgrees(b, h, l);
    }
  }

  lemma BodyMeans(b: seq<Byte>, h: Header)
    requires RoomFor(b, h)
    ensures BlobSize(h) <= |b| && |h.starts| == h.qlevels && SizesOk(BodyAt(b, h)) && FrontGood(b) && TablesGood(b)
    ensures BodyOk(BodyAt(b, h)) <==> SectionsGood(b)
  {
    hide FrontGood, TablesGood, HeadHeld, ParseHead, RoomFor, QuadsAt, SampledAt, SamplesAt, BoundsAt, SizesOk;
    hide SectionsThere;
    hide StartsFit, FlagsFit, SamplesFit, BoundsFit, StartsGood, FlagsGood, SampleGood, BoundsGood;
    hide QuadsEnd, SampledEnd, SamplesEnd, BlobSize;
    RoomThere(b, h);
    SectionOrder(h);
    BodySizes(b, h);
    LevelsMeanAll(b, h);
    FlagsMean(b, h);
    SamplesMean(b, h);
    BoundsMean(b, h);
  }

  /** The parser accepts exactly the acceptable blobs. */
  lemma AcceptedMeans(b: seq<Byte>)
    ensures Parse(b).Some? <==> Acceptable(b)
  {
    hide FrontGood, TablesGood, SectionsGood, ParseHead, RoomFor, BodyOk, BodyAt, BlobSize, HeadHeld;
    HeadParsed(b);
    if ParseHead(b).Some? {
      var h := ParseHead(b).value;
      HeadHolds(b);
      RoomMeans(b, h);
      if BlobSize(h) <= |b| {
        assert RoomFor(b, h) by { RoomHere(b, h); }
        BodyMeans(b, h);
      } else {
        NoRoom(b);
      }
    }
  }

  lemma RoomHere(b: seq<Byte>, h: Header)
    requires HeadHeld(b, h) && BlobSize(h) <= |b|
    ensures RoomFor(b, h)
  {
    hide HeadHeld, FrontGood, TablesGood, BlobSize, SectionsThere;
    RoomMeans(b, h);
  }

  lemma NoRoom(b: seq<Byte>)
    requires FrontGood(b) && TablesGood(b) && !SectionsThere(b)
    ensures !SectionsGood(b)
  {}
}
