/** Loading an index from a blob: every section is checked before it is used. */
module Loaders {
  import opened Counting
  import opened Corpus
  import opened Construction
  import opened LittleEndian
  import opened QuadVectors
  import opened WaveletTheory
  import opened WaveletMatrices
  import opened Blobs
  import opened BlobTheory
  import opened HeaderReader
  import opened FMIndexes
  import opened Images
  import opened ByteLayout
  import opened ByteReadings
  import opened StoredBytes
  import BitVectors

  /** The next section of count entries, on an 8-byte boundary; sizes that overflow 64 bits are refused. */
  method AlignView(b: seq<Byte>, p: nat, count: nat, width: nat) returns (ok: bool, start: nat, q: nat)
    requires p <= |b| < TWO64 && width > 0
    ensures ok <==> p + Pad(p) + count * width <= |b|
    ensures ok ==> start == p + Pad(p) && q == start + count * width
  {
    start, q := p, p;
    if count > (TWO64 - 1) / width {
      Overflows(count, width);
      return false, start, q;
    }
    var nbytes := count * width;
    var pad := (8 - p % 8) % 8;
    var remaining := |b| - p;
    if pad > remaining || nbytes > remaining - pad {
      return false, start, q;
    }
    return true, p + pad, p + pad + nbytes;
  }

  lemma Overflows(count: nat, width: nat)
    requires width > 0 && count > (TWO64 - 1) / width
    ensures count * width >= TWO64
  {
    FloorMultiple(TWO64 - 1, width);
    MulMonotone((TWO64 - 1) / width + 1, count, width);
  }

  lemma StaysAligned(a: nat, k: nat)
    requires a % 8 == 0
    ensures (a + k * 8) % 8 == 0
  {}

  lemma LevelAligned(h: Header, l: nat)
    ensures LevelStart(h, l) % 8 == 0
  {
    hide HeadSize, QuadVectors.WordCount;
    var w := QuadVectors.WordCount(h.textLen + 1);
    assert l * (w * 8) == l * w * 8;
    StaysAligned(HeadSize(h.sigma, h.qlevels), l * w);
  }

  lemma SectionsAligned(h: Header)
    ensures QuadsEnd(h) % 8 == 0 && SampledEnd(h) % 8 == 0
  {
    hide HeadSize, QuadVectors.WordCount, BitVectors.WordCount;
    LevelAligned(h, h.qlevels);
    StaysAligned(QuadsEnd(h), BitVectors.WordCount(h.textLen + 1));
  }

  // ----- what each part needs -----

  predicate MatrixFits(b: seq<Byte>, h: Header) {
    QuadsEnd(h) <= |b| && |h.starts| == h.qlevels && StartsFit(h, QuadsAt(b, h))
  }

  predicate SampleFits(b: seq<Byte>, h: Header) {
    && SampledEnd(h) <= SamplesEnd(h) <= |b|
    && FlagsFit(h, SampledAt(b, h)) && SamplesFit(h, SamplesAt(b, h))
  }

  predicate BoundFits(b: seq<Byte>, h: Header) {
    BlobSize(h) <= |b| && BoundsFit(h, BoundsAt(b, h))
  }

  // ----- the wavelet matrix -----

  /** A level's packed words, viewed. */
  ghost predicate ViewedLevel(q: QuadVector, b: seq<Byte>, h: Header, l: nat)
    requires l < h.qlevels && QuadsEnd(h) <= |b|
    reads q
  {
    q.Valid() && q.n == h.textLen + 1 && q.words == QuadsAt(b, h)[l]
  }

  lemma LevelRoom(b: seq<Byte>, h: Header, l: nat)
    requires l < h.qlevels
    ensures LevelStart(h, l + 1) == LevelStart(h, l) + QuadVectors.WordCount(h.textLen + 1) * 8 <= QuadsEnd(h)
  {}

  /** Where one level's words are. */
  method LevelView(b: seq<Byte>, h: Header, l: nat, p0: nat) returns (ok: bool, start: nat, p: nat)
    requires l < h.qlevels && p0 == LevelStart(h, l) <= |b| < TWO64
    ensures ok <==> LevelStart(h, l + 1) <= |b|
    ensures ok ==> start == p0 && p == LevelStart(h, l + 1) == start + QuadVectors.WordCount(h.textLen + 1) * 8
    ensures LevelStart(h, l + 1) <= QuadsEnd(h)
  {
    hide QuadVectors.WordCount, HeadSize, QuadsEnd, LevelStart;
    assert Pad(p0) == 0 by { LevelAligned(h, l); }
    hide Pad;
    LevelRoom(b, h, l);
    ok, start, p := AlignView(b, p0, QuadVectors.WordCount(h.textLen + 1), 8);
  }

  method ReadQuads(b: seq<Byte>, h: Header, p0: nat) returns (ok: bool, qvs: seq<QuadVector>, p: nat)
    requires p0 == HeadSize(h.sigma, h.qlevels) <= |b| < TWO64
    ensures ok <==> QuadsEnd(h) <= |b|
    ensures fresh(qvs)
    ensures ok ==> p == QuadsEnd(h) && |qvs| == h.qlevels
    ensures ok ==> forall l :: 0 <= l < h.qlevels ==> ViewedLevel(qvs[l], b, h, l)
  {
    hide QuadVectors.WordCount, HeadSize, WordsAt, DirectoryOk;
    qvs, p := [], p0;
    var l := 0;
    while l < h.qlevels
      invariant 0 <= l <= h.qlevels && |qvs| == l && p == LevelStart(h, l) <= |b| && fresh(qvs)
      invariant QuadsEnd(h) <= |b| ==> forall k :: 0 <= k < l ==> ViewedLevel(qvs[k], b, h, k)
    {
      var start;
      ok, start, p := LevelView(b, h, l, p);
      if !ok {
        return;
      }
      var words := WordsAt(b, start, QuadVectors.WordCount(h.textLen + 1));
      var q := new QuadVector.View(h.textLen + 1, words, h.wpb);
      qvs := qvs + [q];
      l := l + 1;
    }
    ok := true;
  }

  /** The stored group starts agree with the ones counted from the packed digits. */
  method StartsAgree(qvs: seq<QuadVector>, starts: seq<seq<nat>>, m: nat) returns (ok: bool)
    requires |qvs| == |starts|
    requires forall l :: 0 <= l < |qvs| ==>
               qvs[l].Valid() && qvs[l].n == m && |qvs[l].words| == QuadVectors.WordCount(m)
    ensures ok <==> forall l :: 0 <= l < |qvs| ==> starts[l] == Starts(Digits(qvs[l].words, m))
  {
    hide Count, CountBelow, Digits, DirectoryOk;
    var l := 0;
    while l < |qvs|
      invariant 0 <= l <= |qvs|
      invariant forall k :: 0 <= k < l ==> starts[k] == Starts(Digits(qvs[k].words, m))
    {
      var c0 := qvs[l].Rank(0, m);
      var c1 := qvs[l].Rank(1, m);
      var c2 := qvs[l].Rank(2, m);
      StartsCounted(qvs[l].Contents(), c0, c1, c2);
      if starts[l] != [0, c0, c0 + c1, c0 + c1 + c2] {
        return false;
      }
      l := l + 1;
    }
    return true;
  }

  lemma StartsEntries(D: seq<nat>)
    ensures Starts(D)[0] == 0
    ensures Starts(D)[1] == Count(D, 0, |D|)
    ensures Starts(D)[2] == Count(D, 0, |D|) + Count(D, 1, |D|)
    ensures Starts(D)[3] == Count(D, 0, |D|) + Count(D, 1, |D|) + Count(D, 2, |D|)
  {
    hide Starts, Count, CountBelow;
    var n := |D|;
    CountBelowZero(D, n);
    CountBelowStep(D, 0, n);
    CountBelowStep(D, 1, n);
    CountBelowStep(D, 2, n);
  }

  lemma StartsCounted(D: seq<nat>, c0: nat, c1: nat, c2: nat)
    requires c0 == Count(D, 0, |D|) && c1 == Count(D, 1, |D|) && c2 == Count(D, 2, |D|)
    ensures Starts(D) == [0, c0, c0 + c1, c0 + c1 + c2]
  {
    StartsEntries(D);
    FourEntries(Starts(D), 0, c0, c0 + c1, c0 + c1 + c2);
  }

  lemma FourEntries(s: seq<nat>, a: nat, b: nat, c: nat, d: nat)
    requires |s| == 4 && s[0] == a && s[1] == b && s[2] == c && s[3] == d
    ensures s == [a, b, c, d]
  {}

  /** A matrix over the blob's packed digits. */
  ghost predicate ViewedMatrix(wm: WaveletMatrix4, first: seq<nat>, b: seq<Byte>, h: Header)
    requires QuadsEnd(h) <= |b|
    reads wm, wm.qv
  {
    && wm.Usable() && wm.n == h.textLen + 1 && wm.qlevels == h.qlevels && wm.start == h.starts
    && (forall l :: 0 <= l < h.qlevels ==> wm.qv[l].words == QuadsAt(b, h)[l])
    && |first| == h.sigma && (forall x: nat :: x < h.sigma ==> first[x] == Descend(wm.digits, wm.n, x, 0, wm.qlevels))
  }

  method ReadMatrix(b: seq<Byte>, h: Header, p0: nat) returns (ok: bool, wm: WaveletMatrix4, first: seq<nat>, p: nat)
    requires p0 == HeadSize(h.sigma, h.qlevels) <= |b| < TWO64 && |h.starts| == h.qlevels
    ensures ok <==> MatrixFits(b, h)
    ensures fresh(wm) && fresh(wm.qv)
    ensures ok ==> p == QuadsEnd(h) <= |b| && ViewedMatrix(wm, first, b, h)
  {
    hide HeadSize, QuadsEnd, DirectoryOk, Digits, Starts, BlockSize, QuadsAt, ViewedMatrix, ViewedLevel, StartsFit;
    first := [];
    var qvs;
    ok, qvs, p := ReadQuads(b, h, p0);
    if ok {
      AgreeIsFit(b, h, qvs);
      ok := StartsAgree(qvs, h.starts, h.textLen + 1);
    }
    if ok {
      wm, first := MakeMatrix(b, h, qvs);
    } else {
      wm := new WaveletMatrix4.Empty();
    }
  }

  lemma AgreeIsFit(b: seq<Byte>, h: Header, qvs: seq<QuadVector>)
    requires |h.starts| == h.qlevels == |qvs| && QuadsEnd(h) <= |b|
    requires forall l :: 0 <= l < h.qlevels ==> ViewedLevel(qvs[l], b, h, l)
    ensures forall l :: 0 <= l < h.qlevels ==>
              qvs[l].Valid() && qvs[l].n == h.textLen + 1 && |qvs[l].words| == QuadVectors.WordCount(h.textLen + 1)
    ensures (forall l :: 0 <= l < h.qlevels ==> h.starts[l] == Starts(Digits(qvs[l].words, h.textLen + 1)))
       <==> StartsFit(h, QuadsAt(b, h))
  {
    hide QuadsEnd, DirectoryOk, Digits, Starts, BlockSize, QuadsAt, QuadVectors.WordCount, WordsAt;
    forall l | 0 <= l < h.qlevels
      ensures qvs[l].Valid() && qvs[l].n == h.textLen + 1 && qvs[l].words == QuadsAt(b, h)[l]
    {
      assert ViewedLevel(qvs[l], b, h, l);
    }
  }

  /** The digits of the blob's levels. */
  ghost function DigitRows(b: seq<Byte>, h: Header): (rows: seq<seq<nat>>)
    requires QuadsEnd(h) <= |b|
    ensures |rows| == h.qlevels
    ensures forall l :: 0 <= l < h.qlevels ==> rows[l] == Digits(QuadsAt(b, h)[l], h.textLen + 1)
  {
    seq(h.qlevels, l requires 0 <= l < h.qlevels => Digits(QuadsAt(b, h)[l], h.textLen + 1))
  }

  method MakeMatrix(b: seq<Byte>, h: Header, qvs: seq<QuadVector>) returns (wm: WaveletMatrix4, first: seq<nat>)
    requires |h.starts| == h.qlevels == |qvs| && QuadsEnd(h) <= |b| && StartsFit(h, QuadsAt(b, h))
    requires forall l :: 0 <= l < h.qlevels ==> ViewedLevel(qvs[l], b, h, l)
    ensures fresh(wm) && wm.qv == qvs && ViewedMatrix(wm, first, b, h)
  {
    hide QuadsEnd, DirectoryOk, Descend, Digits, Starts, BlockSize, QuadsAt, WaveletMatrix4.Usable, DigitRows;
    hide StartsFit;
    hide ViewedMatrix, ViewedLevel;
    LevelsFit(b, h, qvs);
    wm := new WaveletMatrix4.FromParts(h.textLen + 1, h.qlevels, qvs, h.starts, DigitRows(b, h));
    first := GroupStarts(wm, h.sigma);
    MatrixViewed(wm, first, b, h);
  }

  lemma LevelsFit(b: seq<Byte>, h: Header, qvs: seq<QuadVector>)
    requires |h.starts| == h.qlevels == |qvs| && QuadsEnd(h) <= |b| && StartsFit(h, QuadsAt(b, h))
    requires forall l :: 0 <= l < h.qlevels ==> ViewedLevel(qvs[l], b, h, l)
    ensures forall l :: 0 <= l < h.qlevels ==>
              && qvs[l].Valid() && qvs[l].n == h.textLen + 1 && qvs[l].Contents() == DigitRows(b, h)[l]
              && h.starts[l] == Starts(DigitRows(b, h)[l]) && qvs[l].words == QuadsAt(b, h)[l]
  {}

  lemma MatrixViewed(wm: WaveletMatrix4, first: seq<nat>, b: seq<Byte>, h: Header)
    requires wm.Usable() && wm.n == h.textLen + 1 && wm.qlevels == h.qlevels && wm.start == h.starts
             && QuadsEnd(h) <= |b|
    requires forall l :: 0 <= l < h.qlevels ==> wm.qv[l].words == QuadsAt(b, h)[l]
    requires |first| == h.sigma && forall x: nat :: x < h.sigma ==> first[x] == Descend(wm.digits, wm.n, x, 0, wm.qlevels)
    ensures ViewedMatrix(wm, first, b, h)
  {}

  // ----- the sampled suffix array -----

  ghost predicate ViewedFlags(bv: BitVectors.BitVector, b: seq<Byte>, h: Header)
    requires SampledEnd(h) <= |b|
    reads bv
  {
    bv.Valid() && bv.n == h.textLen + 1 && bv.words == SampledAt(b, h)
  }

  method ReadSamples(b: seq<Byte>, h: Header, p0: nat)
    returns (ok: bool, bv: BitVectors.BitVector, samples: seq<nat>, p: nat)
    requires p0 == QuadsEnd(h) <= |b| < TWO64 && h.rate > 0
    ensures ok <==> SampleFits(b, h)
    ensures fresh(bv)
    ensures ok ==> p == SamplesEnd(h) <= |b| && SampledEnd(h) <= |b| && ViewedFlags(bv, b, h)
    ensures ok ==> samples == SamplesAt(b, h)
  {
    hide QuadsEnd, QuadVectors.WordCount, BitVectors.WordCount, WordsAt, NumbersAt, Pad, BitVectors.Bits, Count;
    hide BitVectors.DirectoryOk;
    SectionsAligned(h);
    samples := [];
    var m := h.textLen + 1;
    var start;
    ok, start, p := AlignView(b, p0, BitVectors.WordCount(m), 8);
    if !ok {
      bv := new BitVectors.BitVector(0);
      return;
    }
    bv := new BitVectors.BitVector.View(m, WordsAt(b, start, BitVectors.WordCount(m)));
    if bv.ones != SamplesIn(h) {
      ok := false;
      return;
    }
    ok, start, p := AlignView(b, p, SamplesIn(h), SampleWidth(h));
    if !ok {
      return;
    }
    samples := NumbersAt(b, start, SampleWidth(h), SamplesIn(h));
    ok := CheckSamples(h, samples);
  }

  method CheckSamples(h: Header, samples: seq<nat>) returns (ok: bool)
    requires h.rate > 0
    ensures ok <==> SamplesFit(h, samples)
  {
    var i := 0;
    while i < |samples|
      invariant 0 <= i <= |samples| && SamplesFit(h, samples[..i])
    {
      if samples[i] > h.textLen || samples[i] % h.rate != 0 {
        assert !SampleOk(h, samples[i]);
        return false;
      }
      assert samples[..i + 1] == samples[..i] + [samples[i]];
      i := i + 1;
    }
    assert samples[..i] == samples;
    return true;
  }

  // ----- document boundaries -----

  method ReadBounds(b: seq<Byte>, h: Header, p0: nat) returns (ok: bool, bounds: seq<nat>)
    requires p0 == SamplesEnd(h) <= |b| < TWO64 && h.bounds > 0
    ensures ok <==> BoundFits(b, h)
    ensures ok ==> BlobSize(h) <= |b| && bounds == BoundsAt(b, h)
  {
    hide SamplesEnd, NumbersAt, Pad;
    bounds := [];
    var start, p;
    ok, start, p := AlignView(b, p0, h.bounds, 8);
    if !ok {
      return;
    }
    bounds := NumbersAt(b, start, 8, h.bounds);
    ok := CheckBounds(h, bounds);
  }

  method CheckBounds(h: Header, bounds: seq<nat>) returns (ok: bool)
    requires |bounds| > 0
    ensures ok <==> BoundsFit(h, bounds)
  {
    if bounds[0] != 0 || bounds[|bounds| - 1] != h.textLen {
      return false;
    }
    var i := 1;
    while i < |bounds|
      invariant 1 <= i <= |bounds| && forall k :: 1 <= k < i ==> bounds[k - 1] < bounds[k]
    {
      if bounds[i] <= bounds[i - 1] {
        return false;
      }
      i := i + 1;
    }
    return true;
  }

  // ----- the whole load -----

  /** The index holds what the fields say, in structures that are safe to follow. */
  ghost predicate Loaded(fm: FMIndex, f: Fields)
    reads fm, fm.wm, fm.wm.qv, fm.sampled
  {
    && ScalarsKept(fm, f.head)
    && fm.wm.Usable() && fm.wm.n == f.head.textLen + 1 && fm.wm.qlevels == f.head.qlevels
    && fm.wm.start == f.head.starts && |f.quads| == f.head.qlevels
    && (forall l :: 0 <= l < f.head.qlevels ==> fm.wm.qv[l].words == f.quads[l])
    && |fm.first| == f.head.sigma
    && (forall x: nat :: x < f.head.sigma ==> fm.first[x] == Descend(fm.wm.digits, fm.wm.n, x, 0, fm.wm.qlevels))
    && fm.sampled.Valid() && fm.sampled.n == f.head.textLen + 1 && fm.sampled.words == f.sampled
    && fm.samples == f.samples && fm.docStart == f.docStart
    && |fm.byteToId| == 256 && Derived(fm.byteToId, 256, fm.sigma, fm.idToByte)
  }

  ghost predicate ScalarsKept(fm: FMIndex, h: Header)
    reads fm
  {
    && fm.saSampleRate == h.rate && fm.sigma == h.sigma && fm.qlevels == h.qlevels && fm.caseFold == h.fold
    && fm.wide == h.wide && fm.wordsPerBlock == h.wpb && fm.textLen == h.textLen && fm.byteToId == h.ids && fm.c == h.c
  }

  method KeepScalars(fm: FMIndex, h: Header)
    modifies fm`saSampleRate, fm`sigma, fm`qlevels, fm`caseFold, fm`wide, fm`wordsPerBlock, fm`textLen, fm`byteToId
    modifies fm`c
    ensures ScalarsKept(fm, h)
  {
    fm.saSampleRate, fm.sigma, fm.qlevels, fm.caseFold := h.rate, h.sigma, h.qlevels, h.fold;
    fm.wide, fm.wordsPerBlock, fm.textLen, fm.byteToId, fm.c := h.wide, h.wpb, h.textLen, h.ids, h.c;
  }

  /** A blob with a good header is accepted exactly when every section is there and fits. */
  lemma ParseDecides(b: seq<Byte>, h: Header)
    requires ParseHead(b) == Some(h)
    ensures HeadOk(h)
    ensures Parse(b) == if MatrixFits(b, h) && SampleFits(b, h) && BoundFits(b, h) then Some(BodyAt(b, h)) else None
  {
    hide ParseHead, NumbersAt, HeadSize, LevelsFor, QuadsAt, SampledAt, SamplesAt, BoundsAt;
    hide StartsFit, FlagsFit, SamplesFit, BoundsFit, QuadsEnd, SampledEnd, SamplesEnd, BlobSize;
    HeadReadOk(b);
    SectionOrder(h);
    if BlobSize(h) <= |b| {
      BodySizes(b, h);
    }
  }

  lemma NoHeader(b: seq<Byte>)
    requires ParseHead(b).None?
    ensures Parse(b).None?
  {}

  /** Puts the checked parts into the index. */
  method Assemble(fm: FMIndex, b: seq<Byte>, h: Header, wm: WaveletMatrix4, first: seq<nat>, bv: BitVectors.BitVector,
                  samples: seq<nat>, bounds: seq<nat>, idToByte: seq<Byte>)
    requires QuadsEnd(h) <= SampledEnd(h) <= SamplesEnd(h) <= BlobSize(h) <= |b| && ViewedMatrix(wm, first, b, h)
    requires ViewedFlags(bv, b, h) && samples == SamplesAt(b, h) && bounds == BoundsAt(b, h)
    requires |h.ids| == 256 && Derived(h.ids, 256, h.sigma, idToByte)
    modifies fm
    ensures Loaded(fm, BodyAt(b, h)) && fm.wm == wm && fm.sampled == bv && fm.isaDone == old(fm.isaDone)
  {
    hide QuadsEnd, SampledEnd, SamplesEnd, BlobSize, SampledAt, SamplesAt, BoundsAt, QuadsAt;
    hide BitVectors.BitVector.Valid, Derived;
    hide WaveletMatrix4.Usable, Descend, ViewedMatrix, ViewedFlags, Loaded, BodyAt, ScalarsKept;
    fm.wm, fm.first := wm, first;
    fm.sampled, fm.samples := bv, samples;
    fm.docStart, fm.idToByte := bounds, idToByte;
    KeepScalars(fm, h);
    LoadedFrom(fm, b, h);
  }

  lemma LoadedFrom(fm: FMIndex, b: seq<Byte>, h: Header)
    requires QuadsEnd(h) <= SampledEnd(h) <= SamplesEnd(h) <= BlobSize(h) <= |b|
    requires ScalarsKept(fm, h) && ViewedMatrix(fm.wm, fm.first, b, h) && ViewedFlags(fm.sampled, b, h)
    requires fm.samples == SamplesAt(b, h) && fm.docStart == BoundsAt(b, h)
    requires |h.ids| == 256 && Derived(h.ids, 256, h.sigma, fm.idToByte)
    ensures Loaded(fm, BodyAt(b, h))
  {
    hide QuadsEnd, SampledEnd, SamplesEnd, BlobSize, SampledAt, SamplesAt, BoundsAt, QuadsAt;
    hide BitVectors.BitVector.Valid, Derived;
    hide WaveletMatrix4.Usable, Descend;
  }

  /** What a loaded index is sure to satisfy, whoever wrote the blob. */
  ghost predicate Checked(fm: FMIndex)
    reads fm
  {
    && 0 < fm.saSampleRate && fm.textLen < 0x8000_0000_0000_0000 && 2 <= fm.sigma <= 258
    && (fm.wordsPerBlock == 1 || fm.wordsPerBlock == 2 || fm.wordsPerBlock == 4 || fm.wordsPerBlock == 8
        || fm.wordsPerBlock == 16)
    && |fm.byteToId| == 256 && (forall x :: 0 <= x < 256 ==> fm.byteToId[x] == -1 || 2 <= fm.byteToId[x] < fm.sigma)
    && |fm.samples| == fm.textLen / fm.saSampleRate + 1
    && (forall k :: 0 <= k < |fm.samples| ==> fm.samples[k] <= fm.textLen && fm.samples[k] % fm.saSampleRate == 0)
    && |fm.docStart| > 0 && fm.docStart[0] == 0 && fm.docStart[|fm.docStart| - 1] == fm.textLen
    && (forall i :: 0 < i < |fm.docStart| ==> fm.docStart[i - 1] < fm.docStart[i])
  }

  /** The entry of byte x is the sentinel's or the separator's id. */
  predicate ReservedId(b: seq<Byte>, x: nat) {
    36 + 4 * x <= |b| && b[32 + 4 * x] <= 1 && b[33 + 4 * x] == b[34 + 4 * x] == b[35 + 4 * x] == 0
  }

  lemma ReservedRefused(b: seq<Byte>, x: nat)
    requires x < 256 && ReservedId(b, x)
    ensures !Acceptable(b)
  {
    hide SectionsGood, FrontGood, IdGood, ReservedId;
    if FrontGood(b) {
      ReservedNotGood(b, x, SigmaOf(b));
    }
  }

  lemma ReservedNotGood(b: seq<Byte>, x: nat, sigma: nat)
    requires ReservedId(b, x)
    ensures 36 + 4 * x <= |b| && !IdGood(b, x, sigma)
  {}

  lemma LoadedChecked(fm: FMIndex, f: Fields)
    requires Loaded(fm, f) && FieldsOk(f)
    ensures Checked(fm)
  {
    hide LevelsFor, StartsFit, FlagsFit, BitVectors.BitVector.Valid, Descend, WaveletMatrix4.Usable, Derived;
    forall k | 0 <= k < |fm.samples|
      ensures fm.samples[k] <= fm.textLen && fm.samples[k] % fm.saSampleRate == 0
    {
      assert SampleOk(f.head, f.samples[k]);
    }
    forall x | 0 <= x < 256
      ensures fm.byteToId[x] == -1 || 2 <= fm.byteToId[x] < fm.sigma
    {
      assert IdOk(f.head.ids[x], f.head.sigma);
    }
  }

  lemma LoadedImage(fm: FMIndex, f: Fields)
    requires Loaded(fm, f) && FieldsOk(f)
    ensures Image(fm) == f && Shaped(fm)
  {
    hide LevelsFor, BodyOk, BitVectors.BitVector.Valid, Descend, Derived, Starts, Digits;
    assert Image(fm).quads == f.quads;
    forall l | 0 <= l < fm.qlevels
      ensures |fm.wm.start[l]| == 4
    {
      assert StartsRow(f.head.starts[l]);
    }
  }

  /** Loads a blob. Every byte sequence is either refused, leaving an empty index, or gives an index holding exactly
      what stands in the blob, with every check passed. */
  method LoadView(b: seq<Byte>) returns (fm: FMIndex, ok: bool)
    requires |b| < TWO64
    ensures fresh(fm) && fresh(fm.wm) && fresh(fm.wm.qv) && fresh(fm.sampled) && !fm.isaDone
    ensures ok <==> Acceptable(b)
    ensures (exists x: nat :: x < 256 && ReservedId(b, x)) ==> !ok
    ensures !ok ==> fm.c == [] && fm.docs == [] && fm.Valid()
    ensures ok ==> Stores(b, fm) && Checked(fm)
    ensures ok <==> Parse(b).Some?
    ensures ok ==> Loaded(fm, Parse(b).value)
  {
    hide FMIndex.Valid, Parse, Loaded, Acceptable, Stores, Checked, ReservedId, FieldsOk, Image;
    fm, ok := ReadBlob(b);
    AcceptedMeans(b);
    if ok {
      ParsedOk(b);
      LoadedImage(fm, Parse(b).value);
      ParsedStores(b, fm);
      LoadedChecked(fm, Parse(b).value);
    }
    forall x: nat | x < 256 && ReservedId(b, x)
      ensures !ok
    {
      ReservedRefused(b, x);
    }
  }

  /** Reads the parts of a blob one by one, giving up at the first that is not good. */
  method ReadBlob(b: seq<Byte>) returns (fm: FMIndex, ok: bool)
    requires |b| < TWO64
    ensures fresh(fm) && fresh(fm.wm) && fresh(fm.wm.qv) && fresh(fm.sampled) && !fm.isaDone
    ensures ok <==> Parse(b).Some?
    ensures !ok ==> fm.c == [] && fm.docs == [] && fm.Valid()
    ensures ok ==> Loaded(fm, Parse(b).value)
  {
    hide ParseHead, QuadsEnd, SampledEnd, SamplesEnd, BlobSize, MatrixFits, SampleFits, BoundFits, ViewedMatrix;
    hide ViewedFlags;
    hide FMIndex.Valid, Parse, SamplesAt, BoundsAt, Derived, Loaded, BodyAt, LevelsFor;
    fm := new FMIndex();
    var head, p := ReadHead(b);
    if head.None? {
      NoHeader(b);
      return fm, false;
    }
    var h := head.value;
    ParseDecides(b, h);
    SectionOrder(h);
    var wm, first, bv, samples, bounds;
    ok, wm, first, p := ReadMatrix(b, h, p);
    if !ok {
      return;
    }
    ok, bv, samples, p := ReadSamples(b, h, p);
    if !ok {
      return;
    }
    ok, bounds := ReadBounds(b, h, p);
    if !ok {
      return;
    }
    IdsBelow(h);
    var idToByte := BuildDerived(h.ids, h.sigma);
    Assemble(fm, b, h, wm, first, bv, samples, bounds, idToByte);
  }

  lemma IdsBelow(h: Header)
    requires HeadOk(h)
    ensures |h.ids| == 256 && forall b :: 0 <= b < 256 ==> h.ids[b] < h.sigma
  {}
}
