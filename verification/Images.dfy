/** What an index stores, and that whatever a built index stores passes every check of the loader. */
module Images {
  import opened Counting
  import opened SuffixArrays
  import opened Corpus
  import opened QueryTheory
  import opened Construction
  import opened LittleEndian
  import opened QuadVectors
  import opened WaveletTheory
  import opened WaveletMatrices
  import opened FMIndexes
  import opened Blobs
  import BitVectors

  /** What an index would store. */
  ghost function Image(fm: FMIndex): Fields
    reads fm, fm.wm, fm.wm.qv, fm.sampled
  {
    Fields(Header(fm.saSampleRate, fm.sigma, fm.qlevels, fm.caseFold, fm.wide, fm.wordsPerBlock, fm.textLen,
                  fm.byteToId, fm.c, fm.wm.start, |fm.docStart|),
           seq(|fm.wm.qv|, l requires 0 <= l < |fm.wm.qv| reads fm, fm.wm, fm.wm.qv => fm.wm.qv[l].words),
           fm.sampled.words, fm.samples, fm.docStart)
  }

  /** The shape every index has, built or not. */
  ghost predicate Shaped(fm: FMIndex)
    reads fm, fm.wm
  {
    && |fm.byteToId| == 256 && |fm.wm.qv| == |fm.wm.start| == fm.qlevels
    && forall l :: 0 <= l < fm.qlevels ==> |fm.wm.start[l]| == 4
  }

  // ----- what a built index writes is acceptable -----

  /** Every sample is the text position of a sampled row. */
  lemma SampleIsPosition(sa: seq<nat>, rate: nat, samples: seq<nat>, k: nat)
    requires rate > 0 && SamplesOf(sa, rate, samples, |sa|) && k < |samples|
    ensures exists r :: 0 <= r < |sa| && samples[k] == sa[r] && sa[r] % rate == 0
  {
    hide Count;
    var r := OneAtRank(SampleFlags(sa, rate), k, |sa|);
    assert samples[k] == sa[r];
  }

  lemma SamplesGood(fm: FMIndex)
    requires fm.Valid() && fm.c != []
    ensures fm.saSampleRate > 0
    ensures |fm.samples| == SamplesIn(Image(fm).head)
    ensures forall k :: 0 <= k < |fm.samples| ==> fm.samples[k] <= fm.textLen && fm.samples[k] % fm.saSampleRate == 0
  {
    hide Layout, RankOk, Count;
    fm.LayoutSize();
    SampleCount(fm.sa, fm.saSampleRate);
    forall k | 0 <= k < |fm.samples|
      ensures fm.samples[k] <= fm.textLen && fm.samples[k] % fm.saSampleRate == 0
    {
      SampleIsPosition(fm.sa, fm.saSampleRate, fm.samples, k);
    }
  }

  lemma FlagsGood(fm: FMIndex)
    requires fm.Valid() && fm.c != []
    ensures |fm.sampled.words| == BitVectors.WordCount(fm.textLen + 1) && FlagsFit(Image(fm).head, fm.sampled.words)
  {
    hide Layout, RankOk, Count, BitVectors.DirectoryOk, SampleFlags;
    fm.LayoutSize();
    SampleCount(fm.sa, fm.saSampleRate);
  }

  /** The stored C-table and group starts fit in 8 bytes; the levels have their packed words. */
  lemma RankGood(fm: FMIndex)
    requires fm.Valid() && fm.c != []
    ensures |fm.c| == fm.sigma && forall x :: 0 <= x < fm.sigma ==> fm.c[x] <= fm.textLen + 1
    ensures |fm.wm.qv| == |fm.wm.start| == |fm.wm.digits| == fm.qlevels
    ensures forall l :: 0 <= l < fm.qlevels ==>
              && |fm.wm.qv[l].words| == QuadVectors.WordCount(fm.textLen + 1)
              && fm.wm.start[l] == Starts(Digits(fm.wm.qv[l].words, fm.textLen + 1))
  {
    hide Layout, SamplingOk, Layered, DirectoryOk, Digits, Starts, CountBelow;
    fm.LayoutSize();
    forall x: nat | x < fm.sigma
      ensures fm.c[x] <= fm.textLen + 1
    {
      CountBelowMost(fm.Transform(), x, fm.textLen + 1);
    }
    forall l | 0 <= l < fm.qlevels
      ensures |fm.wm.qv[l].words| == QuadVectors.WordCount(fm.textLen + 1)
      ensures fm.wm.start[l] == Starts(Digits(fm.wm.qv[l].words, fm.textLen + 1))
    {
      assert fm.wm.LevelUsable(l);
    }
  }

  lemma CountBelowMost(s: seq<nat>, x: nat, n: nat)
    requires n <= |s|
    ensures CountBelow(s, x, n) <= n
  {}

  lemma StartsSmall(D: seq<nat>)
    ensures forall d: nat :: d < 4 ==> Starts(D)[d] <= |D|
  {}

  lemma IdsGood(fm: FMIndex)
    requires fm.Valid() && fm.c != []
    ensures |fm.byteToId| == 256 && 2 <= fm.sigma <= 258 && forall b :: 0 <= b < 256 ==> IdOk(fm.byteToId[b], fm.sigma)
  {}

  lemma BoundsGood(fm: FMIndex)
    requires fm.Valid() && fm.c != []
    ensures 0 < |fm.docStart| <= fm.textLen + 1 && BoundsFit(Image(fm).head, fm.docStart)
    ensures forall d :: 0 <= d < |fm.docStart| ==> fm.docStart[d] <= fm.textLen
  {
    hide RankOk, SamplingOk, Layout, DocStart;
    DocStartsAscending(fm.docs);
    DocStartMonotone(fm.docs, 0, |fm.docs|);
    assert DocStart(fm.docs, 0) == 0 by { FirstStart(fm.docs); }
    forall d | 0 <= d < |fm.docStart|
      ensures fm.docStart[d] <= fm.textLen
    {
      DocStartMonotone(fm.docs, d, |fm.docs|);
    }
  }

  lemma HeadGood(fm: FMIndex)
    requires fm.Valid() && fm.c != []
    ensures HeadOk(Image(fm).head)
  {
    hide RankOk, SamplingOk, Layout, Starts, Digits, LevelsFor, BoundsFit;
    Widths();
    IdsGood(fm);
    RankGood(fm);
    BoundsGood(fm);
    forall l | 0 <= l < fm.qlevels
      ensures StartsRow(fm.wm.start[l])
    {
      StartsSmall(Digits(fm.wm.qv[l].words, fm.textLen + 1));
    }
  }

  /** Whatever a built index would write passes every check of the loader. */
  lemma ImageOk(fm: FMIndex)
    requires fm.Valid() && fm.c != []
    ensures FieldsOk(Image(fm)) && Shaped(fm)
  {
    hide FMIndex.Built, HeadOk, Starts, Digits, FlagsFit, BoundsFit, SamplesIn, Count;
    Widths();
    HeadGood(fm);
    IdsGood(fm);
    RankGood(fm);
    FlagsGood(fm);
    SamplesGood(fm);
    BoundsGood(fm);
    SamplesNarrow(fm);
  }

  lemma SamplesNarrow(fm: FMIndex)
    requires fm.Valid() && fm.c != []
    ensures fm.textLen < Pow256(8) && (!fm.wide ==> fm.textLen < Pow256(4))
  {
    Widths();
  }
}
