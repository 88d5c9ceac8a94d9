/** The FM-index over a set of documents: its state, its construction, and its queries. */
module FMIndexes {
  import opened Counting
  import opened Sorting
  import opened SuffixArrays
  import opened SuffixSorting
  import opened Corpus
  import opened TextMatches
  import opened QueryTheory
  import opened PlainText
  import opened Construction
  import opened WaveletTheory
  import opened WaveletMatrices
  import opened QuadVectors
  import opened BitVectors

  const TILE: nat := 32   // searches or walks a batch steps together

  /** The rank structures hold the transform b: wavelet matrix, C-table and per-symbol group starts. */
  ghost predicate RankOk(wm: WaveletMatrix4, c: seq<nat>, first: seq<nat>, qlevels: nat, sigma: nat, b: seq<nat>)
    reads wm, wm.qv
  {
    && wm.Valid() && wm.n == |b| && wm.qlevels == qlevels && wm.Contents() == b
    && |c| == |first| == sigma
    && (forall x: nat :: x < sigma ==> c[x] == CountBelow(b, x, |b|))
    && (forall x: nat :: x < sigma ==> first[x] == Descend(wm.digits, |b|, x, 0, qlevels))
  }

  /** The sampled rows are flagged, and their positions stored in row order. */
  ghost predicate SamplingOk(sampled: BitVector, samples: seq<nat>, rate: nat, sa: seq<nat>)
    reads sampled
  {
    && rate > 0
    && sampled.Valid() && sampled.n == |sa|
    && sampled.Contents() == SampleFlags(sa, rate)
    && SamplesOf(sa, rate, samples, |sa|)
  }

  /** Each id's byte is the folded byte it stands for. */
  ghost predicate InverseOk(fold: bool, ids: seq<int>, sigma: nat, idToByte: seq<Byte>) {
    && |ids| == 256 && Derived(ids, 256, sigma, idToByte)
    && forall b: Byte :: ids[b] != -1 ==> 0 <= ids[b] < sigma && idToByte[ids[b]] == Fold(fold, b)
  }

  /** The options an index carries: a 32-bit sampling rate and a power-of-two block size. */
  ghost predicate OptionsOk(rate: nat, wpb: nat) {
    0 < rate < TWO32 && SmallPower(wpb)
  }

  class FMIndex {
    var saSampleRate: nat
    var wordsPerBlock: nat
    var caseFold: bool
    var wide: bool
    var textLen: nat             // symbols in the text, without the sentinel
    var sigma: nat
    var qlevels: nat
    var byteToId: seq<int>
    var wm: WaveletMatrix4       // over the Burrows-Wheeler transform
    var c: seq<nat>              // empty exactly when there is no index
    var first: seq<nat>          // per-symbol descent of position 0
    var sampled: BitVector       // which rows are sampled
    var samples: seq<nat>        // their text positions, in row order
    var docStart: seq<nat>
    var idToByte: seq<Byte>
    var isaDone: bool            // the inverse table has been filled, which happens once in an index's life
    var isaSample: seq<nat>      // the row of every sampled text position, once filled
    ghost var docs: seq<Document>
    ghost var sa: seq<nat>

    /** A default-constructed index, or a consistent one. */
    ghost predicate Valid()
      reads this, wm, wm.qv, sampled
    {
      if c == [] then docs == [] && textLen == 0 && docStart == [] else Built()
    }

    ghost predicate Built()
      reads this, wm, wm.qv, sampled
    {
      && Layout(caseFold, docs, byteToId, sigma, sa)
      && textLen == TextLength(docs) < MAX_LENGTH
      && qlevels == LevelsFor(sigma)
      && RankOk(wm, c, first, qlevels, sigma, Transform())
      && SamplingOk(sampled, samples, saSampleRate, sa)
      && docStart == DocStarts(docs, |docs|)
      && InverseOk(caseFold, byteToId, sigma, idToByte)
      && (wide || textLen < TWO32)
      && OptionsOk(saSampleRate, wordsPerBlock)
    }

    ghost function Symbols(): seq<nat>
      requires |byteToId| == 256
      reads this
    {
      Text(byteToId, docs)
    }

    ghost function Transform(): seq<nat>
      requires Layout(caseFold, docs, byteToId, sigma, sa)
      reads this
    {
      Bwt(Text(byteToId, docs), sa)
    }

    /** No index yet: every query answers nothing. */
    constructor ()
      ensures Valid() && c == [] && docs == [] && saSampleRate == wordsPerBlock == 1 && sigma == 2 && qlevels == 0
      ensures fresh(wm) && fresh(sampled) && wm.qv == [] && wm.start == [] && |byteToId| == 256 && !isaDone
    {
      saSampleRate, wordsPerBlock, caseFold, wide := 1, 1, false, false;
      textLen, sigma, qlevels := 0, 2, 0;
      byteToId := seq(256, _ => 0);
      wm := new WaveletMatrix4.Empty();
      c, first := [], [];
      sampled := new BitVector(0);
      samples, docStart, idToByte := [], [], [];
      isaDone, isaSample := false, [];
      docs, sa := [], [];
    }

    // ----- construction -----

    /** Indexes a set of documents. Refuses, and only refuses, texts of 2^63 symbols or more. */
    method Build(docs: seq<Document>, rate: nat, caseInsensitive: bool, forceWide: bool, blockBytes: nat)
      returns (ok: bool)
      requires rate < TWO32
      modifies this
      ensures ok <==> TextLength(docs) < MAX_LENGTH
      ensures ok ==> Valid() && c != [] && this.docs == docs && caseFold == caseInsensitive
      ensures ok ==> saSampleRate == (if rate == 0 then 1 else rate) && wordsPerBlock == BlockWords(blockBytes)
      ensures ok ==> wide == (forceWide || TextLength(docs) >= TWO32)
      ensures isaDone == old(isaDone) && isaSample == old(isaSample)
    {
      hide Layout, Text, DocStart, DocStarts, RankOk, SamplingOk, LevelsFor, InverseOk, Alphabet, Bwt, Valid;
      var bounds;
      ok, bounds := DocBounds(docs);
      if !ok {
        return;
      }
      KeepOptions(docs, bounds, rate, caseInsensitive, forceWide, blockBytes);
      var use64 := forceWide || textLen >= INT32_MAX;
      byteToId, sigma, idToByte := BuildAlphabet(docs, caseFold);
      qlevels := Levels(sigma);
      BuildStructures(docs, use64);
    }

    method KeepOptions(docs: seq<Document>, bounds: seq<nat>, rate: nat, caseInsensitive: bool, forceWide: bool,
                       blockBytes: nat)
      requires bounds == DocStarts(docs, |docs|) && rate < TWO32
      modifies this`docs, this`textLen, this`docStart, this`saSampleRate, this`wide, this`wordsPerBlock, this`caseFold
      ensures this.docs == docs && textLen == TextLength(docs) && docStart == bounds
      ensures saSampleRate == (if rate == 0 then 1 else rate) && caseFold == caseInsensitive
      ensures wide == (forceWide || textLen >= TWO32) && wordsPerBlock == BlockWords(blockBytes)
      ensures OptionsOk(saSampleRate, wordsPerBlock)
    {
      hide DocStart;
      this.docs, textLen, docStart := docs, bounds[|docs|], bounds;
      saSampleRate, caseFold := if rate == 0 then 1 else rate, caseInsensitive;
      wide := forceWide || textLen >= TWO32;
      wordsPerBlock := BlockWords(blockBytes);
    }

    /** Samples and rank structures, once documents, bounds and alphabet are in place. */
    method BuildStructures(docs: seq<Document>, use64: bool)
      requires docs == this.docs && Alphabet(caseFold, docs, byteToId, sigma) && qlevels == LevelsFor(sigma)
      requires textLen == TextLength(docs) < MAX_LENGTH && docStart == DocStarts(docs, |docs|)
      requires InverseOk(caseFold, byteToId, sigma, idToByte)
      requires OptionsOk(saSampleRate, wordsPerBlock) && (wide || textLen < TWO32)
      modifies this`sampled, this`samples, this`sa, this`wm, this`c, this`first
      ensures Valid() && c != []
    {
      hide Layout, Text, DocStart, DocStarts, RankOk, SamplingOk, LevelsFor, InverseOk, Alphabet, Bwt, Valid;
      var bwt, bv, positions, rows := TransformOf(docs, byteToId, sigma, caseFold, textLen, saSampleRate, wide, use64);
      KeepSamples(bv, positions, rows);
      var matrix, table, starts := BuildRank(caseFold, docs, byteToId, sigma, sa, bwt, qlevels, wordsPerBlock);
      KeepRank(matrix, table, starts, bwt);
      Assembled();
    }

    method KeepSamples(bv: BitVector, positions: seq<nat>, ghost rows: seq<nat>)
      requires SamplingOk(bv, positions, saSampleRate, rows)
      modifies this`sampled, this`samples, this`sa
      ensures SamplingOk(sampled, samples, saSampleRate, sa) && sa == rows
    {
      hide SamplingOk;
      sampled, samples, sa := bv, positions, rows;
    }

    method KeepRank(matrix: WaveletMatrix4, table: seq<nat>, starts: seq<nat>, ghost b: seq<nat>)
      requires RankOk(matrix, table, starts, qlevels, sigma, b)
      modifies this`wm, this`c, this`first
      ensures RankOk(wm, c, first, qlevels, sigma, b) && c == table
    {
      hide RankOk;
      wm, c, first := matrix, table, starts;
    }

    lemma Assembled()
      requires Layout(caseFold, docs, byteToId, sigma, sa) && qlevels == LevelsFor(sigma)
      requires textLen == TextLength(docs) < MAX_LENGTH && docStart == DocStarts(docs, |docs|)
      requires InverseOk(caseFold, byteToId, sigma, idToByte) && (wide || textLen < TWO32)
      requires OptionsOk(saSampleRate, wordsPerBlock)
      requires RankOk(wm, c, first, qlevels, sigma, Transform())
      requires SamplingOk(sampled, samples, saSampleRate, sa)
      ensures Valid() || c == []
    {}

    // ----- the two rank steps -----

    /** One backward step of an interval by symbol d, in 64-bit wrap-around arithmetic: the group start that
        the wavelet descent leaves in both endpoints cancels, even where c[d] - first[d] is negative. */
    method Step(d: nat, lo: nat, hi: nat) returns (lo': nat, hi': nat)
      requires Valid() && c != [] && d < sigma && lo <= |sa| && hi <= |sa|
      ensures var b := Transform();
              && lo' == CountBelow(b, d, |b|) + Count(b, d, lo) <= |sa|
              && hi' == CountBelow(b, d, |b|) + Count(b, d, hi) <= |sa|
    {
      hide Count, CountBelow, Descend, Top, Layered;
      var plo, phi := wm.Map2(d, lo, hi);
      var base := (c[d] - first[d]) % TWO64;
      lo' := (base + plo) % TWO64;
      hi' := (base + phi) % TWO64;
      StepWraps(d, lo, plo);
      StepWraps(d, hi, phi);
    }

    lemma StepWraps(d: nat, p: nat, mapped: nat)
      requires Valid() && c != [] && d < sigma && p <= |sa|
      requires mapped == Descend(wm.digits, |sa|, d, p, qlevels)
      ensures var b := Transform();
              ((c[d] - first[d]) % TWO64 + mapped) % TWO64 == CountBelow(b, d, |b|) + Count(b, d, p) <= |sa|
    {
      hide Count, CountBelow, Descend, Layout;
      var b := Transform();
      IdsFitLevels(sigma, d);
      DescendCounts(wm.layers, wm.digits, d, p);
      CountMonotone(b, d, p, |b|);
      CountBelowStep(b, d, |b|);
      LayoutSize();
      WrapAround(c[d], first[d], mapped - first[d]);
    }

    lemma LayoutSize()
      requires Valid() && c != []
      ensures |sa| == textLen + 1 <= MAX_LENGTH && |byteToId| == 256 && IsText(Symbols())
      ensures IsPermutation(sa) && IsSuffixArray(Symbols(), sa) && |Transform()| == |sa| == |Symbols()|
      ensures 2 <= sigma <= 258 && Layout(caseFold, docs, byteToId, sigma, sa)
    {
      LayoutFacts(caseFold, docs, byteToId, sigma, sa);
      IdRange(caseFold, docs, byteToId, sigma, 0);
    }

    /** Occurrences of symbol d in the transform before row i. */
    method RankOf(d: nat, i: nat) returns (r: nat)
      requires Valid() && c != [] && d < sigma && i <= |sa|
      ensures r == Count(Transform(), d, i)
    {
      hide Count, CountBelow, Descend, Top, Layered;
      IdsFitLevels(sigma, d);
      r := wm.Rank(d, i);
    }

    /** Both endpoints mapped without the group start: only their distance is meaningful. */
    method Spread(d: nat, lo: nat, hi: nat) returns (plo: nat, phi: nat)
      requires Valid() && c != [] && d < sigma && lo <= |sa| && hi <= |sa|
      ensures phi - plo == Count(Transform(), d, hi) - Count(Transform(), d, lo)
    {
      hide Count, CountBelow, Descend, Top;
      plo, phi := wm.Map2(d, lo, hi);
      IdsFitLevels(sigma, d);
      DescendCounts(wm.layers, wm.digits, d, lo);
      DescendCounts(wm.layers, wm.digits, d, hi);
    }

    /** The row of the text position cyclically before row i's. */
    method LF(i: nat) returns (r: nat)
      requires Valid() && c != [] && i < |sa|
      ensures r < |sa| && r == LfRow(Transform(), i)
      ensures sa[r] == Before(sa[i], |sa|)
    {
      hide Count, CountBelow, Descend, Top, Layered;
      var sym := wm.Access(i);
      LayoutSize();
      SymbolFits(i);
      var k := wm.Rank(sym, i);
      r := c[sym] + k;
      LfSteps(Symbols(), sa, i);
    }

    lemma SymbolFits(i: nat)
      requires Valid() && c != [] && i < |sa|
      ensures Transform()[i] < sigma && Top(Transform()[i], qlevels) == 0
    {
      hide Top;
      CorpusIsText(caseFold, docs, byteToId, sigma);
      IdRange(caseFold, docs, byteToId, sigma, 0);
      IdsFitLevels(sigma, Transform()[i]);
    }

    /** The text position of a row: walk LF until a sampled row, then add the steps taken. */
    method LocateRow(row0: nat) returns (pos: nat, ghost steps0: nat)
      requires Valid() && c != [] && row0 < |sa|
      ensures pos == sa[row0] <= textLen
      ensures steps0 == sa[row0] % saSampleRate
    {
      hide Count, CountBelow, Descend, RankOk, Layout, BitVectors.DirectoryOk, SamplesOf;
      LayoutSize();
      var row: nat, steps: nat := row0, 0;
      while !sampled.Get(row)
        invariant row < |sa| && sa[row] + steps == sa[row0]
        invariant sa[row] / saSampleRate == sa[row0] / saSampleRate
        decreases sa[row]
      {
        StepBelow(sa[row], saSampleRate);
        row := LF(row);
        steps := steps + 1;
      }
      var k := sampled.Rank1(row);
      assert samples[k] == sa[row] by { SampleOfRow(row); }
      pos := samples[k] + steps;
      StepsAreRemainder(sa[row0], sa[row], saSampleRate);
      steps0 := steps;
    }

    lemma SampleOfRow(row: nat)
      requires Valid() && c != [] && row < |sa| && sampled.Contents()[row] == 1
      ensures Count(sampled.Contents(), 1, row) < |samples|
      ensures samples[Count(sampled.Contents(), 1, row)] == sa[row]
    {}

    /** The document of a text position: the last boundary at or before it. */
    method DocumentOf(pos: nat) returns (d: nat)
      requires Valid() && c != [] && pos < textLen
      ensures d < |docs| && d == DocOf(docs, pos)
    {
      hide RankOk, SamplingOk, Layout, DocStart;
      DocStartsAscending(docs);
      var i := UpperBound(docStart, pos);
      assert DocStart(docs, 0) == 0 by { FirstStart(docs); }
      DocOfUnique(docs, pos, i - 1);
      d := i - 1;
    }

    // ----- exact search -----

    /** Half-open suffix-array interval of a pattern. */
    method BackwardSearch(P: seq<Byte>) returns (lo: nat, hi: nat)
      requires Valid()
      ensures c == [] ==> lo == hi == 0
      ensures c != [] ==> Searched(docs, byteToId, sa, P, lo, hi)
    {
      hide Count, CountBelow, RankOk, SamplingOk, Exact, Alphabet;
      if c == [] {
        return 0, 0;
      }
      LayoutSize();
      ExactEmpty(Symbols(), sa);
      var m := textLen + 1;
      if P == [] {
        NothingLeft(byteToId, P);
        return 0, m;
      }
      lo, hi := 0, m;
      var k := |P|;
      NothingLeft(byteToId, P);
      while k > 0
        invariant 0 <= k <= |P| && lo <= hi <= |sa|
        invariant Known(byteToId, P[k..]) && Exact(Symbols(), sa, Syms(byteToId, P[k..]), lo, hi)
      {
        k := k - 1;
        var id := byteToId[P[k]];
        if id < 0 {
          return 0, 0;
        }
        IdRange(caseFold, docs, byteToId, sigma, P[k]);
        Prepended(byteToId, P, k);
        BackwardStep(Symbols(), sa, Syms(byteToId, P[k + 1..]), id, lo, hi);
        lo, hi := Step(id, lo, hi);
        if lo >= hi {
          EmptySearch(Symbols(), sa, byteToId, P, k, lo, hi);
          return 0, 0;
        }
      }
      assert P[0..] == P;
    }

    /** The number of occurrences of a non-empty pattern in all documents. */
    method CountOf(P: seq<Byte>) returns (n: nat)
      requires Valid()
      ensures P != [] ==> n == TotalOccurrences(caseFold, docs, P, |docs|) == |Spots(caseFold, docs, P)|
      ensures P == [] ==> n == if c == [] then 0 else textLen + 1
    {
      OccurrencesAreSpots(caseFold, docs, P);
      hide RankOk, SamplingOk, Known, Exact, Layout;
      var lo, hi := BackwardSearch(P);
      n := hi - lo;
      if c != [] {
        LayoutSize();
        if P != [] {
          SearchedCount(caseFold, docs, byteToId, sigma, sa, P, lo, hi);
        } else {
          SearchedBounds(docs, byteToId, sa, P, lo, hi);
          WholeSearch(Symbols(), sa, lo, hi);
        }
      }
    }

    // ----- locating -----

    /** Positions are those of the pattern's interval, each once and in order. */
    ghost predicate AllOf(P: seq<Byte>, positions: seq<nat>, lo: nat, hi: nat)
      reads this
    {
      if P == [] || c == [] then positions == []
      else
        && |byteToId| == 256 && Searched(docs, byteToId, sa, P, lo, hi)
        && Ascending(positions) && multiset(positions) == multiset(sa[lo..hi])
    }

    /** Text positions of every occurrence, sorted. */
    method LocateInternal(P: seq<Byte>) returns (positions: seq<nat>, ghost lo: nat, ghost hi: nat)
      requires Valid()
      ensures AllOf(P, positions, lo, hi) && forall i :: 0 <= i < |positions| ==> positions[i] < textLen
    {
      hide RankOk, SamplingOk, Searched, Layout, SortValues;
      if P == [] {
        return [], 0, 0;
      }
      var a, b := BackwardSearch(P);
      lo, hi := a, b;
      var out := [];
      if c != [] {
        LayoutSize();
        SearchedBounds(docs, byteToId, sa, P, a, b);
        forall r | a <= r < b
          ensures sa[r] < textLen
        {
          SearchedRow(caseFold, docs, byteToId, sigma, sa, P, a, b, r);
        }
        out := LocateRows(a, b);
        RowsDistinct(sa, a, b);
      }
      SortedPositions(out, textLen);
      positions := SortValues(out);
    }

    /** The text positions of a range of rows, in row order. */
    method LocateRows(lo: nat, hi: nat) returns (out: seq<nat>)
      requires Valid() && c != [] && lo <= hi <= |sa| && forall r :: lo <= r < hi ==> sa[r] < textLen
      ensures out == sa[lo..hi]
    {
      hide RankOk, SamplingOk, Layout;
      out := [];
      var i := lo;
      while i < hi
        invariant lo <= i <= hi && out == sa[lo..i]
      {
        var pos, _ := LocateRow(i);
        if pos < textLen {
          out := out + [pos];
        }
        i := i + 1;
      }
    }

    /** Sorted (document, offset) of every occurrence. */
    method LocateDocs(P: seq<Byte>) returns (r: seq<(nat, nat)>)
      requires Valid()
      ensures P == [] ==> r == []
      ensures P != [] ==> Located(caseFold, docs, P, r) && ListsSpots(caseFold, docs, P, r)
    {
      hide Valid, Located, Searched, ListsSpots;
      var positions, lo, hi := LocateInternal(P);
      r := Places(P, positions, lo, hi);
      if P != [] {
        LocatedMeans(caseFold, docs, P, r);
      }
    }

    /** Text positions as sorted (document, offset) pairs. */
    method Places(P: seq<Byte>, positions: seq<nat>, ghost lo: nat, ghost hi: nat) returns (r: seq<(nat, nat)>)
      requires Valid() && (c == [] ==> positions == [])
      requires forall i :: 0 <= i < |positions| ==> positions[i] < textLen
      ensures positions == [] ==> r == []
      ensures P != [] && AllOf(P, positions, lo, hi) ==> Located(caseFold, docs, P, r)
    {
      hide RankOk, SamplingOk, Searched, Layout, OccursAt, DocStart, AllOf, SortPairs;
      var out := [];
      var i := 0;
      while i < |positions|
        invariant 0 <= i <= |positions| && |out| == i
        invariant forall k :: 0 <= k < i ==> out[k] == Place(docs, positions[k])
      {
        var doc := DocumentOf(positions[i]);
        out := out + [(doc, positions[i] - docStart[doc])];
        i := i + 1;
      }
      if P != [] && AllOf(P, positions, lo, hi) {
        PlacedAll(P, positions, lo, hi, out);
      }
      PairsSorted([]);
      r := SortPairs(out);
    }

    lemma PlacedAll(P: seq<Byte>, positions: seq<nat>, lo: nat, hi: nat, out: seq<(nat, nat)>)
      requires Valid() && P != [] && AllOf(P, positions, lo, hi)
      requires forall i :: 0 <= i < |positions| ==> positions[i] < textLen
      requires |out| == |positions|
      requires c != [] ==> forall k :: 0 <= k < |out| ==>
                 positions[k] < TextLength(docs) && out[k] == Place(docs, positions[k])
      ensures Located(caseFold, docs, P, out) && SortPairs(out) == out
    {
      hide RankOk, SamplingOk, Searched, Layout, OccursAt, DocStart, SortPairs;
      if c != [] {
        PlacesLocated(caseFold, docs, byteToId, sigma, sa, P, lo, hi, positions, out);
      } else {
        NothingLocated(caseFold, P);
      }
      PairsSorted(out);
    }

    /** The documents that contain the pattern, ascending and without repetition. */
    method MatchingDocs(P: seq<Byte>) returns (r: seq<nat>)
      requires Valid()
      ensures P == [] ==> r == []
      ensures P != [] ==> DocList(docs, ContainsDoc(caseFold, docs, P), r)
      ensures P != [] ==> Lists(r, Containing(caseFold, docs, P))
    {
      hide Valid, Located, OccursAt, ListsSpots, Lists, DocList;
      var hits := LocateDocs(P);
      var ds := [];
      var i := 0;
      while i < |hits|
        invariant 0 <= i <= |hits| && |ds| == i
        invariant forall k :: 0 <= k < i ==> ds[k] == hits[k].0
      {
        ds := ds + [hits[i].0];
        i := i + 1;
      }
      if P != [] {
        UniqueDocs(caseFold, docs, P, hits, ds);
        ContainingMeans(caseFold, docs, P);
        DocListMeans(docs, ContainsDoc(caseFold, docs, P), Unique(ds), Containing(caseFold, docs, P));
      }
      r := Unique(ds);
    }
  }

  /** Text, suffix array, samples and transform; the compact path reuses the suffix array's storage for
      the transform, the wide path does not, and both give the same result. */
  method TransformOf(docs: seq<Document>, ids: seq<int>, sigma: nat, fold: bool, len: nat, rate: nat, wide: bool,
                     use64: bool)
    returns (bwt: seq<nat>, bv: BitVector, samples: seq<nat>, ghost rows: seq<nat>)
    requires Alphabet(fold, docs, ids, sigma) && len == TextLength(docs) && rate > 0
    requires !wide ==> len < TWO32
    ensures Layout(fold, docs, ids, sigma, rows) && bwt == Bwt(Text(ids, docs), rows)
    ensures SamplingOk(bv, samples, rate, rows)
  {
    assert |ids| == 256;
    hide SuffixArray, BitVectors.DirectoryOk, SamplesOf, Alphabet, Text, SampleFlags, Bwt;
    CorpusIsText(fold, docs, ids, sigma);
    IdRange(fold, docs, ids, sigma, 0);
    var t := new nat[len + 1];
    FillSymbols(docs, ids, t);
    SuffixArrayExists(t[..]);
    var order := SuffixArray(t[..]);
    rows := order;
    var sa := new nat[|order|](i requires 0 <= i < |order| => order[i]);
    assert sa[..] == rows;
    bv, samples := SampleRows(sa, rate, wide);
    bwt := MakeBwt(t, sa, sigma, use64);
  }

  /** The transform: out of place on the wide path, over the consumed suffix array on the compact one. */
  method MakeBwt(t: array<nat>, sa: array<nat>, sigma: nat, use64: bool) returns (bwt: seq<nat>)
    requires t != sa && t.Length == sa.Length && (forall r :: 0 <= r < sa.Length ==> sa[r] < t.Length)
    requires 0 < sigma <= 258 && forall p :: 0 <= p < t.Length ==> t[p] < sigma
    modifies sa
    ensures bwt == Bwt(t[..], old(sa[..]))
  {
    if use64 {
      bwt := BwtWide(t, sa);
    } else {
      SymbolsFit16(t[..], sa[..], sigma);
      BwtInPlace(t, sa);
      bwt := Narrow(sa);
    }
  }

  /** The descent of position 0 for every symbol. */
  method GroupStarts(wm: WaveletMatrix4, sigma: nat) returns (first: seq<nat>)
    requires wm.Usable()
    ensures |first| == sigma
    ensures forall x: nat :: x < sigma ==> first[x] == Descend(wm.digits, wm.n, x, 0, wm.qlevels)
  {
    hide Descend;
    first := [];
    var x := 0;
    while x < sigma
      invariant 0 <= x <= sigma && |first| == x
      invariant forall y: nat :: y < x ==> first[y] == Descend(wm.digits, wm.n, y, 0, wm.qlevels)
    {
      var f := wm.MapZero(x);
      first := first + [f];
      x := x + 1;
    }
  }

  /** The dense alphabet of the documents, and its inverse. */
  method BuildAlphabet(docs: seq<Document>, fold: bool) returns (ids: seq<int>, sigma: nat, idToByte: seq<Byte>)
    ensures Alphabet(fold, docs, ids, sigma) && InverseOk(fold, ids, sigma, idToByte)
  {
    hide PresentBytes, Derived, DenseId, Count, Alphabet;
    var present := Presence(fold, docs);
    ids, sigma := AssignIds(fold, present);
    AlphabetBuilt(fold, docs, ids, sigma, present);
    idToByte := BuildDerived(ids, sigma);
    InverseBuilt(fold, docs, ids, sigma, idToByte);
  }

  /** The wavelet matrix, C-table and group starts of the transform. */
  method BuildRank(fold: bool, ghost docs: seq<Document>, ids: seq<int>, sigma: nat, ghost sa: seq<nat>,
                   bwt: seq<nat>, qlevels: nat, wordsPerBlock: nat)
    returns (wm: WaveletMatrix4, c: seq<nat>, first: seq<nat>)
    requires Layout(fold, docs, ids, sigma, sa) && bwt == Bwt(Text(ids, docs), sa) && qlevels == LevelsFor(sigma)
    ensures RankOk(wm, c, first, qlevels, sigma, bwt) && c != []
  {
    hide Count, CountBelow, Descend, Top, Layout, Bwt;
    TransformFits(fold, docs, ids, sigma, sa);
    c := CTable(bwt, sigma);
    wm := new WaveletMatrix4.Build(bwt, qlevels, wordsPerBlock);
    first := GroupStarts(wm, sigma);
  }

  /** Words per rank block for a block size in bytes: the largest power of two within [1, 16]. */
  function BlockWords(blockBytes: nat): (w: nat)
    ensures SmallPower(w) && (8 <= blockBytes <= 135 ==> w <= blockBytes / 8 < 2 * w)
    ensures (blockBytes < 16 ==> w == 1) && (blockBytes >= 128 ==> w == 16)
  {
    ClampedPow2((if blockBytes == 0 then 8 else blockBytes) / 8)
  }

  lemma SymbolsFit16(t: seq<nat>, sa: seq<nat>, sigma: nat)
    requires |sa| == |t| && (forall r :: 0 <= r < |sa| ==> sa[r] < |t|) && 0 < sigma <= 258
    requires forall p :: 0 <= p < |t| ==> t[p] < sigma
    ensures forall r :: 0 <= r < |sa| ==> Bwt(t, sa)[r] < sigma
  {}

  lemma AlphabetBuilt(fold: bool, docs: seq<Document>, ids: seq<int>, sigma: nat, present: seq<nat>)
    requires AlphabetOf(fold, docs, ids, sigma, present)
    ensures Alphabet(fold, docs, ids, sigma)
    ensures forall b :: 0 <= b < 256 ==> ids[b] < sigma
  {
    forall b | 0 <= b < 256
      ensures ids[b] < sigma
    {
      IdRange(fold, docs, ids, sigma, b);
    }
  }

  lemma TransformFits(fold: bool, docs: seq<Document>, ids: seq<int>, sigma: nat, sa: seq<nat>)
    requires Layout(fold, docs, ids, sigma, sa)
    ensures sigma >= 2
    ensures forall i :: 0 <= i < |sa| ==>
              Bwt(Text(ids, docs), sa)[i] < sigma && Top(Bwt(Text(ids, docs), sa)[i], LevelsFor(sigma)) == 0
  {
    hide Top, Text;
    CorpusIsText(fold, docs, ids, sigma);
    IdRange(fold, docs, ids, sigma, 0);
    SymbolsFit16(Text(ids, docs), sa, sigma);
    forall i | 0 <= i < |sa|
      ensures Top(Bwt(Text(ids, docs), sa)[i], LevelsFor(sigma)) == 0
    {
      IdsFitLevels(sigma, Bwt(Text(ids, docs), sa)[i]);
    }
  }

  lemma InverseBuilt(fold: bool, docs: seq<Document>, ids: seq<int>, sigma: nat, idToByte: seq<Byte>)
    requires Alphabet(fold, docs, ids, sigma) && Derived(ids, 256, sigma, idToByte)
    ensures InverseOk(fold, ids, sigma, idToByte)
  {
    forall b: Byte | ids[b] != -1
      ensures 0 <= ids[b] < sigma && idToByte[ids[b]] == Fold(fold, b)
    {
      IdRange(fold, docs, ids, sigma, b);
      LastIsFolded(fold, docs, ids, sigma, b, idToByte[ids[b]]);
    }
  }

  /** The first index whose element exceeds x. */
  method UpperBound(s: seq<nat>, x: nat) returns (i: nat)
    requires Ascending(s)
    ensures i <= |s|
    ensures (forall k :: 0 <= k < i ==> s[k] <= x) && (forall k :: i <= k < |s| ==> x < s[k])
  {
    i := 0;
    var j := |s|;
    while i < j
      invariant 0 <= i <= j <= |s|
      invariant (forall k :: 0 <= k < i ==> s[k] <= x) && (forall k :: j <= k < |s| ==> x < s[k])
    {
      var mid := (i + j) / 2;
      if s[mid] <= x {
        i := mid + 1;
      } else {
        j := mid;
      }
    }
  }

  lemma DocStartsAscending(docs: seq<Document>)
    ensures Ascending(DocStarts(docs, |docs|))
  {
    forall d, e | 0 <= d < e <= |docs|
      ensures DocStart(docs, d) < DocStart(docs, e)
    {
      DocStartMonotone(docs, d, e);
    }
  }

  lemma FirstStart(docs: seq<Document>)
    ensures DocStart(docs, 0) == 0
  {}

  lemma WrapAround(a: nat, f: nat, k: nat)
    requires a + k < TWO64
    ensures ((a - f) % TWO64 + (f + k)) % TWO64 == a + k
  {}

  lemma StepBelow(v: nat, rate: nat)
    requires rate > 0 && v % rate != 0
    ensures v > 0 && (v - 1) / rate == v / rate
  {
    assert v == v / rate * rate + v % rate;
    DivUnique(v - 1, rate, v / rate, v % rate - 1);
  }

  lemma StepsAreRemainder(v: nat, w: nat, rate: nat)
    requires rate > 0 && w % rate == 0 && w <= v && w / rate == v / rate
    ensures v - w == v % rate
  {}
}
