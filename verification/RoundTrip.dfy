/** A built index survives being written and loaded: same content, same answers, same bytes again. */
module RoundTrips {
  import opened Counting
  import opened Sorting
  import opened SuffixArrays
  import opened Corpus
  import opened QueryTheory
  import opened Construction
  import opened LittleEndian
  import opened QuadVectors
  import opened WaveletTheory
  import opened WaveletMatrices
  import opened FMIndexes
  import opened Blobs
  import opened BlobTheory
  import opened Images
  import opened ByteLayout
  import opened StoredBytes
  import opened Serializers
  import opened Loaders
  import opened Extraction
  import BitVectors

  // ----- what is loaded back is the same index -----

  lemma SameDigits(fm: FMIndex, src: FMIndex)
    requires src.Valid() && src.c != [] && Loaded(fm, Image(src))
    ensures fm.wm.digits == src.wm.digits && fm.wm.n == src.wm.n && fm.wm.qlevels == src.wm.qlevels
  {
    hide Layout, SamplingOk, Layered, DirectoryOk, Digits, Starts, Derived, BitVectors.BitVector.Valid;
    src.LayoutSize();
    forall l | 0 <= l < fm.wm.qlevels
      ensures fm.wm.digits[l] == src.wm.digits[l]
    {
      assert fm.wm.LevelUsable(l) && src.wm.LevelUsable(l);
      assert fm.wm.qv[l].words == src.wm.qv[l].words;
    }
  }

  /** The same group starts per symbol, and the same bytes per id: all that is recomputed on loading. */
  lemma SameDerived(fm: FMIndex, src: FMIndex)
    requires src.Valid() && src.c != [] && Loaded(fm, Image(src))
    ensures fm.first == src.first && fm.idToByte == src.idToByte
  {
    hide Layout, SamplingOk, Layered, DirectoryOk, Descend, Derived, BitVectors.BitVector.Valid, WaveletMatrix4.Usable;
    SameDigits(fm, src);
    DerivedUnique(src.byteToId, src.sigma, fm.idToByte, src.idToByte);
  }

  /** With the same documents behind it, the loaded index is consistent. */
  lemma Restored(fm: FMIndex, src: FMIndex)
    requires src.Valid() && src.c != [] && Loaded(fm, Image(src))
    requires fm.docs == src.docs && fm.sa == src.sa && fm.wm.layers == src.wm.layers
    ensures fm.Valid()
  {
    hide Layout, Layered, DirectoryOk, Descend, Derived, Count, CountBelow, Top, BitVectors.DirectoryOk, SamplesOf;
    SameDigits(fm, src);
    SameDerived(fm, src);
  }

  /** Every stored field of the two indexes is the same. */
  lemma SameImage(fm: FMIndex, src: FMIndex)
    requires src.Valid() && src.c != [] && Loaded(fm, Image(src))
    ensures Image(fm) == Image(src) && Shaped(fm) && fm.c == src.c
  {
    hide Layout, SamplingOk, Layered, DirectoryOk, Descend, Derived, BitVectors.BitVector.Valid, Starts, Digits;
    ImageOk(src);
    assert Image(fm).quads == Image(src).quads;
  }

  /** Serialize, load, serialize: the loaded index is consistent over the same documents, equal in every
      stored and recomputed field, and writes the same bytes. */
  method RoundTrip(src: FMIndex) returns (blob: seq<Byte>, fm: FMIndex, again: seq<Byte>)
    requires src.Valid() && src.c != [] && |Encode(Image(src))| < TWO64
    ensures fresh(fm) && fm.Valid() && fm.c != [] && fm.docs == src.docs && !fm.isaDone
    ensures Image(fm) == Image(src) && fm.first == src.first && fm.idToByte == src.idToByte
    ensures again == blob && Acceptable(blob) && Tidy(blob) && Stores(blob, src) && Stores(blob, fm)
  {
    hide FMIndex.Valid, FieldsOk, Encode, Parse, Loaded, Image, Shaped, Acceptable, Tidy, Stores, Checked, ReservedId;
    ImageOk(src);
    blob := Serialize(src);
    ghost var f := Image(src);
    ParseRoundTrip(f, []);
    assert blob + [] == blob;
    var ok;
    fm, ok := LoadView(blob);
    Adopt(fm, src);
    again := Serialize(fm);
  }

  /** Ghost only: the loaded index is about the source's documents. */
  ghost method Adopt(fm: FMIndex, src: FMIndex)
    requires src.Valid() && src.c != [] && Loaded(fm, Image(src)) && fm != src && fm.wm != src.wm
    modifies fm`docs, fm`sa, fm.wm`layers
    ensures fm.Valid() && fm.c != [] && fm.docs == src.docs && Shaped(fm)
    ensures Image(fm) == Image(src) && fm.first == src.first && fm.idToByte == src.idToByte
  {
    hide FMIndex.Valid, Loaded, Shaped, Image;
    ghost var f := Image(src);
    AdoptDocs(fm, src, f);
    AdoptLayers(fm, src, f);
    Restored(fm, src);
    SameImage(fm, src);
    SameDerived(fm, src);
  }

  ghost method AdoptDocs(fm: FMIndex, src: FMIndex, f: Fields)
    requires Loaded(fm, f)
    modifies fm`docs, fm`sa
    ensures Loaded(fm, f) && fm.docs == old(src.docs) && fm.sa == old(src.sa)
  {
    hide WaveletMatrix4.Usable, Descend, Derived, BitVectors.BitVector.Valid;
    fm.docs, fm.sa := src.docs, src.sa;
  }

  ghost method AdoptLayers(fm: FMIndex, src: FMIndex, f: Fields)
    requires Loaded(fm, f)
    modifies fm.wm`layers
    ensures Loaded(fm, f) && fm.wm.layers == old(src.wm.layers)
  {
    hide DirectoryOk, Digits, Starts, Derived, BitVectors.BitVector.Valid;
    fm.wm.layers := src.wm.layers;
    forall l | 0 <= l < fm.wm.qlevels
      ensures fm.wm.LevelUsable(l)
    {
      assert old(fm.wm.LevelUsable(l));
    }
  }

  // ----- safety of whatever is loaded -----

  /** An accepted blob, whatever its packed words say, gives structures that are safe to follow: every
      endpoint descends inside the matrix, every flagged row has its sample, every sample has its slot in
      the inverse table, every byte id has its table entries. */
  lemma LoadedSafe(fm: FMIndex, f: Fields)
    requires Loaded(fm, f) && FieldsOk(f)
    ensures fm.wm.Usable() && fm.wm.n == fm.textLen + 1 && |fm.c| == |fm.first| == fm.sigma
    ensures forall r: nat :: r <= fm.textLen && fm.sampled.Contents()[r] == 1 ==>
              Count(fm.sampled.Contents(), 1, r) < |fm.samples|
    ensures fm.saSampleRate > 0
    ensures forall k :: 0 <= k < |fm.samples| ==>
              Slot(fm.samples[k], fm.saSampleRate) < Slot(fm.textLen, fm.saSampleRate) + 1
    ensures forall b :: 0 <= b < 256 && fm.byteToId[b] >= 0 ==> fm.byteToId[b] < |fm.c|
  {
    hide LevelsFor, Starts, Digits, BitVectors.Bits, BitVectors.DirectoryOk, Descend, WaveletMatrix4.Usable, Count;
    hide Derived;
    var flags, m := fm.sampled.Contents(), fm.textLen + 1;
    forall r: nat | r < m && flags[r] == 1
      ensures Count(flags, 1, r) < |fm.samples|
    {
      CountMonotone(flags, 1, r, m);
    }
    forall k | 0 <= k < |fm.samples|
      ensures Slot(fm.samples[k], fm.saSampleRate) <= Slot(fm.textLen, fm.saSampleRate)
    {
      assert SampleOk(f.head, fm.samples[k]);
      DivMonotone(fm.samples[k], fm.textLen, fm.saSampleRate);
    }
    forall b | 0 <= b < 256 && fm.byteToId[b] >= 0
      ensures fm.byteToId[b] < |fm.c|
    {
      assert IdOk(fm.byteToId[b], fm.sigma);
    }
  }

  /** Adjacent boundaries in order put all of them in order. */
  lemma {:induction false} BoundsAscend(s: seq<nat>, i: nat, j: nat)
    requires (forall k :: 1 <= k < |s| ==> s[k - 1] < s[k]) && i < j < |s|
    ensures s[i] < s[j]
  {
    if i < j - 1 {
      BoundsAscend(s, i, j - 1);
    }
  }

  /** On anything loaded, the boundary search gives a real document for every text position. */
  method LoadedDocumentOf(fm: FMIndex, ghost f: Fields, pos: nat) returns (d: nat)
    requires Loaded(fm, f) && FieldsOk(f) && pos < fm.textLen
    ensures d + 1 < |fm.docStart| && fm.docStart[d] <= pos < fm.docStart[d + 1]
  {
    hide LevelsFor, Starts, Digits, BitVectors.Bits, BitVectors.BitVector.Valid, Descend, WaveletMatrix4.Usable;
    hide Count, Derived;
    assert fm.docStart[0] == 0 && fm.docStart[|fm.docStart| - 1] == fm.textLen;
    forall i, j | 0 <= i < j < |fm.docStart|
      ensures fm.docStart[i] < fm.docStart[j]
    {
      BoundsAscend(fm.docStart, i, j);
    }
    var i := UpperBound(fm.docStart, pos);
    d := i - 1;
  }

  // ----- what was never built -----

  /** The first words of a blob are the header's first words. */
  lemma FirstWordsRead(f: Fields)
    requires forall k :: 0 <= k < 6 ==> FirstWords(f.head)[k] < Pow256(4)
    ensures |Encode(f)| >= 24 && NumbersAt(Encode(f), 0, 4, 6) == FirstWords(f.head)
  {
    hide Table, Rows, NumberAt;
    var b, t1 := Encode(f), Table(FirstWords(f.head), 4);
    assert HeadBytes(f.head, WrittenSizes(f))[..24] == t1;
    assert b[..24] == t1;
    assert b[0..0 + |t1|] == t1;
    TableRead(b, 0, FirstWords(f.head), 4);
  }

  /** An index that was never built can be written, but nothing loads what it writes. */
  method UnbuiltRefused() returns (blob: seq<Byte>)
    ensures Parse(blob) == None
  {
    hide Encode, NumbersAt, NumberAt;
    var fm := new FMIndex();
    blob := Serialize(fm);
    Widths();
    var f := Image(fm);
    assert f.head.qlevels == 0;
    FirstWordsRead(f);
    SomeLevels(f.head.sigma);
  }

  lemma SomeLevels(sigma: nat)
    ensures LevelsFor(sigma) >= 1
  {}
}
