/** Writing an index to a blob, in memory and as a stream. */
module Serializers {
  import opened Corpus
  import opened Construction
  import opened LittleEndian
  import opened Blobs
  import opened BlobTheory
  import opened FMIndexes
  import opened Images
  import opened ByteLayout
  import opened StoredBytes

  method PutAll(s0: seq<Byte>, vs: seq<nat>, w: nat) returns (s: seq<Byte>)
    ensures s == s0 + Table(vs, w)
  {
    hide Le;
    s := s0;
    var i := 0;
    assert vs[..0] == [];
    while i < |vs|
      invariant 0 <= i <= |vs| && s == s0 + Table(vs[..i], w)
    {
      s := s + Le(vs[i], w);
      assert vs[..i + 1][..i] == vs[..i];
      i := i + 1;
    }
    assert vs[..|vs|] == vs;
  }

  lemma RowsStep(rows: seq<seq<nat>>, i: nat, w: nat)
    requires i < |rows|
    ensures Rows(rows[..i + 1], w) == Rows(rows[..i], w) + Table(rows[i], w)
  {
    assert rows[..i + 1][..i] == rows[..i];
  }

  /** Rows of 8-byte numbers keep an 8-byte boundary. */
  lemma {:induction false} RowsAligned(rows: seq<seq<nat>>)
    ensures |Rows(rows, 8)| % 8 == 0
  {
    if rows != [] {
      RowsAligned(rows[..|rows| - 1]);
    }
  }

  /** The header: magic and version, scalars, ids, C-table, group starts, section sizes. */
  method WriteHeader(fm: FMIndex) returns (s: seq<Byte>)
    requires Shaped(fm)
    ensures s == HeadBytes(Image(fm).head, WrittenSizes(Image(fm)))
    ensures fm.Valid() && fm.c != [] ==>
              && |s| == 1080 + 8 * fm.sigma + 40 * fm.qlevels && s[..8] == [0x58, 0x49, 0x4D, 0x46, 8, 0, 0, 0]
              && ScalarsStored(s, fm.saSampleRate, fm.sigma, fm.qlevels, fm.caseFold, fm.wide, fm.wordsPerBlock, fm.textLen)
              && IdsStored(s, fm.byteToId, fm.c)
  {
    hide FMIndex.Valid, HeadBytes, WrittenSizes, ScalarsStored, IdsStored;
    s := PutHeader(fm);
    if fm.Valid() && fm.c != [] {
      HeaderStands(fm, s);
    }
  }

  lemma SameFront(b: seq<Byte>, n: nat)
    requires n <= |b|
    ensures forall off: nat :: off + 4 <= n ==> U32(b[..n], off) == U32(b, off)
    ensures forall off: nat :: off + 8 <= n ==> U64(b[..n], off) == U64(b, off)
  {}

  lemma FrontStands(b: seq<Byte>, n: nat, fm: FMIndex)
    requires FrontGood(b) && Stores(b, fm) && 1056 + 8 * |fm.c| <= n <= |b|
    ensures b[..n][..8] == [0x58, 0x49, 0x4D, 0x46, 8, 0, 0, 0]
    ensures ScalarsStored(b[..n], fm.saSampleRate, fm.sigma, fm.qlevels, fm.caseFold, fm.wide, fm.wordsPerBlock, fm.textLen)
    ensures IdsStored(b[..n], fm.byteToId, fm.c)
  {
    hide U32, U64, StartsStored, LevelsStored, WordsStored, SamplesStored, BoundsStored, LevelsGood;
    SameFront(b, n);
    assert b[..n][..8] == b[..8];
  }

  lemma HeaderStands(fm: FMIndex, s: seq<Byte>)
    requires Shaped(fm) && fm.Valid() && fm.c != [] && s == HeadBytes(Image(fm).head, WrittenSizes(Image(fm)))
    ensures |s| == 1080 + 8 * fm.sigma + 40 * fm.qlevels && s[..8] == [0x58, 0x49, 0x4D, 0x46, 8, 0, 0, 0]
    ensures ScalarsStored(s, fm.saSampleRate, fm.sigma, fm.qlevels, fm.caseFold, fm.wide, fm.wordsPerBlock, fm.textLen)
    ensures IdsStored(s, fm.byteToId, fm.c)
  {
    hide FMIndex.Valid, HeadBytes, BodyOk, HeadOk, Table, Rows, Pad, Acceptable, Stores, Tidy, ScalarsStored, IdsStored;
    ImageOk(fm);
    var f := Image(fm);
    SizesWritten(f);
    HeadLength(f.head);
    EncodingStores(fm);
    var e := Encode(f);
    assert e[..|s|] == s;
    FrontStands(e, |s|, fm) by { StoredFront(e, fm); }
  }

  lemma StoredFront(b: seq<Byte>, fm: FMIndex)
    requires Acceptable(b) && Stores(b, fm)
    ensures FrontGood(b) && |fm.c| == fm.sigma
  {}

  method PutHeader(fm: FMIndex) returns (s: seq<Byte>)
    requires Shaped(fm)
    ensures s == HeadBytes(Image(fm).head, WrittenSizes(Image(fm)))
  {
    hide Table, Rows, WrittenSizes;
    var flags: nat := (if fm.caseFold then 1 else 0) + (if fm.wide then 2 else 0) + 256 * fm.wordsPerBlock;
    s := PutAll([], [MAGIC, VERSION, fm.saSampleRate, fm.sigma, fm.qlevels, flags], 4);
    s := PutAll(s, [fm.textLen], 8);
    s := PutAll(s, UnsignedAll(fm.byteToId), 4);
    s := PutAll(s, fm.c, 8);
    s := PutRows(s, fm.wm.start);
    var sizes := SectionCounts(fm);
    s := PutAll(s, sizes, 8);
  }

  method PutRows(s0: seq<Byte>, rows: seq<seq<nat>>) returns (s: seq<Byte>)
    ensures s == s0 + Rows(rows, 8)
  {
    hide Table, Rows;
    s := s0;
    NoRows(rows);
    var l := 0;
    while l < |rows|
      invariant 0 <= l <= |rows| && s == s0 + Rows(rows[..l], 8)
    {
      s := PutAll(s, rows[l], 8);
      RowsStep(rows, l, 8);
      l := l + 1;
    }
    assert rows[..l] == rows;
  }

  method SectionCounts(fm: FMIndex) returns (sizes: seq<nat>)
    requires Shaped(fm)
    ensures sizes == WrittenSizes(Image(fm))
  {
    sizes := [];
    var l := 0;
    while l < fm.qlevels
      invariant 0 <= l <= fm.qlevels && |sizes| == l && forall k :: 0 <= k < l ==> sizes[k] == |fm.wm.qv[k].words|
    {
      sizes := sizes + [|fm.wm.qv[l].words|];
      l := l + 1;
    }
    sizes := sizes + [|fm.sampled.words|, |fm.samples|, |fm.docStart|];
  }

  lemma NoRows(rows: seq<seq<nat>>)
    ensures Rows(rows[..0], 8) == []
  {}

  lemma HeadAligned(h: Header, sizes: seq<nat>)
    requires |h.ids| == 256
    ensures |HeadBytes(h, sizes)| % 8 == 0
  {
    hide Table, Rows;
    RowsAligned(h.starts);
  }

  /** Zero bytes up to the next multiple of eight, one at a time. */
  method AlignTo8(s0: seq<Byte>) returns (s: seq<Byte>)
    ensures s == s0 + Zeros(Pad(|s0|))
  {
    s := s0;
    ghost var k := 0;
    while |s| % 8 != 0
      invariant 0 <= k <= Pad(|s0|) && s == s0 + Zeros(k)
      decreases Pad(|s0|) - k
    {
      s := s + [0];
      k := k + 1;
    }
  }

  lemma AlignedStays(s: seq<Byte>)
    requires |s| % 8 == 0
    ensures s + Zeros(Pad(|s|)) == s
  {}

  /** The in-memory blob. Of a built index every field stands at its offset, in a blob the loader accepts. */
  method Serialize(fm: FMIndex) returns (s: seq<Byte>)
    requires Shaped(fm)
    ensures s == Encode(Image(fm))
    ensures FieldsOk(Image(fm)) ==> Acceptable(s) && Stores(s, fm) && Tidy(s)
    ensures fm.Valid() && fm.c != [] ==> Acceptable(s) && Stores(s, fm) && Tidy(s)
  {
    hide FMIndex.Valid, FieldsOk, Acceptable, Stores, Tidy, Encode;
    s := WriteSections(fm);
    EncodingStores(fm);
  }

  /** The encoding of good content, byte by byte. */
  lemma EncodingStores(fm: FMIndex)
    ensures FieldsOk(Image(fm)) ==>
              Acceptable(Encode(Image(fm))) && Stores(Encode(Image(fm)), fm) && Tidy(Encode(Image(fm)))
    ensures fm.Valid() && fm.c != [] ==> FieldsOk(Image(fm))
  {
    hide FMIndex.Valid, FieldsOk, Acceptable, Stores, Tidy, Encode, Parse, Image;
    if FieldsOk(Image(fm)) {
      EncodedTidy(Image(fm));
      ParsedStores(Encode(Image(fm)), fm);
    }
    if fm.Valid() && fm.c != [] {
      ImageOk(fm);
    }
  }

  method WriteSections(fm: FMIndex) returns (s: seq<Byte>)
    requires Shaped(fm)
    ensures s == Encode(Image(fm))
  {
    hide FMIndex.Valid, Table, Rows, HeadBytes, WrittenSizes, Pad, ScalarsStored, IdsStored;
    s := WriteHeader(fm);
    ghost var f := Image(fm);
    HeadAligned(f.head, WrittenSizes(f));
    ghost var rows := NumberRows(f.quads);
    s := WriteQuads(fm, s);
    RowsAligned(rows);
    AlignedStays(s);
    s := AlignTo8(s);
    s := PutAll(s, Numbers(fm.sampled.words), 8);
    AlignedStays(s);
    s := AlignTo8(s);
    s := PutAll(s, fm.samples, if fm.wide then 8 else 4);
    s := AlignTo8(s);
    s := PutAll(s, fm.docStart, 8);
  }

  /** The packed words of every level, each on an 8-byte boundary. */
  method WriteQuads(fm: FMIndex, s0: seq<Byte>) returns (s: seq<Byte>)
    requires Shaped(fm) && |s0| % 8 == 0
    ensures s == s0 + Rows(NumberRows(Image(fm).quads), 8) && |s| % 8 == 0
  {
    hide Table, Rows, Pad, Numbers;
    s := s0;
    ghost var rows := NumberRows(Image(fm).quads);
    NoRows(rows);
    var l := 0;
    while l < fm.qlevels
      invariant 0 <= l <= fm.qlevels && s == s0 + Rows(rows[..l], 8) && |s| % 8 == 0
    {
      AlignedStays(s);
      s := AlignTo8(s);
      s := PutAll(s, Numbers(fm.wm.qv[l].words), 8);
      RowsStep(rows, l, 8);
      l := l + 1;
    }
    assert rows[..l] == rows;
  }

  /** The same blob written as a stream: only the running offset is kept, and padding is computed from it. */
  method SerializeToStream(fm: FMIndex) returns (written: seq<Byte>)
    requires Shaped(fm)
    ensures written == Encode(Image(fm))
    ensures fm.Valid() && fm.c != [] ==> Acceptable(written) && Stores(written, fm) && Tidy(written)
  {
    hide FMIndex.Valid, FieldsOk, Acceptable, Stores, Tidy, Encode;
    written := StreamSections(fm);
    EncodingStores(fm);
  }

  method StreamSections(fm: FMIndex) returns (written: seq<Byte>)
    requires Shaped(fm)
    ensures written == Encode(Image(fm))
  {
    hide FMIndex.Valid, Table, Rows, HeadBytes, WrittenSizes, Pad, ScalarsStored, IdsStored;
    written := WriteHeader(fm);
    ghost var f := Image(fm);
    HeadAligned(f.head, WrittenSizes(f));
    var off;
    written, off := StreamQuads(fm, written, |written|);
    written, off := Emit(written, off, Numbers(fm.sampled.words), 8);
    written, off := Emit(written, off, fm.samples, if fm.wide then 8 else 4);
    written, off := Emit(written, off, fm.docStart, 8);
  }

  method StreamQuads(fm: FMIndex, written0: seq<Byte>, off0: nat) returns (written: seq<Byte>, off: nat)
    requires Shaped(fm) && off0 == |written0| && off0 % 8 == 0
    ensures written == written0 + Rows(NumberRows(Image(fm).quads), 8) && off == |written| && off % 8 == 0
  {
    hide Table, Rows, Pad, Numbers;
    written, off := written0, off0;
    ghost var rows := NumberRows(Image(fm).quads);
    NoRows(rows);
    var l := 0;
    while l < fm.qlevels
      invariant 0 <= l <= fm.qlevels && written == written0 + Rows(rows[..l], 8)
      invariant off == |written| && off % 8 == 0
    {
      written, off := Emit(written, off, Numbers(fm.wm.qv[l].words), 8);
      RowsStep(rows, l, 8);
      l := l + 1;
    }
    assert rows[..l] == rows;
  }

  /** Pads to a boundary and writes one section. */
  method Emit(written0: seq<Byte>, off0: nat, vs: seq<nat>, w: nat) returns (written: seq<Byte>, off: nat)
    requires off0 == |written0|
    ensures written == written0 + Zeros(Pad(off0)) + Table(vs, w) && off == |written|
    ensures off0 % 8 == 0 ==> written == written0 + Table(vs, w)
    ensures off0 % 8 == 0 && w == 8 ==> off % 8 == 0
  {
    hide Table;
    var pad := (8 - off0 % 8) % 8;
    written := PutAll(written0 + Zeros(pad), vs, w);
    off := off0 + pad + |vs| * w;
    if off0 % 8 == 0 {
      AlignedStays(written0);
    }
  }
}
