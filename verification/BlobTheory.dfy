/** A blob that was written from acceptable fields is accepted and reads back as those fields. */
module BlobTheory {
  import opened Counting
  import opened Corpus
  import opened Construction
  import opened LittleEndian
  import opened QuadVectors
  import opened WordBytes
  import opened Blobs
  import BitVectors

  lemma StandsTwo(b: seq<Byte>, off: nat, x: seq<Byte>, y: seq<Byte>)
    requires StandsAt(b, off, x + y)
    ensures StandsAt(b, off, x) && StandsAt(b, off + |x|, y)
  {
    hide StandsAt;
    assert x + y + [] == x + y;
    StandsPart(b, off, x, y, []);
  }

  // ----- the header -----

  lemma FlagsRead(h: Header)
    requires SmallPower(h.wpb)
    ensures Flags(h) < 0x1_0000
    ensures Flags(h) % 2 == 1 <==> h.fold
    ensures Flags(h) / 2 % 2 == 1 <==> h.wide
    ensures Flags(h) / 256 % 256 == h.wpb
  {}

  lemma HeadPieces(b: seq<Byte>, h: Header)
    requires StandsAt(b, 0, HeadBytes(h, SectionSizes(h))) && |h.ids| == 256 && |h.c| == h.sigma
             && |h.starts| == h.qlevels
    requires forall l :: 0 <= l < h.qlevels ==> |h.starts[l]| == 4
    ensures |HeadBytes(h, SectionSizes(h))| == HeadSize(h.sigma, h.qlevels)
    ensures StandsAt(b, 0, Table(FirstWords(h), 4)) && StandsAt(b, 24, Table([h.textLen], 8))
    ensures StandsAt(b, 32, Table(UnsignedAll(h.ids), 4)) && StandsAt(b, 1056, Table(h.c, 8))
    ensures StandsAt(b, 1056 + h.sigma * 8, Rows(h.starts, 8))
    ensures StandsAt(b, HeadSize(h.sigma, h.qlevels) - 8 * (h.qlevels + 3), Table(SectionSizes(h), 8))
  {
    hide StandsAt, Table, Rows;
    RowsSize(h.starts, 8, 4);
    var t1, t2, t3 := Table(FirstWords(h), 4), Table([h.textLen], 8), Table(UnsignedAll(h.ids), 4);
    var t4, t5, t6 := Table(h.c, 8), Rows(h.starts, 8), Table(SectionSizes(h), 8);
    StandsTwo(b, 0, t1 + t2 + t3 + t4 + t5, t6);
    StandsTwo(b, 0, t1 + t2 + t3 + t4, t5);
    StandsTwo(b, 0, t1 + t2 + t3, t4);
    StandsTwo(b, 0, t1 + t2, t3);
    StandsTwo(b, 0, t1, t2);
  }

  lemma WordsRead(b: seq<Byte>, h: Header)
    requires StandsAt(b, 0, HeadBytes(h, SectionSizes(h))) && HeadOk(h)
    ensures |b| >= HeadSize(h.sigma, h.qlevels) >= 32
    ensures NumbersAt(b, 0, 4, 6) == FirstWords(h) && NumberAt(b, 24, 8) == h.textLen
  {
    hide Table, Rows, NumberAt, LevelsFor;
    Widths();
    HeadPieces(b, h);
    FlagsRead(h);
    TopLevels(h.sigma);
    TableRead(b, 0, FirstWords(h), 4);
    TableEntry(b, 24, [h.textLen], 8, 0);
  }

  /** At most 258 ids never take more than five levels. */
  lemma TopLevels(sigma: nat)
    requires sigma <= 258
    ensures LevelsFor(sigma) <= 5
  {
    BitsAtMost(sigma, 1);
  }

  lemma {:induction false} BitsAtMost(sigma: nat, bits: nat)
    requires sigma <= 258 && 1 <= bits <= 9
    ensures BitsFor(sigma, bits) <= 9
    decreases 9 - bits
  {
    assert Pow2(9) == 512 by {
      assert Pow2(3) == 8 && Pow2(6) == 64;
    }
    if bits < 9 {
      BitsAtMost(sigma, bits + 1);
    }
  }

  lemma TablesRead(b: seq<Byte>, h: Header)
    requires StandsAt(b, 0, HeadBytes(h, SectionSizes(h))) && HeadOk(h) && |b| >= HeadSize(h.sigma, h.qlevels)
    ensures SignedAll(NumbersAt(b, 32, 4, 256)) == h.ids
    ensures NumbersAt(b, 1056, 8, h.sigma) == h.c
    ensures StartsAt(b, h) == h.starts
    ensures NumbersAt(b, HeadSize(h.sigma, h.qlevels) - 8 * (h.qlevels + 3), 8, h.qlevels + 3) == SectionSizes(h)
  {
    hide Table, Rows, NumberAt, LevelsFor;
    Widths();
    HeadPieces(b, h);
    IdsRead(b, h);
    TableRead(b, 1056, h.c, 8);
    StartsRead(b, h);
    SectionSizesFit(h);
    TableRead(b, HeadSize(h.sigma, h.qlevels) - 8 * (h.qlevels + 3), SectionSizes(h), 8);
  }

  lemma IdsRead(b: seq<Byte>, h: Header)
    requires StandsAt(b, 32, Table(UnsignedAll(h.ids), 4)) && HeadOk(h) && |b| >= 1056
    ensures SignedAll(NumbersAt(b, 32, 4, 256)) == h.ids
  {
    hide Table, NumberAt, LevelsFor, Unsigned32, Signed32;
    Widths();
    TableRead(b, 32, UnsignedAll(h.ids), 4);
    forall i | 0 <= i < 256
      ensures SignedAll(UnsignedAll(h.ids))[i] == h.ids[i]
    {
      assert IdOk(h.ids[i], h.sigma);
      SignedRead(h.ids[i]);
    }
  }

  lemma StartsRead(b: seq<Byte>, h: Header)
    requires StandsAt(b, 1056 + h.sigma * 8, Rows(h.starts, 8)) && HeadOk(h) && |b| >= HeadSize(h.sigma, h.qlevels)
    ensures StartsAt(b, h) == h.starts
  {
    hide Table, Rows, NumberAt, LevelsFor, StandsAt;
    forall l: nat | l < h.qlevels
      ensures StartsAt(b, h)[l] == h.starts[l]
    {
      assert StartsRow(h.starts[l]);
      RowEntry(b, 1056 + h.sigma * 8, h.starts, 8, 4, l);
      TableRead(b, 8 * (132 + h.sigma + 4 * l), h.starts[l], 8);
    }
  }

  lemma SectionSizesFit(h: Header)
    requires HeadOk(h)
    ensures forall i :: 0 <= i < |SectionSizes(h)| ==> SectionSizes(h)[i] < Pow256(8)
  {
    hide LevelsFor, SamplesIn;
    Widths();
    SamplesFew(h);
  }

  lemma SamplesFew(h: Header)
    ensures SamplesIn(h) <= h.textLen + 1
  {
    if h.rate > 0 {
      SmallerQuotient(h.textLen, h.rate);
    }
  }

  lemma SmallerQuotient(n: nat, d: nat)
    requires d > 0
    ensures n / d <= n
  {
    FloorMultiple(n, d);
    MulMonotone(1, d, n / d);
  }

  /** Reading a header written from acceptable fields gives them back. */
  lemma HeadRoundTrip(b: seq<Byte>, h: Header)
    requires StandsAt(b, 0, HeadBytes(h, SectionSizes(h))) && HeadOk(h)
    ensures |b| >= HeadSize(h.sigma, h.qlevels) && ParseHead(b) == Some(h)
  {
    hide HeadBytes, NumberAt, NumbersAt, LevelsFor, StandsAt, StartsAt, SectionSizes;
    WordsRead(b, h);
    FlagsRead(h);
    TablesRead(b, h);
    LastSize(b, h);
    var bare := h.(ids := [], c := [], starts := [], bounds := 0);
    assert StartsAt(b, bare) == StartsAt(b, h);
    assert ParseTables(b, bare) == Some(h);
    var w := FirstWords(h);
    assert bare == Header(w[2], w[3], w[4], w[5] % 2 == 1, w[5] / 2 % 2 == 1, w[5] / 256 % 256, h.textLen, [], [], [], 0);
  }

  lemma LastSize(b: seq<Byte>, h: Header)
    requires |b| >= HeadSize(h.sigma, h.qlevels)
    requires NumbersAt(b, HeadSize(h.sigma, h.qlevels) - 8 * (h.qlevels + 3), 8, h.qlevels + 3) == SectionSizes(h)
    ensures NumberAt(b, HeadSize(h.sigma, h.qlevels) - 8, 8) == h.bounds
  {
    hide NumberAt;
    var off, n := HeadSize(h.sigma, h.qlevels) - 8 * (h.qlevels + 3), h.qlevels + 3;
    assert EntryFits(off, 8, n, n - 1, |b|);
    assert NumbersAt(b, off, 8, n)[n - 1] == NumberAt(b, off + (n - 1) * 8, 8);
    assert SectionSizes(h)[n - 1] == h.bounds;
  }

  /** Whatever header is read is acceptable. */
  lemma HeadReadOk(b: seq<Byte>)
    requires ParseHead(b).Some?
    ensures HeadOk(ParseHead(b).value) && |b| >= HeadSize(ParseHead(b).value.sigma, ParseHead(b).value.qlevels)
  {
    hide NumberAt, LevelsFor, SmallPower, SectionSizes;
    var h := ParseHead(b).value;
    forall x: nat | x < h.sigma
      ensures h.c[x] < Pow256(8)
    {
      assert EntryFits(1056, 8, h.sigma, x, |b|);
    }
    forall l: nat | l < h.qlevels
      ensures StartsRow(h.starts[l])
    {
      forall d: nat | d < 4
        ensures h.starts[l][d] < Pow256(8)
      {
        assert EntryFits(8 * (132 + h.sigma + 4 * l), 8, 4, d, |b|);
      }
    }
  }

  // ----- the payload -----

  lemma NumbersBack(b: seq<Byte>, off: nat, ws: seq<bv64>)
    requires StandsAt(b, off, Table(Numbers(ws), 8))
    ensures off + |ws| * 8 <= |b| && WordsAt(b, off, |ws|) == ws
  {
    hide Table, NumberAt, NumbersAt, NumberOf, WordFrom, Pow256;
    TableRead(b, off, Numbers(ws), 8);
    forall i | 0 <= i < |ws|
      ensures WordsAt(b, off, |ws|)[i] == ws[i]
    {
      NumberBack(ws[i]);
    }
  }

  lemma SizesWritten(f: Fields)
    requires SizesOk(f)
    ensures WrittenSizes(f) == SectionSizes(f.head)
  {}

  lemma BodyPieces(b: seq<Byte>, f: Fields)
    requires StandsAt(b, 0, Encode(f)) && FieldsOk(f)
    ensures StandsAt(b, 0, HeadBytes(f.head, SectionSizes(f.head)))
    ensures StandsAt(b, HeadSize(f.head.sigma, f.head.qlevels), Rows(NumberRows(f.quads), 8))
    ensures StandsAt(b, QuadsEnd(f.head), Table(Numbers(f.sampled), 8))
    ensures StandsAt(b, SampledEnd(f.head), Table(f.samples, SampleWidth(f.head)))
    ensures StandsAt(b, SamplesEnd(f.head), Zeros(Pad(SamplesEnd(f.head))))
    ensures StandsAt(b, BoundsStart(f.head), Table(f.docStart, 8)) && BlobSize(f.head) <= |b|
    ensures |Encode(f)| == BlobSize(f.head)
  {
    hide StandsAt, Table, Rows, LevelsFor, HeadBytes, BodyOk, HeadSize, Pad;
    var t1, t2, t3 := HeadBytes(f.head, SectionSizes(f.head)), Rows(NumberRows(f.quads), 8), Table(Numbers(f.sampled), 8);
    var t4, t5 := Table(f.samples, SampleWidth(f.head)), Table(f.docStart, 8);
    HeadLength(f.head);
    SizesWritten(f);
    RowsSize(NumberRows(f.quads), 8, QuadVectors.WordCount(f.head.textLen + 1));
    var z := Zeros(Pad(|t1 + t2 + t3 + t4|));
    assert |t1 + t2 + t3 + t4| == SamplesEnd(f.head);
    StandsTwo(b, 0, t1 + t2 + t3 + t4 + z, t5);
    StandsTwo(b, 0, t1 + t2 + t3 + t4, z);
    StandsTwo(b, 0, t1 + t2 + t3, t4);
    StandsTwo(b, 0, t1 + t2, t3);
    StandsTwo(b, 0, t1, t2);
    StandsInside(b, BoundsStart(f.head), t5);
  }

  lemma StandsInside(b: seq<Byte>, off: nat, s: seq<Byte>)
    requires StandsAt(b, off, s)
    ensures off + |s| <= |b|
  {}

  lemma HeadLength(h: Header)
    requires HeadOk(h)
    ensures |HeadBytes(h, SectionSizes(h))| == HeadSize(h.sigma, h.qlevels)
  {
    hide Table, Rows, LevelsFor;
    RowsSize(h.starts, 8, 4);
  }

  lemma QuadsRead(b: seq<Byte>, f: Fields)
    requires StandsAt(b, HeadSize(f.head.sigma, f.head.qlevels), Rows(NumberRows(f.quads), 8)) && SizesOk(f)
    requires QuadsEnd(f.head) <= |b|
    ensures QuadsAt(b, f.head) == f.quads
  {
    hide StandsAt, Table, Rows, HeadSize, QuadVectors.WordCount, WordsAt;
    var h := f.head;
    forall l: nat | l < h.qlevels
      ensures QuadsAt(b, h)[l] == f.quads[l]
    {
      assert LevelFits(b, h, l);
      RowEntry(b, HeadSize(h.sigma, h.qlevels), NumberRows(f.quads), 8, QuadVectors.WordCount(h.textLen + 1), l);
      NumbersBack(b, LevelStart(h, l), f.quads[l]);
    }
  }

  /** What was written from acceptable fields is accepted, and gives exactly those fields back, whatever
      bytes may follow. */
  lemma ParseRoundTrip(f: Fields, tail: seq<Byte>)
    requires FieldsOk(f)
    ensures Parse(Encode(f) + tail) == Some(f)
  {
    hide Encode, ParseHead, HeadBytes, NumberAt, NumbersAt, LevelsFor, BodyOk, QuadsAt, WordsAt, Rows, Table;
    var b := Encode(f) + tail;
    assert StandsAt(b, 0, Encode(f)) by {
      assert b[0..0 + |Encode(f)|] == Encode(f);
    }
    var h := f.head;
    BodyPieces(b, f);
    HeadRoundTrip(b, h);
    QuadsRead(b, f);
    NumbersBack(b, QuadsEnd(h), f.sampled);
    TableRead(b, SampledEnd(h), f.samples, SampleWidth(h));
    TableRead(b, BoundsStart(h), f.docStart, 8);
  }

  /** Whatever is accepted is acceptable: no byte sequence gets past the checks otherwise. */
  lemma ParsedOk(b: seq<Byte>)
    requires Parse(b).Some?
    ensures FieldsOk(Parse(b).value) && BlobSize(Parse(b).value.head) <= |b|
  {
    hide ParseHead, HeadOk, BodyOk, BlobSize;
    HeadReadOk(b);
  }

  /** Two blobs written from acceptable fields are equal only if the fields are. */
  lemma EncodeInjective(f: Fields, g: Fields)
    requires FieldsOk(f) && FieldsOk(g) && Encode(f) == Encode(g)
    ensures f == g
  {
    hide Encode, Parse, FieldsOk;
    ParseRoundTrip(f, []);
    ParseRoundTrip(g, []);
  }
}
