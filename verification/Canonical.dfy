/** Writing back what was read: every accepted blob is its own encoding, up to the bytes the loader ignores. */
module Canonicals {
  import opened Corpus
  import opened Construction
  import opened LittleEndian
  import opened QuadVectors
  import opened WordBytes
  import opened Blobs
  import opened BlobTheory
  import BitVectors

  // ----- tables and rows -----

  lemma Adjacent(b: seq<Byte>, i: nat, j: nat, k: nat)
    requires i <= j <= k <= |b|
    ensures b[i..j] + b[j..k] == b[i..k]
  {}

  /** A table read and written gives the bytes it was read from. */
  lemma {:induction false} TableWritten(b: seq<Byte>, off: nat, w: nat, n: nat)
    requires off + n * w <= |b|
    ensures Table(NumbersAt(b, off, w, n), w) == b[off..off + n * w]
  {
    hide Le, NumberAt;
    var vs := NumbersAt(b, off, w, n);
    if n > 0 {
      var at := off + (n - 1) * w;
      assert n * w == (n - 1) * w + w;
      TableWritten(b, off, w, n - 1);
      assert vs[..n - 1] == NumbersAt(b, off, w, n - 1) by { Shorter(b, off, w, n); }
      assert Le(vs[n - 1], w) == b[at..at + w] by { Rewritten(b, off, w, n); }
      Adjacent(b, off, at, at + w);
    }
  }

  lemma Shorter(b: seq<Byte>, off: nat, w: nat, n: nat)
    requires 0 < n && off + n * w <= |b|
    ensures off + (n - 1) * w <= |b| && NumbersAt(b, off, w, n)[..n - 1] == NumbersAt(b, off, w, n - 1)
  {
    hide NumberAt;
    assert n * w == (n - 1) * w + w;
    forall i: nat | i < n - 1
      ensures NumbersAt(b, off, w, n)[i] == NumbersAt(b, off, w, n - 1)[i]
    {
      assert EntryFits(off, w, n, i, |b|) && EntryFits(off, w, n - 1, i, |b|);
    }
  }

  lemma Rewritten(b: seq<Byte>, off: nat, w: nat, n: nat)
    requires 0 < n && off + n * w <= |b|
    ensures off + (n - 1) * w + w <= |b|
    ensures Le(NumbersAt(b, off, w, n)[n - 1], w) == b[off + (n - 1) * w..off + (n - 1) * w + w]
  {
    hide Le, UnLe;
    assert EntryFits(off, w, n, n - 1, |b|);
    ReadWritten(b[off + (n - 1) * w..off + (n - 1) * w + w]);
  }

  /** Where row l starts. */
  function RowAt(off: nat, row: nat, l: nat): (r: nat)
    ensures r >= off
  {
    off + l * row
  }

  lemma RowStep(off: nat, row: nat, l: nat)
    ensures RowAt(off, row, l + 1) == RowAt(off, row, l) + row && RowAt(off, row, 0) == off
  {
    assert (l + 1) * row == l * row + row;
  }

  /** Row l is written as the bytes in its place. */
  predicate RowIs(b: seq<Byte>, off: nat, rows: seq<seq<nat>>, w: nat, row: nat, l: nat)
    requires l < |rows|
  {
    && RowAt(off, row, l) <= RowAt(off, row, l + 1) <= |b|
    && Table(rows[l], w) == b[RowAt(off, row, l)..RowAt(off, row, l + 1)]
  }

  lemma RowWritten(b: seq<Byte>, off: nat, rows: seq<seq<nat>>, w: nat, n: nat, l: nat)
    requires l < |rows| && RowAt(off, n * w, l) + n * w <= |b|
    requires rows[l] == NumbersAt(b, RowAt(off, n * w, l), w, n)
    ensures RowIs(b, off, rows, w, n * w, l)
  {
    hide Table, NumbersAt, RowAt;
    RowStep(off, n * w, l);
    TableWritten(b, RowAt(off, n * w, l), w, n);
  }

  /** Rows written one after the other as the bytes in their places are those bytes. */
  lemma {:induction false} RowsWritten(b: seq<Byte>, off: nat, rows: seq<seq<nat>>, w: nat, row: nat)
    requires off <= |b| && forall l: nat :: l < |rows| ==> RowIs(b, off, rows, w, row, l)
    ensures RowAt(off, row, |rows|) <= |b| && Rows(rows, w) == b[off..RowAt(off, row, |rows|)]
  {
    hide Table, RowAt;
    RowStep(off, row, 0);
    if rows != [] {
      var k := |rows| - 1;
      var init := rows[..k];
      forall l: nat | l < k
        ensures RowIs(b, off, init, w, row, l)
      {
        assert RowIs(b, off, rows, w, row, l);
      }
      RowsWritten(b, off, init, w, row);
      assert RowIs(b, off, rows, w, row, k);
      Adjacent(b, off, RowAt(off, row, k), RowAt(off, row, k + 1));
    }
  }

  lemma RowRoom(off: nat, count: nat, row: nat, l: nat, size: nat)
    requires l < count && RowAt(off, row, count) <= size
    ensures RowAt(off, row, l) + row <= size
  {
    MulMonotone(l + 1, count, row);
    RowStep(off, row, l);
  }

  // ----- the header -----

  /** A blob with the ignored bits of its flags word cleared. */
  function CanonicalHead(b: seq<Byte>, h: Header): seq<Byte>
    requires HeadSize(h.sigma, h.qlevels) <= |b|
  {
    b[..20] + Le(Flags(h), 4) + b[24..HeadSize(h.sigma, h.qlevels)]
  }

  lemma FirstWordsWritten(b: seq<Byte>, h: Header)
    requires ParseHead(b) == Some(h) && |b| >= HeadSize(h.sigma, h.qlevels)
    ensures Table(FirstWords(h), 4) == b[..20] + Le(Flags(h), 4)
    ensures Table([h.textLen], 8) == b[24..32]
  {
    hide NumberAt, NumbersAt, LevelsFor, TablesOk, StartsAt, Le, Table;
    var w := NumbersAt(b, 0, 4, 6);
    Shorter(b, 0, 4, 6);
    TableWritten(b, 0, 4, 5);
    assert FirstWords(h)[..5] == w[..5];
    assert FirstWords(h)[5] == Flags(h);
    TableGrows(FirstWords(h), 4);
    TableWritten(b, 24, 8, 1);
    assert NumbersAt(b, 24, 8, 1) == [h.textLen] by { OneNumber(b); }
  }

  lemma OneNumber(b: seq<Byte>)
    requires |b| >= 32
    ensures NumbersAt(b, 24, 8, 1) == [NumberAt(b, 24, 8)]
  {
    hide NumberAt;
    assert EntryFits(24, 8, 1, 0, |b|);
  }

  lemma TableGrows(vs: seq<nat>, w: nat)
    requires vs != []
    ensures Table(vs, w) == Table(vs[..|vs| - 1], w) + Le(vs[|vs| - 1], w)
  {}

  lemma TablesWritten(b: seq<Byte>, h: Header)
    requires ParseHead(b) == Some(h) && |b| >= HeadSize(h.sigma, h.qlevels)
    ensures Table(UnsignedAll(h.ids), 4) == b[32..1056]
    ensures Table(h.c, 8) == b[1056..1056 + h.sigma * 8]
    ensures Rows(h.starts, 8) == b[1056 + h.sigma * 8..1056 + h.sigma * 8 + h.qlevels * 32]
    ensures Table(SectionSizes(h), 8) == b[1056 + h.sigma * 8 + h.qlevels * 32..HeadSize(h.sigma, h.qlevels)]
  {
    hide NumberAt, LevelsFor, Le, Table, Rows, SectionSizes, Signed32, Unsigned32, IdOk;
    TableWritten(b, 32, 4, 256);
    IdsWritten(b);
    TableWritten(b, 1056, 8, h.sigma);
    StartsWritten(b, h);
    TableWritten(b, 1056 + h.sigma * 8 + h.qlevels * 32, 8, h.qlevels + 3);
  }

  lemma IdsWritten(b: seq<Byte>)
    requires |b| >= 1056
    ensures UnsignedAll(SignedAll(NumbersAt(b, 32, 4, 256))) == NumbersAt(b, 32, 4, 256)
  {
    hide NumberAt;
    Widths();
    forall i: nat | i < 256
      ensures Unsigned32(Signed32(NumbersAt(b, 32, 4, 256)[i])) == NumbersAt(b, 32, 4, 256)[i]
    {
      assert EntryFits(32, 4, 256, i, |b|);
      assert NumbersAt(b, 32, 4, 256)[i] == NumberAt(b, 32 + i * 4, 4) < Pow256(4);
    }
  }

  lemma StartsWritten(b: seq<Byte>, h: Header)
    requires |b| >= HeadSize(h.sigma, h.qlevels) && h.starts == StartsAt(b, h)
    ensures Rows(h.starts, 8) == b[1056 + h.sigma * 8..1056 + h.sigma * 8 + h.qlevels * 32]
  {
    hide NumberAt, NumbersAt, Rows;
    var off := 1056 + h.sigma * 8;
    forall l: nat | l < |h.starts|
      ensures RowIs(b, off, h.starts, 8, 32, l)
    {
      RowRoom(off, h.qlevels, 32, l, |b|);
      assert RowAt(off, 32, l) == 8 * (132 + h.sigma + 4 * l);
      RowWritten(b, off, h.starts, 8, 4, l);
    }
    RowsWritten(b, off, h.starts, 8, 32);
  }

  lemma HeadWritten(b: seq<Byte>, h: Header)
    requires ParseHead(b) == Some(h) && |b| >= HeadSize(h.sigma, h.qlevels)
    ensures HeadBytes(h, SectionSizes(h)) == CanonicalHead(b, h)
  {
    hide ParseHead, Table, Rows, Le, SectionSizes, FirstWords, UnsignedAll;
    FirstWordsWritten(b, h);
    TablesWritten(b, h);
    var i, j, k := 1056 + h.sigma * 8, 1056 + h.sigma * 8 + h.qlevels * 32, HeadSize(h.sigma, h.qlevels);
    Adjacent(b, 24, 32, 1056);
    Adjacent(b, 24, 1056, i);
    Adjacent(b, 24, i, j);
    Adjacent(b, 24, j, k);
    var p := b[..20] + Le(Flags(h), 4);
    assert p + b[24..32] + b[32..1056] == p + b[24..1056];
    assert p + b[24..1056] + b[1056..i] == p + b[24..i];
    assert p + b[24..i] + b[i..j] == p + b[24..j];
    assert p + b[24..j] + b[j..k] == p + b[24..k];
  }

  // ----- the payload -----

  lemma WordsWritten(b: seq<Byte>, off: nat, n: nat)
    requires off + n * 8 <= |b|
    ensures Numbers(WordsAt(b, off, n)) == NumbersAt(b, off, 8, n)
  {
    hide NumberAt, NumberOf, WordFrom;
    forall i: nat | i < n
      ensures NumberOf(WordsAt(b, off, n)[i]) == NumbersAt(b, off, 8, n)[i]
    {
      assert EntryFits(off, 8, n, i, |b|);
      FromBack(NumbersAt(b, off, 8, n)[i]);
    }
  }

  lemma QuadsWritten(b: seq<Byte>, h: Header)
    requires QuadsEnd(h) <= |b|
    ensures Rows(NumberRows(QuadsAt(b, h)), 8) == b[HeadSize(h.sigma, h.qlevels)..QuadsEnd(h)]
  {
    hide NumberAt, NumbersAt, Rows, WordsAt, Numbers, HeadSize, QuadVectors.WordCount;
    var off, n := HeadSize(h.sigma, h.qlevels), QuadVectors.WordCount(h.textLen + 1);
    var rows := NumberRows(QuadsAt(b, h));
    forall l: nat | l < |rows|
      ensures RowIs(b, off, rows, 8, n * 8, l)
    {
      RowRoom(off, h.qlevels, n * 8, l, |b|);
      assert LevelFits(b, h, l);
      WordsWritten(b, LevelStart(h, l), n);
      RowWritten(b, off, rows, 8, n, l);
    }
    RowsWritten(b, off, rows, 8, n * 8);
  }

  /** The bytes of a blob that count, with the ignored flag bits and the padding cleared. */
  function Canonical(b: seq<Byte>, h: Header): seq<Byte>
    requires BlobSize(h) <= |b|
  {
    SectionOrder(h);
    CanonicalHead(b, h) + b[HeadSize(h.sigma, h.qlevels)..SamplesEnd(h)]
    + Zeros(BoundsStart(h) - SamplesEnd(h)) + b[BoundsStart(h)..BlobSize(h)]
  }

  lemma BodyWritten(b: seq<Byte>, h: Header)
    requires BlobSize(h) <= |b|
    ensures HeadSize(h.sigma, h.qlevels) <= SamplesEnd(h) <= |b| && BoundsStart(h) <= BlobSize(h)
    ensures Rows(NumberRows(QuadsAt(b, h)), 8) + Table(Numbers(SampledAt(b, h)), 8)
            + Table(SamplesAt(b, h), SampleWidth(h)) == b[HeadSize(h.sigma, h.qlevels)..SamplesEnd(h)]
    ensures Table(BoundsAt(b, h), 8) == b[BoundsStart(h)..BlobSize(h)]
  {
    hide NumberAt, NumbersAt, Rows, Table, WordsAt, Numbers, HeadSize, Pad, QuadsAt, SamplesIn, SampleWidth;
    hide QuadVectors.WordCount, BitVectors.WordCount;
    SectionOrder(h);
    QuadsWritten(b, h);
    WordsWritten(b, QuadsEnd(h), BitVectors.WordCount(h.textLen + 1));
    TableWritten(b, QuadsEnd(h), 8, BitVectors.WordCount(h.textLen + 1));
    TableWritten(b, SampledEnd(h), SampleWidth(h), SamplesIn(h));
    TableWritten(b, BoundsStart(h), 8, h.bounds);
    Adjacent(b, HeadSize(h.sigma, h.qlevels), QuadsEnd(h), SampledEnd(h));
    Adjacent(b, HeadSize(h.sigma, h.qlevels), SampledEnd(h), SamplesEnd(h));
  }

  /** Whatever is accepted, writing back what it holds gives the blob's own bytes, but for the ignored flag
      bits, the padding, and whatever follows the last section. */
  lemma Reencoded(b: seq<Byte>)
    requires Parse(b).Some?
    ensures var f := Parse(b).value; BlobSize(f.head) <= |b| && Encode(f) == Canonical(b, f.head)
  {
    hide ParseHead, HeadBytes, CanonicalHead, Rows, Table, Numbers, BodyOk, HeadSize, Pad, QuadsAt, SampledAt, SamplesAt;
    hide BoundsAt, WrittenSizes, SectionSizes, NumberRows, QuadsEnd;
    var f := Parse(b).value;
    var h := f.head;
    HeadReadOk(b);
    SectionOrder(h);
    SizesWritten(f);
    HeadWritten(b, h);
    BodyWritten(b, h);
    HeadLength(h);
    var x, y, z := Rows(NumberRows(f.quads), 8), Table(Numbers(f.sampled), 8), Table(f.samples, SampleWidth(h));
    var head := HeadBytes(h, SectionSizes(h));
    assert head + x + y + z == head + (x + y + z);
    assert |head + x + y + z| == SamplesEnd(h);
  }

  /** Two accepted blobs hold the same content exactly when they agree once the ignored bytes are cleared. */
  lemma SameContent(a: seq<Byte>, b: seq<Byte>)
    requires Parse(a).Some? && Parse(b).Some?
    ensures Parse(a) == Parse(b)
       <==> BlobSize(Parse(a).value.head) <= |a| && BlobSize(Parse(b).value.head) <= |b|
            && Canonical(a, Parse(a).value.head) == Canonical(b, Parse(b).value.head)
  {
    hide Parse, Canonical, Encode, FieldsOk, BlobSize;
    Reencoded(a);
    Reencoded(b);
    ParsedOk(a);
    ParsedOk(b);
    if Canonical(a, Parse(a).value.head) == Canonical(b, Parse(b).value.head) {
      EncodeInjective(Parse(a).value, Parse(b).value);
    }
  }
}
