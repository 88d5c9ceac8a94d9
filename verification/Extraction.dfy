/** Extraction: reading a stretch of a document back out of the index. */
module Extraction {
  import opened Counting
  import opened Sorting
  import opened SuffixArrays
  import opened Corpus
  import opened QueryTheory
  import opened PlainText
  import opened Construction
  import opened QuadVectors
  import opened AnchoredTheory
  import opened WaveletTheory
  import opened FMIndexes

  /** Which sample a sampled position is. */
  function Slot(p: nat, rate: nat): nat
    requires rate > 0
  {
    p / rate
  }

  /** isa[k] is the row of text position k * rate. */
  ghost predicate IsaOk(isa: seq<nat>, sa: seq<nat>, rate: nat)
    requires rate > 0 && |sa| > 0
  {
    && |isa| == Slot(|sa| - 1, rate) + 1
    && forall k :: 0 <= k < |isa| ==> isa[k] < |sa| && sa[isa[k]] == k * rate
  }

  /** The rows before r that are sampled have been entered. */
  ghost predicate Entered(isa: seq<nat>, sa: seq<nat>, rate: nat, r: nat)
    requires rate > 0 && r <= |sa|
  {
    forall x {:trigger sa[x]} :: 0 <= x < r && sa[x] % rate == 0 ==>
      Slot(sa[x], rate) < |isa| && isa[Slot(sa[x], rate)] == x
  }

  lemma EnterRow(isa: seq<nat>, sa: seq<nat>, rate: nat, r: nat)
    requires rate > 0 && r < |sa| && IsPermutation(sa) && |isa| == Slot(|sa| - 1, rate) + 1 && Entered(isa, sa, rate, r)
    ensures sa[r] % rate != 0 ==> Entered(isa, sa, rate, r + 1)
    ensures Slot(sa[r], rate) < |isa|
    ensures sa[r] % rate == 0 ==> Entered(isa[Slot(sa[r], rate) := r], sa, rate, r + 1)
  {
    DivMonotone(sa[r], |sa| - 1, rate);
    if sa[r] % rate == 0 {
      forall x {:trigger sa[x]} | 0 <= x < r && sa[x] % rate == 0
        ensures sa[x] / rate != sa[r] / rate
      {}
    }
  }

  /** Every multiple of the rate is the position of exactly one row, so the table is full. */
  lemma AllEntered(isa: seq<nat>, sa: seq<nat>, rate: nat)
    requires rate > 0 && |sa| > 0 && IsPermutation(sa) && |isa| == Slot(|sa| - 1, rate) + 1
    requires Entered(isa, sa, rate, |sa|)
    ensures IsaOk(isa, sa, rate)
  {
    forall k: nat | k < |isa|
      ensures isa[k] < |sa| && sa[isa[k]] == k * rate
    {
      MultipleBelow(k, |sa| - 1, rate);
      var x := Find(sa, k * rate);
      assert sa[x] % rate == 0 && sa[x] / rate == k;
    }
  }

  lemma MultipleBelow(k: nat, n: nat, rate: nat)
    requires rate > 0 && k <= n / rate
    ensures k * rate <= n && k * rate / rate == k && k * rate % rate == 0
  {
    FloorMultiple(n, rate);
    MulMonotone(k, n / rate, rate);
    DivUnique(k * rate, rate, k, 0);
    FloorMultiple(k * rate, rate);
  }

  /** Whether a row is sampled, and if so its text position. */
  method SampledPosition(fm: FMIndex, r: nat) returns (flag: bool, val: nat)
    requires fm.Valid() && fm.c != [] && r < |fm.sa| && fm.saSampleRate > 0
    ensures flag <==> fm.sa[r] % fm.saSampleRate == 0
    ensures flag ==> val == fm.sa[r]
  {
    hide Layout, RankOk, BitVectors.DirectoryOk, SamplesOf, Count;
    val := 0;
    flag := fm.sampled.Get(r);
    if flag {
      var k := fm.sampled.Rank1(r);
      fm.SampleOfRow(r);
      val := fm.samples[k];
    }
  }

  /** The row of every sampled text position. */
  method FillIsaSample(fm: FMIndex) returns (isa: seq<nat>)
    requires fm.Valid() && fm.c != [] && fm.saSampleRate > 0
    ensures |fm.sa| > 0 && IsaOk(isa, fm.sa, fm.saSampleRate)
  {
    hide FMIndex.Built, Entered, IsaOk, Slot;
    fm.LayoutSize();
    var m := fm.textLen + 1;
    isa := seq(Slot(fm.textLen, fm.saSampleRate) + 1, _ => 0);
    NothingEntered(isa, fm.sa, fm.saSampleRate);
    var r := 0;
    while r < m
      invariant 0 <= r <= m && |isa| == Slot(fm.textLen, fm.saSampleRate) + 1
      invariant Entered(isa, fm.sa, fm.saSampleRate, r)
    {
      EnterRow(isa, fm.sa, fm.saSampleRate, r);
      var flag, val := SampledPosition(fm, r);
      if flag {
        isa := isa[Slot(val, fm.saSampleRate) := r];
      }
      r := r + 1;
    }
    AllEntered(isa, fm.sa, fm.saSampleRate);
  }

  lemma NothingEntered(isa: seq<nat>, sa: seq<nat>, rate: nat)
    requires rate > 0
    ensures Entered(isa, sa, rate, 0)
  {}

  /** The inverse table, if already filled, is the one of this text: true of every index that was not
      extracted from before it was built anew. */
  ghost predicate Fresh(fm: FMIndex)
    reads fm
  {
    fm.isaDone ==> fm.saSampleRate > 0 && |fm.sa| > 0 && IsaOk(fm.isaSample, fm.sa, fm.saSampleRate)
  }

  /** Fills the inverse table on first use; a table filled earlier, for whatever text, stays. */
  method EnsureIsaSample(fm: FMIndex)
    requires fm.Valid() && fm.c != []
    modifies fm`isaDone, fm`isaSample
    ensures fm.Valid() && fm.isaDone
    ensures old(fm.isaDone) ==> fm.isaSample == old(fm.isaSample)
    ensures old(Fresh(fm)) ==> Fresh(fm)
  {
    hide Layout, RankOk, SamplingOk, IsaOk, Derived;
    if !fm.isaDone {
      RatePositive(fm);
      var isa := FillIsaSample(fm);
      fm.isaSample, fm.isaDone := isa, true;
    }
  }

  // ----- the row to start from -----

  /** The row and text position an extraction up to end starts from, given an inverse table. */
  function StartFrom(isa: seq<nat>, textLen: nat, rate: nat, end: nat): (nat, nat)
    requires rate > 0
  {
    var k := (end + rate - 1) / rate;
    if k < |isa| then (isa[k], k * rate) else (0, textLen)
  }

  /** The sentinel's suffix sorts first. */
  lemma SentinelFirst(t: seq<nat>, sa: seq<nat>)
    requires IsText(t) && IsSuffixArray(t, sa)
    ensures sa[0] == |t| - 1
  {
    SuffixArrayIsPermutation(t, sa);
    var r := Find(sa, |t| - 1);
    RowOrder(t, sa, 0, r);
  }

  /** The nearest sampled position at or after end, else row 0 at the end of the text. The row is right if the
      table is this text's; the position never lies before end. */
  method Anchor(fm: FMIndex, end: nat) returns (row: nat, p: nat)
    requires fm.Valid() && fm.c != [] && end <= fm.textLen && fm.isaDone
    ensures fm.saSampleRate > 0 && (row, p) == StartFrom(fm.isaSample, fm.textLen, fm.saSampleRate, end)
    ensures end <= p
    ensures Fresh(fm) ==> row < |fm.sa| && fm.sa[row] == p
  {
    hide FMIndex.Built;
    RatePositive(fm);
    fm.LayoutSize();
    var rate := fm.saSampleRate;
    var k := (end + rate - 1) / rate;
    CeilingCovers(end, rate);
    if k < |fm.isaSample| {
      row, p := fm.isaSample[k], k * rate;
    } else {
      SentinelFirst(fm.Symbols(), fm.sa);
      row, p := 0, fm.textLen;
    }
  }

  lemma RatePositive(fm: FMIndex)
    requires fm.Valid() && fm.c != []
    ensures fm.saSampleRate > 0
  {}

  lemma CeilingCovers(end: nat, rate: nat)
    requires rate > 0
    ensures (end + rate - 1) / rate >= 0 && (end + rate - 1) / rate * rate >= end
  {}

  // ----- the walk back -----

  /** The byte written for the symbol that lies j positions cyclically before position q. */
  ghost function ByteBack(t: seq<nat>, idToByte: seq<Byte>, q: nat, j: int): Byte
    requires |t| > 0
  {
    var sym := t[(q - j) % |t|];
    if sym < |idToByte| then idToByte[sym] else 0
  }

  /** The symbol before a position, cyclically: the sentinel lies before position 0. */
  lemma CyclicBefore(t: seq<nat>, q: nat)
    requires IsText(t) && q < |t|
    ensures (q - 1) % |t| == Before(q, |t|) && BwtSymbol(t, q) == t[(q - 1) % |t|]
  {
    if q == 0 {
      ModUnique(-1, |t|, -1, |t| - 1);
    } else {
      ModUnique(q - 1, |t|, 0, q - 1);
    }
  }

  lemma ModUnique(x: int, m: nat, q: int, r: nat)
    requires r < m && x == q * m + r
    ensures x % m == r
  {
    var q', r' := x / m, x % m;
    assert x == q' * m + r';
    if q' < q {
      MulMonotone(1, q - q', m);
    } else if q' > q {
      MulMonotone(1, q' - q, m);
    }
  }

  lemma OneFurther(q: nat, j: nat, m: nat)
    requires m > 0
    ensures ((q - j) % m - 1) % m == (q - (j + 1)) % m
  {
    var a := (q - j) / m;
    assert q - j == a * m + (q - j) % m;
    var b := ((q - j) % m - 1) / m;
    assert (q - j) % m - 1 == b * m + ((q - j) % m - 1) % m;
    assert (a + b) * m == a * m + b * m;
    ModUnique(q - (j + 1), m, a + b, ((q - j) % m - 1) % m);
  }

  /** The n bytes that start far positions cyclically before q. */
  ghost function Stretch(t: seq<nat>, idToByte: seq<Byte>, q: nat, far: nat, n: nat): (r: seq<Byte>)
    requires |t| > 0
    ensures |r| == n && forall x: nat :: x < n ==> r[x] == ByteBack(t, idToByte, q, far - x)
  {
    seq(n, (x: nat) => ByteBack(t, idToByte, q, far - x))
  }

  /** Walking back from any row, right or not: the bytes that lie before its suffix, cyclically, each at the
      distance its place was taken to have. */
  method WalkBack(fm: FMIndex, row0: nat, p0: nat, pos: nat, n: nat) returns (r: seq<Byte>)
    requires fm.Valid() && fm.c != [] && row0 < |fm.sa| && pos + n <= p0
    ensures |fm.byteToId| == 256 && |fm.Symbols()| > 0
    ensures r == Stretch(fm.Symbols(), fm.idToByte, fm.sa[row0], p0 - pos, n)
  {
    hide FMIndex.Built, ByteBack, Text;
    fm.LayoutSize();
    ghost var m, q := |fm.sa|, fm.sa[row0];
    ModUnique(q, m, 0, q);
    var row: nat, p: nat := row0, p0;
    var out := new Byte[n](_ => 0);
    while p > pos
      invariant pos <= p <= p0 && row < |fm.sa| && fm.sa[row] == (q - (p0 - p)) % m
      invariant forall x: nat :: x < n && pos + x >= p ==>
                  out[x] == ByteBack(fm.Symbols(), fm.idToByte, q, p0 - pos - x)
    {
      var b := ByteBefore(fm, row, q, p0 - p);
      if p - 1 < pos + n {
        out[p - 1 - pos] := b;
      }
      CyclicBefore(fm.Symbols(), fm.sa[row]);
      OneFurther(q, p0 - p, m);
      row := fm.LF(row);
      p := p - 1;
    }
    r := out[..];
  }

  /** The byte of the transform's symbol in a row reached after j steps from position q. */
  method ByteBefore(fm: FMIndex, row: nat, ghost q: nat, ghost j: nat) returns (b: Byte)
    requires fm.Valid() && fm.c != [] && row < |fm.sa| && |fm.byteToId| == 256
    requires fm.sa[row] == (q - j) % |fm.sa|
    ensures b == ByteBack(fm.Symbols(), fm.idToByte, q, j + 1)
  {
    hide SamplingOk, Layout, Text, Derived;
    fm.LayoutSize();
    var sym := fm.wm.Access(row);
    fm.SymbolFits(row);
    CyclicBefore(fm.Symbols(), fm.sa[row]);
    OneFurther(q, j, |fm.sa|);
    assert |fm.idToByte| == fm.sigma by { IdToByteSize(fm); }
    b := fm.idToByte[sym];
  }

  lemma IdToByteSize(fm: FMIndex)
    requires fm.Valid() && fm.c != []
    ensures |fm.idToByte| == fm.sigma
  {}

  lemma StartKept(fm: FMIndex, d: nat)
    requires fm.Valid() && fm.c != [] && d < |fm.docs|
    ensures |fm.docStart| == |fm.docs| + 1
    ensures fm.docStart[d] == DocStart(fm.docs, d)
    ensures fm.docStart[d + 1] == DocStart(fm.docs, d) + |fm.docs[d]| + 1 <= fm.textLen
  {
    DocStartMonotone(fm.docs, d + 1, |fm.docs|);
  }

  // ----- the whole operation -----

  /** The stretch of a document's content that an extraction asks for, clamped to the document. */
  function Slice(doc: Document, offset: nat, len: nat): seq<Byte> {
    if offset >= |doc| then [] else doc[offset..if len < |doc| - offset then offset + len else |doc|]
  }

  /** The range check on document ids, as 64-bit arithmetic evaluates it. */
  predicate OutOfRange(docId: nat, bounds: nat) {
    (docId + 1) % TWO64 >= bounds
  }

  /** The check turns away exactly the ids without a document, except for the one id whose successor wraps. */
  lemma RangeCheckExact(docId: nat, bounds: nat)
    requires docId < TWO64 && 0 < bounds < TWO64
    ensures (OutOfRange(docId, bounds) <==> docId >= bounds - 1) <==> docId != TWO64 - 1
  {}

  /** The largest 64-bit id is let through by the check whatever the number of documents. */
  lemma LargestIdPasses(bounds: nat)
    requires 0 < bounds < TWO64
    ensures !OutOfRange(TWO64 - 1, bounds) && TWO64 - 1 >= bounds - 1
  {}

  /** What an extraction comes to: some bytes, or a look-up outside the tables of the index. */
  datatype Outcome = Bytes(bytes: seq<Byte>) | OutsideTables

  /** Length of the stretch asked for. */
  function SliceLength(doc: Document, offset: nat, len: nat): (n: nat)
    ensures n == |Slice(doc, offset, len)|
  {
    if offset >= |doc| then 0 else if len < |doc| - offset then len else |doc| - offset
  }

  /** What extracting from document d comes to with the inverse table as it is, right or not. */
  ghost function Extracted(fm: FMIndex, d: nat, offset: nat, len: nat): Outcome
    requires fm.saSampleRate > 0 && d < |fm.docs| && |fm.byteToId| == 256
    reads fm
  {
    var pos, n := DocStart(fm.docs, d) + offset, SliceLength(fm.docs[d], offset, len);
    var (row, p) := StartFrom(fm.isaSample, fm.textLen, fm.saSampleRate, pos + n);
    if offset >= |fm.docs[d]| || p <= pos then Bytes([])
    else if row >= |fm.sa| then OutsideTables
    else Bytes(Stretch(fm.Symbols(), fm.idToByte, fm.sa[row], p - pos, n))
  }

  /** The bytes a caller wants. */
  function Wanted(fold: bool, doc: Document, offset: nat, len: nat): seq<Byte> {
    FoldAll(fold, Slice(doc, offset, len))
  }

  /** The wanted bytes, one by one. */
  lemma WantedReadsOut(fold: bool, doc: Document, offset: nat, len: nat, r: seq<Byte>)
    ensures r == Wanted(fold, doc, offset, len) <==> ReadsOut(fold, doc, offset, len, r)
  {
    var w := Wanted(fold, doc, offset, len);
    forall x | 0 <= x < |w|
      ensures w[x] == SmallLetter(fold, doc[offset + x])
    {
      FoldMeans(fold, doc[offset + x], doc[offset + x]);
    }
    if ReadsOut(fold, doc, offset, len, r) {
      assert |r| == |w| && forall x :: 0 <= x < |w| ==> r[x] == w[x];
    }
  }

  /** The condition on the inverse table under which a request is answered rightly: nothing is walked, or the
      row consulted exists and the stretch at the same distance before its position spells the wanted bytes. */
  ghost predicate Spells(fm: FMIndex, d: nat, offset: nat, len: nat)
    requires fm.saSampleRate > 0 && d < |fm.docs| && |fm.byteToId| == 256
    reads fm
  {
    var pos, want := DocStart(fm.docs, d) + offset, Wanted(fm.caseFold, fm.docs[d], offset, len);
    var (row, p) := StartFrom(fm.isaSample, fm.textLen, fm.saSampleRate, pos + |want|);
    || offset >= |fm.docs[d]| || p <= pos
    || (row < |fm.sa| && forall x: nat :: x < |want| ==>
          ByteBack(fm.Symbols(), fm.idToByte, fm.sa[row], p - pos - x) == want[x])
  }

  /** Extraction, with whatever inverse table the index holds. It gives back the document's own bytes, folded,
      exactly when the table spells them; a table of this text always does. */
  method Extract(fm: FMIndex, docId: nat, offset: nat, len: nat) returns (r: Outcome)
    requires fm.Valid() && docId < TWO64
    modifies fm`isaDone, fm`isaSample
    ensures fm.Valid()
    ensures old(fm.isaDone) ==> fm.isaDone && fm.isaSample == old(fm.isaSample)
    ensures old(Fresh(fm)) ==> Fresh(fm)
    ensures docId >= |fm.docs| ==> r == if docId == TWO64 - 1 && fm.c != [] then OutsideTables else Bytes([])
    ensures docId < |fm.docs| ==>
              && fm.isaDone && fm.saSampleRate > 0 && |fm.byteToId| == 256
              && r == Extracted(fm, docId, offset, len)
              && (r.Bytes? && ReadsOut(fm.caseFold, fm.docs[docId], offset, len, r.bytes)
                  <==> Spells(fm, docId, offset, len))
              && (Fresh(fm) ==> r.Bytes? && ReadsOut(fm.caseFold, fm.docs[docId], offset, len, r.bytes))
  {
    hide FMIndex.Built, DocStart, DocStarts, Fresh, Extracted, Spells, Wanted, ReadsOut;
    if fm.c == [] {
      return Bytes([]);
    }
    BoundsCount(fm);
    if OutOfRange(docId, |fm.docStart|) {
      RangeCheckExact(docId, |fm.docStart|);
      return Bytes([]);
    }
    EnsureIsaSample(fm);
    if docId + 1 >= TWO64 {
      // the boundary list is read far beyond its end
      return OutsideTables;
    }
    RangeCheckExact(docId, |fm.docStart|);
    r := ExtractFrom(fm, docId, offset, len);
    SpellsExactly(fm, docId, offset, len);
    if r.Bytes? {
      WantedReadsOut(fm.caseFold, fm.docs[docId], offset, len, r.bytes);
    }
    if Fresh(fm) {
      FreshSpells(fm, docId, offset, len);
    }
  }

  /** Extraction from a document there is, the table being filled. */
  method ExtractFrom(fm: FMIndex, d: nat, offset: nat, len: nat) returns (r: Outcome)
    requires fm.Valid() && fm.c != [] && fm.isaDone && d < |fm.docs|
    ensures fm.saSampleRate > 0 && |fm.byteToId| == 256
    ensures r == Extracted(fm, d, offset, len)
  {
    hide FMIndex.Built, DocStart, Stretch, ByteBack, StartFrom, Slice, Fresh, Text, FoldAll;
    RatePositive(fm);
    fm.LayoutSize();
    StartKept(fm, d);
    var dlen := fm.docStart[d + 1] - 1 - fm.docStart[d];
    if offset >= dlen {
      return Bytes([]);
    }
    var pos := fm.docStart[d] + offset;
    var n := if len < dlen - offset then len else dlen - offset;
    var row, p := Anchor(fm, pos + n);
    if p <= pos {
      // no step is taken, so the row is never looked at
      return Bytes([]);
    }
    if row >= fm.textLen + 1 {
      return OutsideTables;
    }
    var bytes := WalkBack(fm, row, p, pos, n);
    r := Bytes(bytes);
  }

  lemma SpellsExactly(fm: FMIndex, d: nat, offset: nat, len: nat)
    requires fm.Valid() && fm.c != [] && d < |fm.docs| && fm.saSampleRate > 0 && |fm.byteToId| == 256
    ensures Extracted(fm, d, offset, len) == Bytes(Wanted(fm.caseFold, fm.docs[d], offset, len))
       <==> Spells(fm, d, offset, len)
  {
    hide FMIndex.Built, DocStart, ByteBack, Text, Slice;
    CeilingCovers(DocStart(fm.docs, d) + offset + SliceLength(fm.docs[d], offset, len), fm.saSampleRate);
    StartKept(fm, d);
  }

  /** The table of this text spells every request. */
  lemma FreshSpells(fm: FMIndex, d: nat, offset: nat, len: nat)
    requires fm.Valid() && fm.c != [] && d < |fm.docs| && fm.saSampleRate > 0 && |fm.byteToId| == 256
    requires fm.isaDone && Fresh(fm)
    ensures Spells(fm, d, offset, len)
  {
    hide FMIndex.Built, DocStart, ByteBack, Text;
    fm.LayoutSize();
    StartKept(fm, d);
    var pos, want := DocStart(fm.docs, d) + offset, Wanted(fm.caseFold, fm.docs[d], offset, len);
    var (row, p) := StartFrom(fm.isaSample, fm.textLen, fm.saSampleRate, pos + |want|);
    if offset < |fm.docs[d]| {
      SentinelFirst(fm.Symbols(), fm.sa);
      forall x: nat | x < |want|
        ensures ByteBack(fm.Symbols(), fm.idToByte, fm.sa[row], p - pos - x) == want[x]
      {
        OwnByte(fm, d, offset + x, p, p - pos - x);
      }
    }
  }

  /** The byte at a content position, seen from any later position of the text. */
  lemma OwnByte(fm: FMIndex, d: nat, o: nat, q: nat, j: int)
    requires fm.Valid() && fm.c != [] && d < |fm.docs| && o < |fm.docs[d]| && |fm.byteToId| == 256
    requires q - j == DocStart(fm.docs, d) + o
    ensures ByteBack(fm.Symbols(), fm.idToByte, q, j) == Fold(fm.caseFold, fm.docs[d][o])
  {
    hide Alphabet, Text, DocStart, RankOk, SamplingOk, Derived;
    var p := DocStart(fm.docs, d) + o;
    CorpusKnown(fm.caseFold, fm.docs, fm.byteToId, fm.sigma, d);
    DocStartNext(fm.docs, d);
    DocOfUnique(fm.docs, p, d);
    SymbolAt(fm.byteToId, fm.docs, p);
    ModUnique(p, |fm.Symbols()|, 0, p);
    IdToByteSize(fm);
  }

  lemma BoundsCount(fm: FMIndex)
    requires fm.Valid() && fm.c != []
    ensures |fm.docStart| == |fm.docs| + 1 < TWO64
  {
    DocStartMonotone(fm.docs, 0, |fm.docs|);
  }
}
