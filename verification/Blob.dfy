/** The serialized form of an index: what it stores, how it is written, and when it is accepted back. */
module Blobs {
  import opened Counting
  import opened Corpus
  import opened Construction
  import opened LittleEndian
  import opened QuadVectors
  import opened WaveletTheory
  import opened WordBytes
  import BitVectors

  const MAGIC: nat := 0x464D_4958
  const VERSION: nat := 8

  datatype Option<T> = Some(value: T) | None

  /** The scalars and small tables of a blob. */
  datatype Header = Header(rate: nat, sigma: nat, qlevels: nat, fold: bool, wide: bool, wpb: nat, textLen: nat,
                           ids: seq<int>, c: seq<nat>, starts: seq<seq<nat>>, bounds: nat)

  /** Everything a blob stores. */
  datatype Fields = Fields(head: Header, quads: seq<seq<bv64>>, sampled: seq<bv64>, samples: seq<nat>,
                           docStart: seq<nat>)

  // ----- sizes -----

  function SamplesIn(h: Header): nat {
    if h.rate == 0 then 0 else h.textLen / h.rate + 1
  }

  function SampleWidth(h: Header): nat {
    if h.wide then 8 else 4
  }

  /** Bytes of a header: six 4-byte words, the length, 256 ids, then 8-byte numbers. */
  function HeadSize(sigma: nat, qlevels: nat): (n: nat)
    ensures n % 8 == 0
  {
    8 * (132 + sigma + 4 * qlevels + qlevels + 3)
  }

  function QuadsEnd(h: Header): nat {
    HeadSize(h.sigma, h.qlevels) + h.qlevels * (QuadVectors.WordCount(h.textLen + 1) * 8)
  }

  function SampledEnd(h: Header): nat {
    QuadsEnd(h) + BitVectors.WordCount(h.textLen + 1) * 8
  }

  function SamplesEnd(h: Header): nat {
    SampledEnd(h) + SamplesIn(h) * SampleWidth(h)
  }

  function BoundsStart(h: Header): nat {
    SamplesEnd(h) + Pad(SamplesEnd(h))
  }

  function BlobSize(h: Header): nat {
    BoundsStart(h) + h.bounds * 8
  }

  // ----- what is acceptable -----

  predicate IdOk(id: int, sigma: nat) {
    id == -1 || 2 <= id < sigma
  }

  predicate ScalarsOk(h: Header) {
    && 0 < h.rate < TWO32 && 2 <= h.sigma <= 258 && h.qlevels == LevelsFor(h.sigma)
    && SmallPower(h.wpb) && h.textLen < MAX_LENGTH
  }

  predicate HeadOk(h: Header) {
    && ScalarsOk(h)
    && |h.ids| == 256 && (forall b :: 0 <= b < 256 ==> IdOk(h.ids[b], h.sigma))
    && |h.c| == h.sigma && (forall x :: 0 <= x < h.sigma ==> h.c[x] < Pow256(8))
    && |h.starts| == h.qlevels
    && (forall l :: 0 <= l < h.qlevels ==> StartsRow(h.starts[l]))
    && 0 < h.bounds <= h.textLen + 1
  }

  predicate StartsRow(row: seq<nat>) {
    |row| == 4 && forall d :: 0 <= d < 4 ==> row[d] < Pow256(8)
  }

  predicate SizesOk(f: Fields) {
    var m := f.head.textLen + 1;
    && |f.quads| == f.head.qlevels
    && (forall l :: 0 <= l < |f.quads| ==> |f.quads[l]| == QuadVectors.WordCount(m))
    && |f.sampled| == BitVectors.WordCount(m)
    && |f.samples| == SamplesIn(f.head)
    && (forall k :: 0 <= k < |f.samples| ==> f.samples[k] < Pow256(SampleWidth(f.head)))
    && |f.docStart| == f.head.bounds
    && (forall d :: 0 <= d < |f.docStart| ==> f.docStart[d] < Pow256(8))
  }

  /** The stored group starts are the ones the packed digits have. */
  predicate StartsFit(h: Header, quads: seq<seq<bv64>>)
    requires |h.starts| == h.qlevels == |quads|
    requires forall l :: 0 <= l < h.qlevels ==> |quads[l]| == QuadVectors.WordCount(h.textLen + 1)
  {
    forall l :: 0 <= l < h.qlevels ==> h.starts[l] == Starts(Digits(quads[l], h.textLen + 1))
  }

  /** As many rows are flagged as there are samples. */
  predicate FlagsFit(h: Header, sampled: seq<bv64>)
    requires |sampled| == BitVectors.WordCount(h.textLen + 1)
  {
    Count(BitVectors.Bits(sampled, h.textLen + 1), 1, h.textLen + 1) == SamplesIn(h)
  }

  predicate SampleOk(h: Header, v: nat) {
    h.rate > 0 && v <= h.textLen && v % h.rate == 0
  }

  predicate SamplesFit(h: Header, samples: seq<nat>) {
    forall k :: 0 <= k < |samples| ==> SampleOk(h, samples[k])
  }

  /** Document boundaries: from 0 to the text length, strictly increasing. */
  predicate BoundsFit(h: Header, bounds: seq<nat>) {
    && |bounds| > 0 && bounds[0] == 0 && bounds[|bounds| - 1] == h.textLen
    && forall i :: 1 <= i < |bounds| ==> bounds[i - 1] < bounds[i]
  }

  predicate BodyOk(f: Fields)
    requires SizesOk(f) && |f.head.starts| == f.head.qlevels
  {
    && StartsFit(f.head, f.quads) && FlagsFit(f.head, f.sampled)
    && SamplesFit(f.head, f.samples) && BoundsFit(f.head, f.docStart)
  }

  predicate FieldsOk(f: Fields) {
    HeadOk(f.head) && SizesOk(f) && BodyOk(f)
  }

  // ----- writing -----

  function Flags(h: Header): nat {
    (if h.fold then 1 else 0) + (if h.wide then 2 else 0) + 256 * h.wpb
  }

  function UnsignedAll(ids: seq<int>): (u: seq<nat>)
    ensures |u| == |ids| && forall i :: 0 <= i < |ids| ==> u[i] == Unsigned32(ids[i])
  {
    seq(|ids|, i requires 0 <= i < |ids| => Unsigned32(ids[i]))
  }

  function SignedAll(u: seq<nat>): (ids: seq<int>)
    ensures |ids| == |u| && forall i :: 0 <= i < |u| ==> ids[i] == Signed32(u[i])
  {
    seq(|u|, i requires 0 <= i < |u| => Signed32(u[i]))
  }

  /** The section sizes that fit a header. */
  function SectionSizes(h: Header): (s: seq<nat>)
    ensures |s| == h.qlevels + 3
  {
    seq(h.qlevels, _ => QuadVectors.WordCount(h.textLen + 1))
    + [BitVectors.WordCount(h.textLen + 1), SamplesIn(h), h.bounds]
  }

  function FirstWords(h: Header): seq<nat> {
    [MAGIC, VERSION, h.rate, h.sigma, h.qlevels, Flags(h)]
  }

  /** The section sizes written for a blob's content. */
  function WrittenSizes(f: Fields): (s: seq<nat>)
    ensures |s| == |f.quads| + 3
  {
    seq(|f.quads|, l requires 0 <= l < |f.quads| => |f.quads[l]|) + [|f.sampled|, |f.samples|, |f.docStart|]
  }

  function HeadBytes(h: Header, sizes: seq<nat>): seq<Byte> {
    Table(FirstWords(h), 4) + Table([h.textLen], 8) + Table(UnsignedAll(h.ids), 4) + Table(h.c, 8)
    + Rows(h.starts, 8) + Table(sizes, 8)
  }

  function Numbers(words: seq<bv64>): (ns: seq<nat>)
    ensures |ns| == |words| && forall i :: 0 <= i < |words| ==> ns[i] == NumberOf(words[i])
  {
    seq(|words|, i requires 0 <= i < |words| => NumberOf(words[i]))
  }

  function NumberRows(rows: seq<seq<bv64>>): (r: seq<seq<nat>>)
    ensures |r| == |rows| && forall l :: 0 <= l < |rows| ==> r[l] == Numbers(rows[l])
  {
    seq(|rows|, l requires 0 <= l < |rows| => Numbers(rows[l]))
  }

  /** Header, packed digits, packed sample flags, samples, padding, document boundaries. */
  function Encode(f: Fields): seq<Byte> {
    var s := HeadBytes(f.head, WrittenSizes(f)) + Rows(NumberRows(f.quads), 8) + Table(Numbers(f.sampled), 8)
             + Table(f.samples, SampleWidth(f.head));
    s + Zeros(Pad(|s|)) + Table(f.docStart, 8)
  }

  // ----- reading -----

  /** The fixed-size front of a header. */
  function ParseScalars(b: seq<Byte>): Option<Header> {
    if |b| < 32 then None
    else
      var w, textLen := NumbersAt(b, 0, 4, 6), NumberAt(b, 24, 8);
      var h := Header(w[2], w[3], w[4], w[5] % 2 == 1, w[5] / 2 % 2 == 1, w[5] / 256 % 256, textLen, [], [], [], 0);
      if w[0] != MAGIC || w[1] != VERSION || !ScalarsOk(h) then None else Some(h)
  }

  function ParseHead(b: seq<Byte>): Option<Header> {
    match ParseScalars(b)
    case None => None
    case Some(h) => if |b| < HeadSize(h.sigma, h.qlevels) then None else ParseTables(b, h)
  }

  function ParseTables(b: seq<Byte>, h: Header): Option<Header>
    requires |b| >= HeadSize(h.sigma, h.qlevels)
  {
    var h' := h.(ids := SignedAll(NumbersAt(b, 32, 4, 256)), c := NumbersAt(b, 1056, 8, h.sigma),
                 starts := StartsAt(b, h), bounds := NumberAt(b, HeadSize(h.sigma, h.qlevels) - 8, 8));
    if TablesOk(b, h') then Some(h') else None
  }

  predicate TablesOk(b: seq<Byte>, h: Header)
    requires |b| >= HeadSize(h.sigma, h.qlevels)
  {
    && |h.ids| == 256 && (forall i :: 0 <= i < 256 ==> IdOk(h.ids[i], h.sigma))
    && NumbersAt(b, HeadSize(h.sigma, h.qlevels) - 8 * (h.qlevels + 3), 8, h.qlevels + 3) == SectionSizes(h)
    && 0 < h.bounds <= h.textLen + 1
  }

  function StartsAt(b: seq<Byte>, h: Header): (s: seq<seq<nat>>)
    requires |b| >= HeadSize(h.sigma, h.qlevels)
    ensures |s| == h.qlevels
    ensures forall l :: 0 <= l < h.qlevels ==> s[l] == NumbersAt(b, 8 * (132 + h.sigma + 4 * l), 8, 4)
  {
    seq(h.qlevels, l requires 0 <= l < h.qlevels => NumbersAt(b, 8 * (132 + h.sigma + 4 * l), 8, 4))
  }

  function WordsAt(b: seq<Byte>, off: nat, n: nat): (ws: seq<bv64>)
    requires off + n * 8 <= |b|
    ensures |ws| == n
    ensures forall i :: 0 <= i < n ==> ws[i] == WordFrom(NumbersAt(b, off, 8, n)[i])
  {
    seq(n, i requires 0 <= i < n => WordFrom(NumbersAt(b, off, 8, n)[i]))
  }

  function QuadsAt(b: seq<Byte>, h: Header): (q: seq<seq<bv64>>)
    requires QuadsEnd(h) <= |b|
    ensures |q| == h.qlevels
    ensures forall l: nat :: l < h.qlevels ==>
              LevelFits(b, h, l) && q[l] == WordsAt(b, LevelStart(h, l), QuadVectors.WordCount(h.textLen + 1))
    ensures forall l :: 0 <= l < h.qlevels ==> |q[l]| == QuadVectors.WordCount(h.textLen + 1)
  {
    seq(h.qlevels, (l: nat) requires l < h.qlevels =>
      assert LevelFits(b, h, l); WordsAt(b, LevelStart(h, l), QuadVectors.WordCount(h.textLen + 1)))
  }

  function LevelStart(h: Header, l: nat): nat {
    HeadSize(h.sigma, h.qlevels) + l * (QuadVectors.WordCount(h.textLen + 1) * 8)
  }

  predicate LevelFits(b: seq<Byte>, h: Header, l: nat)
    requires l < h.qlevels && QuadsEnd(h) <= |b|
    ensures LevelFits(b, h, l) && LevelStart(h, l) + QuadVectors.WordCount(h.textLen + 1) * 8 <= |b|
  {
    MulMonotone(l + 1, h.qlevels, QuadVectors.WordCount(h.textLen + 1) * 8);
    LevelStart(h, l) + QuadVectors.WordCount(h.textLen + 1) * 8 <= |b|
  }

  function SampledAt(b: seq<Byte>, h: Header): (ws: seq<bv64>)
    requires SampledEnd(h) <= |b|
    ensures |ws| == BitVectors.WordCount(h.textLen + 1)
  {
    WordsAt(b, QuadsEnd(h), BitVectors.WordCount(h.textLen + 1))
  }

  function SamplesAt(b: seq<Byte>, h: Header): (vs: seq<nat>)
    requires SamplesEnd(h) <= |b|
    ensures |vs| == SamplesIn(h)
  {
    NumbersAt(b, SampledEnd(h), SampleWidth(h), SamplesIn(h))
  }

  function BoundsAt(b: seq<Byte>, h: Header): (vs: seq<nat>)
    requires BlobSize(h) <= |b|
    ensures |vs| == h.bounds
  {
    NumbersAt(b, BoundsStart(h), 8, h.bounds)
  }

  /** The sections follow one another. */
  lemma SectionOrder(h: Header)
    ensures HeadSize(h.sigma, h.qlevels) <= QuadsEnd(h) <= SampledEnd(h) <= SamplesEnd(h) <= BoundsStart(h) <= BlobSize(h)
  {}

  function BodyAt(b: seq<Byte>, h: Header): Fields
    requires BlobSize(h) <= |b|
  {
    SectionOrder(h);
    Fields(h, QuadsAt(b, h), SampledAt(b, h), SamplesAt(b, h), BoundsAt(b, h))
  }

  lemma BodySizes(b: seq<Byte>, h: Header)
    requires BlobSize(h) <= |b|
    ensures SizesOk(BodyAt(b, h))
  {
    var f := BodyAt(b, h);
    forall k: nat | k < |f.samples|
      ensures f.samples[k] < Pow256(SampleWidth(h))
    {
      assert EntryFits(SampledEnd(h), SampleWidth(h), SamplesIn(h), k, |b|);
    }
    forall d: nat | d < |f.docStart|
      ensures f.docStart[d] < Pow256(8)
    {
      assert EntryFits(BoundsStart(h), 8, h.bounds, d, |b|);
    }
  }

  /** A blob's content, if the blob is acceptable. Whatever follows the last section is ignored. */
  function Parse(b: seq<Byte>): (r: Option<Fields>)
    ensures r.Some? ==> SizesOk(r.value)
  {
    match ParseHead(b)
    case None => None
    case Some(h) =>
      if BlobSize(h) > |b| || |h.starts| != h.qlevels then None
      else
        BodySizes(b, h);
        if BodyOk(BodyAt(b, h)) then Some(BodyAt(b, h)) else None
  }
}
