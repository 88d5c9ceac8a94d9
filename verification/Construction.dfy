/** The passes of an index build: document bounds, the dense alphabet, the symbol text, the
    Burrows-Wheeler transform in its two forms, the C-table and the sampled suffix array. */
module Construction {
  import opened Counting
  import opened SuffixArrays
  import opened Corpus
  import opened QuadVectors
  import opened WaveletTheory
  import BitVectors

  const MAX_U64: nat := 0xFFFF_FFFF_FFFF_FFFF
  const MAX_LENGTH: nat := 0x8000_0000_0000_0000   // texts of 2^63 symbols or more are refused
  const INT32_MAX: nat := 0x7FFF_FFFF
  const TWO32: nat := 0x1_0000_0000
  const TWO64: nat := 0x1_0000_0000_0000_0000
  const TWO16: nat := 0x1_0000

  function DocStarts(docs: seq<Document>, n: nat): (r: seq<nat>)
    requires n <= |docs|
    ensures |r| == n + 1
    ensures forall d :: 0 <= d <= n ==> r[d] == DocStart(docs, d)
  {
    seq(n + 1, d requires 0 <= d <= n => DocStart(docs, d))
  }

  lemma DocStartsStep(docs: seq<Document>, d: nat)
    requires d < |docs|
    ensures DocStarts(docs, d + 1) == DocStarts(docs, d) + [DocStart(docs, d + 1)]
  {}

  /** Document start offsets, and whether the whole text stays below 2^63 symbols. */
  method DocBounds(docs: seq<Document>) returns (ok: bool, bounds: seq<nat>)
    ensures ok <==> TextLength(docs) < MAX_LENGTH
    ensures ok ==> bounds == DocStarts(docs, |docs|)
  {
    assert DocStarts(docs, 0) == [0];
    hide DocStart, DocStarts;
    var len := 0;
    bounds := [];
    var i := 0;
    while i < |docs|
      invariant 0 <= i <= |docs| && len == DocStart(docs, i) <= MAX_U64
      invariant bounds + [len] == DocStarts(docs, i)
    {
      bounds := bounds + [len];
      DocStartsStep(docs, i);
      DocStartStep(docs, i);
      DocStartMonotone(docs, i + 1, |docs|);
      if len == MAX_U64 || |docs[i]| > MAX_U64 - len - 1 {
        return false, bounds;
      }
      len := len + |docs[i]| + 1;
      i := i + 1;
    }
    bounds := bounds + [len];
    ok := len < MAX_LENGTH;
  }

  lemma DocStartStep(docs: seq<Document>, d: nat)
    requires d < |docs|
    ensures DocStart(docs, d + 1) == DocStart(docs, d) + |docs[d]| + 1
  {}

  lemma BodyStep(ids: seq<int>, docs: seq<Document>, d: nat)
    requires |ids| == 256 && d < |docs|
    ensures Body(ids, docs, d + 1) == Body(ids, docs, d) + Syms(ids, docs[d]) + [SEPARATOR]
  {}

  /** Which folded bytes occur. */
  method Presence(fold: bool, docs: seq<Document>) returns (present: seq<nat>)
    ensures PresentBytes(fold, docs, present)
  {
    present := seq(256, _ => 0);
    var d := 0;
    while d < |docs|
      invariant 0 <= d <= |docs| && PresentBytes(fold, docs[..d], present)
    {
      var o := 0;
      assert docs[..d + 1] == docs[..d] + [docs[d]];
      SameBytes(fold, docs, d, present);
      while o < |docs[d]|
        invariant 0 <= o <= |docs[d]| && PresentBytes(fold, docs[..d] + [docs[d][..o]], present)
      {
        AddByte(fold, docs[..d], docs[d], o, present);
        present := present[Fold(fold, docs[d][o]) := 1];
        o := o + 1;
      }
      assert docs[d][..|docs[d]|] == docs[d];
      d := d + 1;
    }
    assert docs[..|docs|] == docs;
  }

  lemma SameBytes(fold: bool, docs: seq<Document>, d: nat, present: seq<nat>)
    requires d < |docs| && PresentBytes(fold, docs[..d], present)
    ensures PresentBytes(fold, docs[..d] + [docs[d][..0]], present)
  {
    var longer := docs[..d] + [docs[d][..0]];
    forall b | 0 <= b < 256 && present[b] == 1
      ensures ByteOccurs(fold, longer, b)
    {
      var e, o :| 0 <= e < |docs[..d]| && 0 <= o < |docs[..d][e]| && Fold(fold, docs[..d][e][o]) == b;
      assert longer[e][o] == docs[..d][e][o];
    }
    forall e, o | 0 <= e < |longer| && 0 <= o < |longer[e]|
      ensures present[Fold(fold, longer[e][o])] == 1
    {
      assert longer[e][o] == docs[..d][e][o];
    }
  }

  lemma AddByte(fold: bool, before: seq<Document>, doc: Document, o: nat, present: seq<nat>)
    requires o < |doc| && PresentBytes(fold, before + [doc[..o]], present)
    ensures PresentBytes(fold, before + [doc[..o + 1]], present[Fold(fold, doc[o]) := 1])
  {
    var old', new' := before + [doc[..o]], before + [doc[..o + 1]];
    var present' := present[Fold(fold, doc[o]) := 1];
    forall b | 0 <= b < 256 && present'[b] == 1
      ensures ByteOccurs(fold, new', b)
    {
      if b == Fold(fold, doc[o]) {
        assert new'[|before|][o] == doc[o];
      } else {
        assert ByteOccurs(fold, old', b);
        var e, x :| 0 <= e < |old'| && 0 <= x < |old'[e]| && Fold(fold, old'[e][x]) == b;
        assert new'[e][x] == old'[e][x];
      }
    }
    forall e, x | 0 <= e < |new'| && 0 <= x < |new'[e]|
      ensures present'[Fold(fold, new'[e][x])] == 1
    {
      if e < |before| || x < o {
        assert new'[e][x] == old'[e][x];
      }
    }
  }

  /** Dense ids in byte order; with folding, capital letters alias their small letters. */
  method AssignIds(fold: bool, present: seq<nat>) returns (ids: seq<int>, sigma: nat)
    requires |present| == 256
    ensures |ids| == 256 && sigma == 2 + Count(present, 1, 256)
    ensures forall b :: 0 <= b < 256 ==> ids[b] == DenseId(present, Fold(fold, b))
    ensures forall b :: 65 <= b <= 90 && fold ==> ids[b] == ids[b + 32]
    ensures forall b: nat :: b < 256 && !(fold && 65 <= b <= 90) ==>
              ids[b] == if present[b] == 1 then 2 + |Indices(present, 1, b)| else -1
  {
    hide Indices;
    IndicesCounted(present);
    ids := seq(256, _ => -1);
    var id := 2;
    var b := 0;
    while b < 256
      invariant 0 <= b <= 256 && |ids| == 256 && id == 2 + Count(present, 1, b)
      invariant forall x :: 0 <= x < 256 ==> ids[x] == if x < b then DenseId(present, x) else -1
    {
      if present[b] == 1 {
        ids := ids[b := id];
        id := id + 1;
      }
      b := b + 1;
    }
    if fold {
      b := 65;
      while b <= 90
        invariant 65 <= b <= 91 && |ids| == 256
        invariant forall x :: 0 <= x < 256 ==>
                    ids[x] == if x < b then DenseId(present, Fold(true, x)) else DenseId(present, x)
      {
        ids := ids[b := ids[b + 32]];
        b := b + 1;
      }
    }
    sigma := id;
  }

  lemma IndicesCounted(s: seq<nat>)
    ensures forall x: nat, i: nat :: i <= |s| ==> Count(s, x, i) == |Indices(s, x, i)|
  {
    hide Count, Indices;
    forall x: nat, i: nat | i <= |s|
      ensures Count(s, x, i) == |Indices(s, x, i)|
    {
      CountIsCard(s, x, i);
    }
  }

  /** The levels Build derives from the alphabet size: two bits each, enough for every id. */
  function LevelsFor(sigma: nat): nat {
    (BitsFor(sigma, 1) + 1) / 2
  }

  /** The least number of bits, at least `bits`, that can write sigma different ids. */
  function BitsFor(sigma: nat, bits: nat): (r: nat)
    ensures r >= bits && sigma <= Pow2(r)
    decreases sigma - Pow2(bits)
  {
    if Pow2(bits) < sigma then BitsFor(sigma, bits + 1) else bits
  }

  method Levels(sigma: nat) returns (q: nat)
    ensures q == LevelsFor(sigma)
  {
    var bits := 1;
    while Pow2(bits) < sigma
      invariant BitsFor(sigma, bits) == BitsFor(sigma, 1)
      decreases sigma - Pow2(bits)
    {
      bits := bits + 1;
    }
    q := (bits + 1) / 2;
  }

  lemma {:induction false} Pow2Monotone(a: nat, b: nat)
    requires a <= b
    ensures Pow2(a) <= Pow2(b)
  {
    if a < b {
      Pow2Monotone(a, b - 1);
    }
  }

  /** Every id fits in the wavelet levels. */
  lemma IdsFitLevels(sigma: nat, x: nat)
    requires x < sigma
    ensures Top(x, LevelsFor(sigma)) == 0
  {
    hide Pow2;
    Pow2Monotone(BitsFor(sigma, 1), 2 * LevelsFor(sigma));
    DivUnique(x, Pow2(2 * LevelsFor(sigma)), 0, x);
  }

  /** Writes the symbol text: content ids, a separator after each document, the sentinel. */
  method FillSymbols(docs: seq<Document>, ids: seq<int>, t: array<nat>)
    requires |ids| == 256 && t.Length == TextLength(docs) + 1
    modifies t
    ensures t[..] == Text(ids, docs)
  {
    assert DocStart(docs, 0) == 0 && Body(ids, docs, 0) == [];
    hide DocStart, Body, Sym;
    var pos := 0;
    var d := 0;
    while d < |docs|
      invariant 0 <= d <= |docs| && pos == DocStart(docs, d) <= TextLength(docs)
      invariant t[..pos] == Body(ids, docs, d)
    {
      DocStartStep(docs, d);
      DocStartMonotone(docs, d + 1, |docs|);
      BodyStep(ids, docs, d);
      var o := 0;
      while o < |docs[d]|
        invariant 0 <= o <= |docs[d]| && pos == DocStart(docs, d) + o
        invariant t[..pos] == Body(ids, docs, d) + Syms(ids, docs[d][..o])
      {
        t[pos] := Sym(ids, docs[d][o]);
        assert Syms(ids, docs[d][..o + 1]) == Syms(ids, docs[d][..o]) + [Sym(ids, docs[d][o])];
        pos := pos + 1;
        o := o + 1;
      }
      assert docs[d][..|docs[d]|] == docs[d];
      t[pos] := SEPARATOR;
      pos := pos + 1;
      d := d + 1;
    }
    t[pos] := 0;
  }

  /** The out-of-place transform of the wide path. */
  method BwtWide(t: array<nat>, sa: array<nat>) returns (b: seq<nat>)
    requires t.Length == sa.Length && forall r :: 0 <= r < sa.Length ==> sa[r] < t.Length
    requires forall p :: 0 <= p < t.Length ==> t[p] < TWO16
    ensures b == Bwt(t[..], sa[..])
  {
    b := [];
    var i := 0;
    while i < sa.Length
      invariant 0 <= i <= sa.Length && |b| == i
      invariant forall r :: 0 <= r < i ==> b[r] == BwtSymbol(t[..], sa[r])
    {
      var v := sa[i];
      b := b + [if v == 0 then 0 else t[v - 1] % TWO16];
      i := i + 1;
    }
  }

  /** The compact path: every consumed suffix-array entry is overwritten by its transform symbol. */
  method BwtInPlace(t: array<nat>, sa: array<nat>)
    requires t != sa && t.Length == sa.Length && forall r :: 0 <= r < sa.Length ==> sa[r] < t.Length
    modifies sa
    ensures sa[..] == Bwt(t[..], old(sa[..]))
  {
    ghost var sa0 := sa[..];
    var i := 0;
    while i < sa.Length
      invariant 0 <= i <= sa.Length && t[..] == old(t[..])
      invariant forall r :: 0 <= r < i ==> sa[r] == BwtSymbol(t[..], sa0[r])
      invariant forall r :: i <= r < sa.Length ==> sa[r] == sa0[r]
    {
      var v := sa[i];
      sa[i] := if v == 0 then 0 else t[v - 1];
      i := i + 1;
    }
  }

  /** The 16-bit narrowing pass after the in-place transform. */
  method Narrow(a: array<nat>) returns (b: seq<nat>)
    requires forall i :: 0 <= i < a.Length ==> a[i] < TWO16
    ensures b == a[..]
  {
    b := [];
    var i := 0;
    while i < a.Length
      invariant 0 <= i <= a.Length && b == a[..i]
    {
      b := b + [a[i] % TWO16];
      i := i + 1;
    }
  }

  /** c[x] counts the symbols smaller than x. */
  method CTable(b: seq<nat>, sigma: nat) returns (c: seq<nat>)
    requires forall i :: 0 <= i < |b| ==> b[i] < sigma
    ensures |c| == sigma && forall x :: 0 <= x < sigma ==> c[x] == CountBelow(b, x, |b|)
  {
    hide Count, CountBelow;
    var counts := Histogram(b, sigma);
    c := counts;
    var acc := 0;
    var x := 0;
    CountBelowZero(b, |b|);
    while x < sigma
      invariant 0 <= x <= sigma && |c| == sigma && acc == CountBelow(b, x, |b|)
      invariant forall y :: 0 <= y < x ==> c[y] == CountBelow(b, y, |b|)
      invariant forall y :: x <= y < sigma ==> c[y] == counts[y]
    {
      var cnt := c[x];
      c := c[x := acc];
      acc := acc + cnt;
      CountBelowStep(b, x, |b|);
      x := x + 1;
    }
  }

  method Histogram(b: seq<nat>, sigma: nat) returns (c: seq<nat>)
    requires forall i :: 0 <= i < |b| ==> b[i] < sigma
    ensures |c| == sigma && forall x: nat :: x < sigma ==> c[x] == Count(b, x, |b|)
  {
    c := seq(sigma, _ => 0);
    var i := 0;
    while i < |b|
      invariant 0 <= i <= |b| && |c| == sigma
      invariant forall x: nat :: x < sigma ==> c[x] == Count(b, x, i)
    {
      c := c[b[i] := c[b[i]] + 1];
      i := i + 1;
    }
  }

  // ----- the byte of an id -----

  /** v is the last byte below n with id x. */
  predicate LastWithId(ids: seq<int>, n: nat, x: int, v: Byte)
    requires |ids| == 256 && n <= 256
  {
    v < n && ids[v] == x && forall b: Byte :: v < b < n ==> ids[b] != x
  }

  /** The byte of each id: the last byte that has it, 0 for the ids no byte has. */
  predicate Derived(ids: seq<int>, n: nat, sigma: nat, idToByte: seq<Byte>)
    requires |ids| == 256 && n <= 256
  {
    && |idToByte| == sigma
    && (forall b: Byte :: b < n && 0 < ids[b] ==> ids[b] < sigma && LastWithId(ids, n, ids[b], idToByte[ids[b]]))
    && (forall x: nat :: x < sigma && (x == 0 || NoneWithId(ids, n, x)) ==> idToByte[x] == 0)
  }

  predicate NoneWithId(ids: seq<int>, n: nat, x: int)
    requires |ids| == 256 && n <= 256
  {
    forall b: Byte :: b < n ==> ids[b] != x
  }

  /** Inverts the byte-to-id table; where two bytes share an id, the later byte wins. */
  method BuildDerived(ids: seq<int>, sigma: nat) returns (idToByte: seq<Byte>)
    requires |ids| == 256 && forall b :: 0 <= b < 256 ==> ids[b] < sigma
    ensures Derived(ids, 256, sigma, idToByte)
  {
    hide Derived;
    idToByte := seq(sigma, _ => 0);
    NothingDerived(ids, sigma);
    var b := 0;
    while b < 256
      invariant 0 <= b <= 256 && |idToByte| == sigma && Derived(ids, b, sigma, idToByte)
    {
      DeriveNext(ids, b, sigma, idToByte);
      if ids[b] > 0 {
        idToByte := idToByte[ids[b] := b];
      }
      b := b + 1;
    }
  }

  lemma NothingDerived(ids: seq<int>, sigma: nat)
    requires |ids| == 256
    ensures Derived(ids, 0, sigma, seq(sigma, _ => 0))
  {}

  lemma DeriveNext(ids: seq<int>, b: Byte, sigma: nat, v: seq<Byte>)
    requires |ids| == 256 && Derived(ids, b, sigma, v) && ids[b] < sigma
    ensures Derived(ids, b + 1, sigma, if ids[b] > 0 then v[ids[b] := b] else v)
  {
    var v' := if ids[b] > 0 then v[ids[b] := b] else v;
    forall x: Byte | x < b + 1 && 0 < ids[x]
      ensures ids[x] < sigma && LastWithId(ids, b + 1, ids[x], v'[ids[x]])
    {
      assert x < b ==> LastWithId(ids, b, ids[x], v[ids[x]]);
    }
    forall x: nat | x < sigma && (x == 0 || NoneWithId(ids, b + 1, x))
      ensures v'[x] == 0
    {
      assert NoneWithId(ids, b + 1, x) ==> NoneWithId(ids, b, x) && ids[b] != x;
    }
  }

  /** The table fixes its inverse. */
  lemma DerivedUnique(ids: seq<int>, sigma: nat, v: seq<Byte>, w: seq<Byte>)
    requires |ids| == 256 && Derived(ids, 256, sigma, v) && Derived(ids, 256, sigma, w)
    ensures v == w
  {
    forall x: nat | x < sigma
      ensures v[x] == w[x]
    {
      if x > 0 && !NoneWithId(ids, 256, x) {
        var b: Byte :| ids[b] == x;
        assert LastWithId(ids, 256, x, v[x]) && LastWithId(ids, 256, x, w[x]);
      }
    }
  }

  /** Of all the bytes sharing an id, the last one is the folded one: extraction returns small letters. */
  lemma LastIsFolded(fold: bool, docs: seq<Document>, ids: seq<int>, sigma: nat, b: Byte, v: Byte)
    requires Alphabet(fold, docs, ids, sigma) && ids[b] != -1 && LastWithId(ids, 256, ids[b], v)
    ensures v == Fold(fold, b)
  {
    IdRange(fold, docs, ids, sigma, b);
    IdRange(fold, docs, ids, sigma, v);
    IdsFaithful(fold, docs, ids, sigma, b, v);
    assert ids[Fold(fold, b)] == ids[b];
  }

  // ----- the sampled suffix array -----

  /** Flags the rows whose text position is a multiple of the sampling rate. */
  function SampleFlags(sa: seq<nat>, rate: nat): (f: seq<nat>)
    requires rate > 0
    ensures |f| == |sa|
    ensures forall r :: 0 <= r < |sa| ==> f[r] == if sa[r] % rate == 0 then 1 else 0
  {
    seq(|sa|, r requires 0 <= r < |sa| => if sa[r] % rate == 0 then 1 else 0)
  }

  /** The sampled positions, in row order: the k-th flagged row's position is the k-th sample. */
  ghost predicate SamplesOf(sa: seq<nat>, rate: nat, samples: seq<nat>, n: nat)
    requires rate > 0 && n <= |sa|
  {
    SamplesBy(SampleFlags(sa, rate), sa, samples, n)
  }

  ghost predicate SamplesBy(f: seq<nat>, sa: seq<nat>, samples: seq<nat>, n: nat)
    requires n <= |f| == |sa|
  {
    && |samples| == Count(f, 1, n)
    && forall r :: 0 <= r < n && f[r] == 1 ==> Count(f, 1, r) < |samples| && samples[Count(f, 1, r)] == sa[r]
  }

  /** A position as it is stored: narrow storage keeps 32 bits, enough for texts below 2^32. */
  function StoredSample(v: nat, wide: bool): (s: nat)
    ensures wide || v < TWO32 ==> s == v
  {
    if wide then v else v % TWO32
  }

  /** Marks and collects the sampled rows; narrow storage keeps only 32 bits of each position. */
  method SampleRows(sa: array<nat>, rate: nat, wide: bool) returns (bv: BitVectors.BitVector, samples: seq<nat>)
    requires rate > 0
    requires !wide ==> forall r :: 0 <= r < sa.Length ==> sa[r] < TWO32
    ensures fresh(bv) && bv.Valid() && bv.n == sa.Length && bv.Contents() == SampleFlags(sa[..], rate)
    ensures SamplesOf(sa[..], rate, samples, sa.Length)
  {
    hide Count, BitVectors.Bits, BitVectors.DirectoryOk, SamplesOf, FlaggedUpTo, SampleFlags, StoredSample;
    bv := new BitVectors.BitVector(sa.Length);
    samples := [];
    ghost var f := SampleFlags(sa[..], rate);
    NoSamples(sa[..], rate);
    NothingFlagged(f);
    var i := 0;
    while i < sa.Length
      invariant 0 <= i <= sa.Length && bv.Sized() && bv.n == sa.Length && fresh(bv)
      invariant FlaggedUpTo(bv.Contents(), f, i)
      invariant SamplesOf(sa[..], rate, samples, i)
    {
      var v := sa[i];
      AddSample(sa[..], rate, samples, i);
      FlagNext(bv.Contents(), f, i);
      if v % rate == 0 {
        bv.Set(i);
        samples := samples + [StoredSample(v, wide)];
      }
      i := i + 1;
    }
    AllFlagged(bv.Contents(), f);
    bv.BuildRank();
  }

  predicate FlaggedUpTo(bits: seq<nat>, f: seq<nat>, i: nat) {
    |bits| == |f| && forall r :: 0 <= r < |f| ==> bits[r] == if r < i then f[r] else 0
  }

  lemma NothingFlagged(f: seq<nat>)
    ensures FlaggedUpTo(seq(|f|, _ => 0), f, 0)
  {}

  lemma FlagNext(bits: seq<nat>, f: seq<nat>, i: nat)
    requires i < |f| && FlaggedUpTo(bits, f, i)
    ensures |bits| == |f|
    ensures f[i] == 0 ==> FlaggedUpTo(bits, f, i + 1)
    ensures f[i] == 1 ==> FlaggedUpTo(bits[i := 1], f, i + 1)
  {}

  lemma AllFlagged(bits: seq<nat>, f: seq<nat>)
    requires FlaggedUpTo(bits, f, |f|)
    ensures bits == f
  {}

  lemma NoSamples(sa: seq<nat>, rate: nat)
    requires rate > 0
    ensures SamplesOf(sa, rate, [], 0)
  {}

  lemma AddSample(sa: seq<nat>, rate: nat, samples: seq<nat>, i: nat)
    requires rate > 0 && i < |sa| && SamplesOf(sa, rate, samples, i)
    ensures SamplesOf(sa, rate, if sa[i] % rate == 0 then samples + [sa[i]] else samples, i + 1)
  {
    hide SamplesBy;
    AddFlagged(SampleFlags(sa, rate), sa, samples, i);
  }

  lemma AddFlagged(f: seq<nat>, sa: seq<nat>, samples: seq<nat>, i: nat)
    requires i < |f| == |sa| && SamplesBy(f, sa, samples, i) && f[i] <= 1
    ensures SamplesBy(f, sa, if f[i] == 1 then samples + [sa[i]] else samples, i + 1)
  {
    forall r | 0 <= r < i && f[r] == 1
      ensures Count(f, 1, r) < Count(f, 1, i)
    {
      CountMonotone(f, 1, r, i);
    }
  }

  /** Multiples of rate below n, counted. */
  function Multiples(n: nat, rate: nat): (s: seq<nat>)
    requires rate > 0
    ensures |s| == n
    ensures forall p :: 0 <= p < n ==> s[p] == if p % rate == 0 then 1 else 0
  {
    seq(n, (p: nat) requires p < n => if p % rate == 0 then 1 else 0)
  }

  lemma {:induction false} CountMultiples(n: nat, rate: nat, i: nat)
    requires rate > 0 && i <= n
    ensures Count(Multiples(n, rate), 1, i) == (i + rate - 1) / rate
  {
    if i > 0 {
      CountMultiples(n, rate, i - 1);
      NextMultiple(i - 1, rate);
    } else {
      assert (rate - 1) / rate == 0;
    }
  }

  lemma NextMultiple(p: nat, rate: nat)
    requires rate > 0
    ensures (p + 1 + rate - 1) / rate == (p + rate - 1) / rate + if p % rate == 0 then 1 else 0
  {
    var q := p / rate;
    assert p == q * rate + p % rate;
    if p % rate == 0 {
      DivUnique(p + rate, rate, q + 1, 0);
      DivUnique(p + rate - 1, rate, q, rate - 1);
    } else {
      DivUnique(p + rate, rate, q + 1, p % rate);
      DivUnique(p + rate - 1, rate, q + 1, p % rate - 1);
    }
  }

  /** Exactly text_len / rate + 1 rows are sampled, whatever the text. */
  lemma SampleCount(sa: seq<nat>, rate: nat)
    requires rate > 0 && |sa| > 0 && IsPermutation(sa)
    ensures Count(SampleFlags(sa, rate), 1, |sa|) == (|sa| - 1) / rate + 1
  {
    hide Count;
    var n := |sa|;
    PermutedCount(SampleFlags(sa, rate), Multiples(n, rate), sa, 1);
    CountMultiples(n, rate, n);
    CeilingIsNextFloor(n, rate);
  }

  lemma CeilingIsNextFloor(n: nat, rate: nat)
    requires n > 0 && rate > 0
    ensures (n + rate - 1) / rate == (n - 1) / rate + 1
  {
    var q := (n - 1) / rate;
    assert n - 1 == q * rate + (n - 1) % rate;
    assert (q + 1) * rate == q * rate + rate;
    DivUnique(n + rate - 1, rate, q + 1, (n - 1) % rate);
  }
}
