/** The rank9 bit vector: one absolute count and seven packed 9-bit counts per 512-bit block. */
module BitVectors {
  import opened Words
  import opened Counting

  const BITS := 64           // bits per word
  const BLOCK_WORDS := 8     // words per block

  function WordCount(n: nat): nat {
    (n + 63) / BITS
  }

  function BitOf(words: seq<bv64>, i: nat): (b: nat)
    requires i / BITS < |words|
    ensures b <= 1
  {
    if Bit(words[i / BITS], i % BITS) then 1 else 0
  }

  /** The first n bits, as a sequence of zeros and ones. */
  function Bits(words: seq<bv64>, n: nat): (s: seq<nat>)
    requires |words| == WordCount(n)
    ensures |s| == n
    ensures forall i :: 0 <= i < n ==> s[i] == BitOf(words, i)
  {
    seq(n, i requires 0 <= i < n => BitOf(words, i))
  }

  lemma {:induction false} CountInWord(words: seq<bv64>, n: nat, w: nat, k: nat)
    requires |words| == WordCount(n) && k <= BITS && BITS * w + k <= n && w < |words|
    ensures Count(Bits(words, n), 1, BITS * w + k) == Count(Bits(words, n), 1, BITS * w) + BitCount(words[w], k)
  {
    hide Bit, Word;
    if k > 0 {
      CountInWord(words, n, w, k - 1);
      assert (BITS * w + (k - 1)) / BITS == w && (BITS * w + (k - 1)) % BITS == k - 1;
    }
  }

  /** Ones before word w, clipped to the end of the vector. */
  function OnesBefore(s: seq<nat>, w: nat): nat {
    Count(s, 1, Min(|s|, BITS * w))
  }

  /** A word with the padding bits past n dropped. */
  function Trimmed(words: seq<bv64>, n: nat, w: nat): bv64
    requires w < |words|
  {
    if w + 1 == |words| && n % BITS != 0 then LowPart(words[w], Word(n % BITS)) else words[w]
  }

  /** The popcount of a trimmed word is exactly its contribution: padding bits never count. */
  lemma TrimmedPopCount(words: seq<bv64>, n: nat, w: nat)
    requires |words| == WordCount(n) && w < |words|
    ensures OnesBefore(Bits(words, n), w + 1) == OnesBefore(Bits(words, n), w) + PopCount(Trimmed(words, n, w))
    ensures PopCount(Trimmed(words, n, w)) <= 64
  {
    hide Bit, Word, LowPart, BitCount, Bits, Count;
    assert BITS * w < n && Min(n, BITS * w) == BITS * w;
    if w + 1 == |words| && n % BITS != 0 {
      CountInWord(words, n, w, n % BITS);
      MaskedPopCount(words[w], n % BITS, 64);
    } else {
      CountInWord(words, n, w, BITS);
    }
    BitCountBound(Trimmed(words, n, w), 64);
  }

  lemma {:induction false} BitCountBound(w: bv64, k: nat)
    requires k <= 64
    ensures BitCount(w, k) <= k
  {
    hide Bit;
    if k > 0 {
      BitCountBound(w, k - 1);
    }
  }

  /** One interleaved directory entry: ones before the block, and the packed sub-block counts. */
  datatype Entry = Entry(abs: nat, packed: bv64)

  function BlockCount(n: nat): nat {
    (WordCount(n) + 7) / BLOCK_WORDS
  }

  predicate EntryOk(s: seq<nat>, e: Entry, b: nat) {
    && e.abs == OnesBefore(s, 8 * b)
    && (b < BlockCount(|s|) ==> FieldsOk(s, e, b, 8))
  }

  /** Fields 1 .. j-1 hold the ones of the block's first words. */
  predicate FieldsOk(s: seq<nat>, e: Entry, b: nat, j: nat)
    requires j <= 8
  {
    forall k: nat :: 1 <= k < j ==> FieldOk(s, e, b, k)
  }

  predicate FieldOk(s: seq<nat>, e: Entry, b: nat, k: nat)
    requires 1 <= k < 8
  {
    e.abs + Field(e.packed, k) == OnesBefore(s, 8 * b + k)
  }

  predicate DirectoryOk(s: seq<nat>, dir: seq<Entry>, blocks: nat)
    requires blocks <= |dir|
  {
    forall b :: 0 <= b < blocks ==> EntryOk(s, dir[b], b)
  }

  lemma OnesBeforeStep(s: seq<nat>, b: nat, j: nat)
    ensures OnesBefore(s, 8 * b) <= OnesBefore(s, 8 * b + j) <= OnesBefore(s, 8 * b) + 64 * j
  {
    CountMonotone(s, 1, Min(|s|, BITS * (8 * b)), Min(|s|, BITS * (8 * b + j)));
  }

  /** Packing the count of the block's first j words as field j keeps the earlier fields. */
  lemma AddField(s: seq<nat>, abs: nat, packed: bv64, b: nat, j: nat, rel: nat)
    requires 1 <= j <= 7 && ClearFrom(packed, 9 * (j - 1))
    requires abs == OnesBefore(s, 8 * b) && abs + rel == OnesBefore(s, 8 * b + j)
    requires FieldsOk(s, Entry(abs, packed), b, j)
    ensures rel < 512
    ensures var packed' := PutField(packed, rel, j);
            FieldsOk(s, Entry(abs, packed'), b, j + 1) && ClearFrom(packed', 9 * j)
  {
    hide Field, ClearFrom, PutField, OnesBefore;
    OnesBeforeStep(s, b, j);
    PackClear(packed, rel, j);
    var e := Entry(abs, PutField(packed, rel, j));
    forall k: nat | 1 <= k < j + 1
      ensures FieldOk(s, e, b, k)
    {
      PackField(packed, rel, j, k);
      assert k < j ==> FieldOk(s, Entry(abs, packed), b, k);
    }
  }

  lemma NothingPacked()
    ensures ClearFrom(0, 0)
  {}

  class BitVector {
    var n: nat
    var words: seq<bv64>
    var ones: nat
    var dir: seq<Entry>

    ghost predicate Sized()
      reads this
    {
      |words| == WordCount(n)
    }

    ghost predicate Valid()
      reads this
    {
      && Sized()
      && |dir| == BlockCount(n) + 1
      && DirectoryOk(Bits(words, n), dir, |dir|)
      && ones == Count(Contents(), 1, n)
    }

    ghost function Contents(): seq<nat>
      requires Sized()
      reads this
    {
      Bits(words, n)
    }

    /** n clear bits; set some, then BuildRank. */
    constructor (n: nat)
      ensures Sized() && this.n == n && Contents() == seq(n, _ => 0)
    {
      this.n := n;
      words := seq(WordCount(n), _ => 0);
      ones, dir := 0, [];
      new;
      forall i | 0 <= i < n
        ensures Contents()[i] == 0
      {
        ZeroWord(i % BITS);
      }
    }

    /** Views n bits already packed in words; whatever lies past bit n is ignored. */
    constructor View(n: nat, words: seq<bv64>)
      requires |words| == WordCount(n)
      ensures Valid() && this.n == n && this.words == words
    {
      this.n := n;
      this.words := words;
      ones, dir := 0, [];
      new;
      BuildRank();
    }

    method Set(i: nat)
      requires Sized() && i < n
      modifies this`words
      ensures Sized() && Contents() == old(Contents())[i := 1]
    {
      hide Bit, OrAt, Word;
      words := words[i / BITS := OrAt(words[i / BITS], 1, Word(i % BITS))];
      forall j | 0 <= j < n
        ensures Contents()[j] == if j == i then 1 else old(Contents())[j]
      {
        if j / BITS == i / BITS {
          SetBit(old(words)[i / BITS], i % BITS, j % BITS);
        }
      }
    }

    function Get(i: nat): bool
      requires Sized() && i < n
      reads this
      ensures Get(i) <==> Contents()[i] == 1
    {
      Bit(words[i / BITS], i % BITS)
    }

    method BuildRank()
      requires Sized()
      modifies this`dir, this`ones
      ensures Valid()
    {
      hide Bits, EntryOk;
      var nblocks := (|words| + 7) / BLOCK_WORDS;
      dir := seq(nblocks + 1, _ => Entry(0, 0));
      var total := 0;
      var b := 0;
      while b < nblocks
        invariant 0 <= b <= nblocks && |dir| == nblocks + 1
        invariant total == OnesBefore(Contents(), 8 * b)
        invariant DirectoryOk(Contents(), dir, b)
      {
        var rel, packed := PackBlock(b, total);
        dir := dir[b := Entry(total, packed)];
        total := total + rel;
        b := b + 1;
      }
      AllBefore(Contents(), nblocks, total);
      dir := dir[nblocks := Entry(total, dir[nblocks].packed)];
      ones := total;
    }

    /** The ones of block b and the packed counts of its first seven words. */
    method PackBlock(b: nat, total: nat) returns (rel: nat, packed: bv64)
      requires Sized() && b < BlockCount(n) && total == OnesBefore(Contents(), 8 * b)
      ensures total + rel == OnesBefore(Contents(), 8 * (b + 1))
      ensures EntryOk(Contents(), Entry(total, packed), b)
    {
      hide Bits, Field, ClearFrom, PutField, OnesBefore, PopCount, Trimmed, FieldOk;
      rel, packed := 0, 0;
      NothingPacked();
      assert OnesBefore(Contents(), 8 * b + 0) == total;
      var j := 0;
      while j < 8
        invariant 0 <= j <= 8
        invariant total + rel == OnesBefore(Contents(), 8 * b + j)
        invariant FieldsOk(Contents(), Entry(total, packed), b, j)
        invariant 1 <= j ==> ClearFrom(packed, 9 * (j - 1))
        invariant j == 0 ==> ClearFrom(packed, 0)
      {
        if j >= 1 {
          AddField(Contents(), total, packed, b, j, rel);
          packed := PutField(packed, rel, j);
        }
        var w := b * 8 + j;
        if w < |words| {
          TrimmedPopCount(words, n, w);
          rel := rel + PopCount(Trimmed(words, n, w));
        } else {
          PastEnd(Contents(), w);
        }
        j := j + 1;
      }
    }

    /** Ones before position i, for every i up to and including n. */
    method Rank1(i: nat) returns (r: nat)
      requires Valid() && i <= n
      ensures r == Count(Contents(), 1, i) == |set k: nat | k < i && Contents()[k] == 1|
    {
      Counted(Contents(), 1, i);
      hide Bits, Field, LowPart, Word, PopCount, BitCount, OnesBefore;
      var wi := i / BITS;
      var b := wi / 8;
      var j := wi % 8;
      assert EntryOk(Contents(), dir[b], b);
      r := dir[b].abs;
      if j != 0 {
        assert FieldOk(Contents(), dir[b], b, j);
        r := r + Field(dir[b].packed, j);
      }
      assert r == OnesBefore(Contents(), wi);
      var off := i % BITS;
      WordPrefix(words, n, i);
      if off != 0 {
        r := r + PopCount(LowPart(words[wi], Word(off)));
      }
    }

    method Rank0(i: nat) returns (r: nat)
      requires Valid() && i <= n
      ensures r == Count(Contents(), 0, i) == |set k: nat | k < i && Contents()[k] == 0|
    {
      Counted(Contents(), 0, i);
      var ones := Rank1(i);
      ZerosAndOnes(Contents(), i);
      r := i - ones;
    }
  }

  lemma WordPrefix(words: seq<bv64>, n: nat, i: nat)
    requires |words| == WordCount(n) && i <= n
    ensures i % BITS == 0 ==> Count(Bits(words, n), 1, i) == OnesBefore(Bits(words, n), i / BITS)
    ensures i % BITS != 0 ==> i / BITS < |words|
    ensures i % BITS != 0 ==>
      Count(Bits(words, n), 1, i)
      == OnesBefore(Bits(words, n), i / BITS) + PopCount(LowPart(words[i / BITS], Word(i % BITS)))
  {
    hide Bits, LowPart, Word, BitCount, Count;
    var w, off := i / BITS, i % BITS;
    assert i == BITS * w + off;
    if off != 0 {
      CountInWord(words, n, w, off);
      MaskedPopCount(words[w], off, 64);
      assert Min(n, BITS * w) == BITS * w;
    }
  }

  lemma PastEnd(s: seq<nat>, w: nat)
    requires w >= WordCount(|s|)
    ensures OnesBefore(s, w + 1) == OnesBefore(s, w)
  {}

  lemma AllBefore(s: seq<nat>, nblocks: nat, total: nat)
    requires nblocks == BlockCount(|s|) && total == OnesBefore(s, 8 * nblocks)
    ensures total == Count(s, 1, |s|)
    ensures forall packed :: EntryOk(s, Entry(total, packed), nblocks)
  {}

  lemma {:induction false} ZerosAndOnes(s: seq<nat>, i: nat)
    requires i <= |s| && forall k :: 0 <= k < i ==> s[k] <= 1
    ensures Count(s, 0, i) + Count(s, 1, i) == i
  {
    if i > 0 {
      ZerosAndOnes(s, i - 1);
    }
  }
}
