/** The 2-bit packed vector with in-register lane counting and a two-level rank directory. */
module QuadVectors {
  import opened Words
  import opened Counting

  const LANES := 32            // digits per word
  const BLOCKS_PER_SB := 64    // rank blocks per superblock
  const RELATIVE_MOD := 0x1_0000  // the directory's relative counts are 16 bits wide

  function Pow2(k: nat): (r: nat)
    ensures r >= 1
  {
    if k == 0 then 1 else 2 * Pow2(k - 1)
  }

  function WordCount(n: nat): nat {
    (n + 31) / LANES
  }

  /** The digit at position i of the packed words. */
  function DigitAt(words: seq<bv64>, i: nat): (d: nat)
    requires i / LANES < |words|
    ensures d < 4
  {
    LaneDigit(words[i / LANES], i % LANES, 0);
    Lane(words[i / LANES], i % LANES) as nat
  }

  /** The first n digits packed in words. */
  function Digits(words: seq<bv64>, n: nat): (s: seq<nat>)
    requires |words| == WordCount(n)
    ensures |s| == n
    ensures forall i :: 0 <= i < n ==> s[i] == DigitAt(words, i)
  {
    seq(n, i requires 0 <= i < n => DigitAt(words, i))
  }

  /** Counting k lanes of one word advances a prefix count by k digits; bits past n never matter. */
  lemma {:induction false} CountInWord(words: seq<bv64>, n: nat, v: nat, w: nat, k: nat)
    requires |words| == WordCount(n) && v < 4 && k <= LANES && LANES * w + k <= n && w < |words|
    ensures Count(Digits(words, n), v, LANES * w + k)
         == Count(Digits(words, n), v, LANES * w) + LaneCount(words[w], Word(v), k)
  {
    hide Word, Lane;
    if k > 0 {
      CountInWord(words, n, v, w, k - 1);
      LaneDigit(words[w], k - 1, v);
      assert (LANES * w + (k - 1)) / LANES == w && (LANES * w + (k - 1)) % LANES == k - 1;
    }
  }

  lemma SwarInWord(words: seq<bv64>, n: nat, v: nat, w: nat, k: nat)
    requires |words| == WordCount(n) && v < 4 && k <= LANES && LANES * w + k <= n && w < |words|
    ensures Count(Digits(words, n), v, LANES * w + k)
         == Count(Digits(words, n), v, LANES * w) + SwarCount(words[w], Word(v), k)
  {
    CountInWord(words, n, v, w, k);
    LaneDigit(words[w], 0, v);
    SwarCountsLanes(words[w], Word(v), k);
  }

  // ----- the directory -----

  /** The four prefix counts of a digit sequence. */
  function Counts(s: seq<nat>, i: nat): (r: seq<nat>)
    requires i <= |s|
    ensures |r| == 4
    ensures forall v: nat :: v < 4 ==> r[v] == Count(s, v, i)
  {
    seq(4, (v: nat) requires v < 4 => Count(s, v, i))
  }

  /** First digit of rank block b, clipped to the end of the vector. */
  function BlockStart(n: nat, wpb: nat, b: nat): (r: nat)
    ensures r <= n
  {
    Min(n, LANES * (b * wpb))
  }

  predicate BlockSize(wpb: nat, shift: nat) {
    1 <= wpb <= 16 && wpb == Pow2(shift)
  }

  function BlockCount(n: nat, wpb: nat): nat
    requires wpb > 0
  {
    (WordCount(n) + wpb - 1) / wpb
  }

  /** Superblock base plus 16-bit relative count is the exact prefix count at every block start. */
  predicate DirectoryOk(s: seq<nat>, wpb: nat, sb: seq<seq<nat>>, rel: seq<seq<nat>>)
    requires wpb > 0
  {
    && |rel| == BlockCount(|s|, wpb) + 1
    && |sb| == (BlockCount(|s|, wpb) + BLOCKS_PER_SB - 1) / BLOCKS_PER_SB + 1
    && DirectoryOkUpTo(s, wpb, sb, rel, |rel|)
  }

  predicate DirectoryOkUpTo(s: seq<nat>, wpb: nat, sb: seq<seq<nat>>, rel: seq<seq<nat>>, blocks: nat) {
    forall b :: 0 <= b < blocks ==> BlockOk(s, wpb, sb, rel, b)
  }

  predicate BlockOk(s: seq<nat>, wpb: nat, sb: seq<seq<nat>>, rel: seq<seq<nat>>, b: nat) {
    && b < |rel| && |rel[b]| == 4
    && b / BLOCKS_PER_SB < |sb| && |sb[b / BLOCKS_PER_SB]| == 4
    && forall v: nat :: v < 4 ==>
         sb[b / BLOCKS_PER_SB][v] + rel[b][v] == Count(s, v, BlockStart(|s|, wpb, b))
  }

  /** The counts added by one word's lanes. */
  function AddLanes(acc: seq<nat>, word: bv64, k: nat): (r: seq<nat>)
    requires |acc| == 4 && k <= LANES
    ensures |r| == 4
  {
    seq(4, (v: nat) requires v < 4 => acc[v] + SwarCount(word, Word(v), k))
  }

  lemma AddLanesCounts(words: seq<bv64>, n: nat, w: nat, k: nat)
    requires |words| == WordCount(n) && k <= LANES && LANES * w + k <= n && w < |words|
    ensures AddLanes(Counts(Digits(words, n), LANES * w), words[w], k) == Counts(Digits(words, n), LANES * w + k)
  {
    forall v: nat | v < 4
      ensures AddLanes(Counts(Digits(words, n), LANES * w), words[w], k)[v] == Count(Digits(words, n), v, LANES * w + k)
    {
      SwarInWord(words, n, v, w, k);
    }
  }

  /** The relative counts of one block against its superblock. */
  function Relative(acc: seq<nat>, base: seq<nat>): (r: seq<nat>)
    requires |acc| == 4 && |base| == 4
    requires forall v: nat :: v < 4 ==> base[v] <= acc[v]
    ensures |r| == 4
  {
    seq(4, (v: nat) requires v < 4 => (acc[v] - base[v]) % RELATIVE_MOD)
  }

  /** No relative count is truncated: a superblock never spans 2^16 digits. */
  lemma RelativeFits(s: seq<nat>, wpb: nat, b: nat)
    requires 1 <= wpb <= 16
    ensures forall v: nat :: v < 4 ==>
              Counts(s, BlockStart(|s|, wpb, b / 64 * 64))[v] <= Counts(s, BlockStart(|s|, wpb, b))[v]
    ensures forall v: nat :: v < 4 ==>
              Counts(s, BlockStart(|s|, wpb, b / 64 * 64))[v]
              + Relative(Counts(s, BlockStart(|s|, wpb, b)), Counts(s, BlockStart(|s|, wpb, b / 64 * 64)))[v]
              == Count(s, v, BlockStart(|s|, wpb, b))
  {
    var b0 := b / 64 * 64;
    BlockSpan(b0, b, wpb);
    forall v: nat | v < 4
      ensures Count(s, v, BlockStart(|s|, wpb, b0)) <= Count(s, v, BlockStart(|s|, wpb, b))
      ensures Count(s, v, BlockStart(|s|, wpb, b)) < Count(s, v, BlockStart(|s|, wpb, b0)) + RELATIVE_MOD
    {
      CountMonotone(s, v, BlockStart(|s|, wpb, b0), BlockStart(|s|, wpb, b));
    }
  }

  lemma BlockSpan(b0: nat, b: nat, wpb: nat)
    requires b0 <= b < b0 + 64 && 1 <= wpb <= 16
    ensures b0 * wpb <= b * wpb <= b0 * wpb + 63 * 16
  {}

  /** The superblock that covers block b holds the counts at that superblock's start. */
  predicate SuperblockOk(s: seq<nat>, wpb: nat, sb: seq<seq<nat>>, b: nat) {
    b / BLOCKS_PER_SB < |sb| && sb[b / BLOCKS_PER_SB] == Counts(s, BlockStart(|s|, wpb, b / 64 * 64))
  }

  /** Opening block b, with a fresh superblock on every 64th block, keeps the earlier blocks exact. */
  lemma OpenBlock(s: seq<nat>, wpb: nat, sb: seq<seq<nat>>, rel: seq<seq<nat>>, b: nat, acc: seq<nat>,
                  sb': seq<seq<nat>>)
    requires 1 <= wpb <= 16 && b < |rel| && b / 64 < |sb|
    requires DirectoryOkUpTo(s, wpb, sb, rel, b) && acc == Counts(s, BlockStart(|s|, wpb, b))
    requires b > 0 ==> SuperblockOk(s, wpb, sb, b - 1)
    requires sb' == if b % 64 == 0 then sb[b / 64 := acc] else sb
    ensures SuperblockOk(s, wpb, sb', b)
    ensures forall v: nat :: v < 4 ==> sb'[b / 64][v] <= acc[v]
    ensures DirectoryOkUpTo(s, wpb, sb', rel[b := Relative(acc, sb'[b / 64])], b + 1)
  {
    RelativeFits(s, wpb, b);
    if b % 64 != 0 {
      assert (b - 1) / 64 == b / 64;
    } else {
      assert b / 64 * 64 == b;
    }
    var rel' := rel[b := Relative(acc, sb'[b / 64])];
    forall k | 0 <= k < b
      ensures BlockOk(s, wpb, sb', rel', k)
    {
      assert BlockOk(s, wpb, sb, rel, k);
      if b % 64 == 0 {
        assert k / 64 < b / 64;
      }
    }
  }

  lemma RankBlock(n: nat, wpb: nat, i: nat)
    requires i <= n && 1 <= wpb
    ensures i / LANES / wpb <= BlockCount(n, wpb)
    ensures i / LANES / wpb * wpb <= i / LANES
    ensures BlockStart(n, wpb, i / LANES / wpb) == LANES * (i / LANES / wpb * wpb)
  {
    FloorMultiple(i / LANES, wpb);
    DivMonotone(i / LANES, WordCount(n) + wpb - 1, wpb);
  }

  lemma FloorMultiple(x: nat, d: nat)
    requires d > 0
    ensures x / d * d <= x < x / d * d + d
  {}

  lemma MulMonotone(x: nat, y: nat, d: nat)
    requires x <= y
    ensures x * d <= y * d
  {}

  lemma DivMonotone(x: nat, y: nat, d: nat)
    requires d > 0 && x <= y
    ensures x / d <= y / d
  {
    FloorMultiple(x, d);
    FloorMultiple(y, d);
    if y / d < x / d {
      MulMonotone(y / d + 1, x / d, d);
    }
  }

  /** The words past the last one are not counted: the block that would hold them ends at n. */
  lemma PastLastWord(n: nat, wpb: nat, b: nat, k: nat)
    requires k <= wpb
    ensures b * wpb + k >= WordCount(n) ==> n == Min(n, LANES * (b * wpb + k)) == BlockStart(n, wpb, b + 1)
    ensures k == wpb ==> Min(n, LANES * (b * wpb + k)) == BlockStart(n, wpb, b + 1)
    ensures k == 0 ==> Min(n, LANES * (b * wpb + k)) == BlockStart(n, wpb, b)
  {}

  // ----- packing one digit of every symbol -----

  /** Two bits of a symbol. */
  function Digit(x: nat, digitShift: nat): (d: nat)
    ensures d < 4
  {
    x / Pow2(digitShift) % 4
  }

  function DigitsOf(syms: seq<nat>, digitShift: nat): (r: seq<nat>)
    ensures |r| == |syms|
    ensures forall i :: 0 <= i < |r| ==> r[i] == Digit(syms[i], digitShift)
  {
    seq(|syms|, i requires 0 <= i < |syms| => Digit(syms[i], digitShift))
  }

  predicate FilledUpTo(words: seq<bv64>, digits: seq<nat>, i: nat)
    requires |words| == WordCount(|digits|)
  {
    forall j: nat :: j < LANES * |words| ==>
      DigitAt(words, j) == if j < i && j < |digits| then digits[j] else 0
  }

  lemma BlankWords(words: seq<bv64>, digits: seq<nat>)
    requires words == seq(WordCount(|digits|), _ => 0)
    ensures FilledUpTo(words, digits, 0)
  {}

  lemma PutDigit(words: seq<bv64>, digits: seq<nat>, i: nat)
    requires |words| == WordCount(|digits|) && i < |digits| && digits[i] < 4
    requires FilledUpTo(words, digits, i)
    ensures FilledUpTo(words[i / LANES := OrAt(words[i / LANES], Word(digits[i]), Word(2 * (i % LANES)))], digits, i + 1)
  {
    var w := i / LANES;
    var words' := words[w := OrAt(words[w], Word(digits[i]), Word(2 * (i % LANES)))];
    LaneDigit(words[w], i % LANES, 0);
    LaneDigit(words[w], i % LANES, digits[i]);
    assert DigitAt(words, i) == 0;
    assert Word(0) == 0;
    forall j: nat | j < LANES * |words|
      ensures DigitAt(words', j) == if j <= i then digits[j] else 0
    {
      if j / LANES == w {
        SetLane(words[w], Word(digits[i]), i % LANES, j % LANES);
        LaneDigit(words'[w], j % LANES, digits[i]);
      }
      assert DigitAt(words, j) == if j < i then digits[j] else 0;
    }
  }

  lemma FilledIsContents(words: seq<bv64>, digits: seq<nat>)
    requires |words| == WordCount(|digits|) && FilledUpTo(words, digits, |digits|)
    ensures Digits(words, |digits|) == digits
  {}

  predicate SmallPower(p: nat) {
    p == 1 || p == 2 || p == 4 || p == 8 || p == 16
  }

  /** The largest power of two not above x, starting from p. */
  function Pow2Below(x: nat, p: nat): (r: nat)
    requires 1 <= p <= x
    ensures p <= r <= x < 2 * r
    ensures x <= 16 && SmallPower(p) ==> SmallPower(r)
    decreases x - p
  {
    if 2 * p <= x then Pow2Below(x, 2 * p) else p
  }

  /** A requested block size clamped to [1, 16] words and rounded down to a power of two. */
  function ClampedPow2(requested: nat): (r: nat)
    ensures SmallPower(r)
  {
    Pow2Below(if requested < 1 then 1 else if requested > 16 then 16 else requested, 1)
  }

  method NormalizeBlock(requested: nat) returns (p: nat, sh: nat)
    ensures BlockSize(p, sh) && p == ClampedPow2(requested)
    ensures SmallPower(p) && (requested <= 1 ==> p == 1) && (requested >= 16 ==> p == 16)
    ensures 1 <= requested <= 16 ==> p <= requested < 2 * p
  {
    var w := requested;
    if w < 1 {
      w := 1;
    }
    if w > 16 {
      w := 16;
    }
    p, sh := 1, 0;
    while p * 2 <= w
      invariant 1 <= p == Pow2(sh) && p <= w && Pow2Below(w, p) == Pow2Below(w, 1)
    {
      p, sh := p * 2, sh + 1;
    }
  }

  class QuadVector {
    var n: nat
    var words: seq<bv64>
    var wpb: nat           // words per rank block, a power of two
    var shift: nat         // its logarithm
    var sb: seq<seq<nat>>
    var rel: seq<seq<nat>>

    ghost predicate Packed()
      reads this
    {
      |words| == WordCount(n) && BlockSize(wpb, shift)
    }

    ghost predicate Valid()
      reads this
    {
      Packed() && DirectoryOk(Digits(words, n), wpb, sb, rel)
    }

    ghost function Contents(): seq<nat>
      requires |words| == WordCount(n)
      reads this
    {
      Digits(words, n)
    }

    /** Views n digits already packed in words; whatever lies past digit n is ignored. */
    constructor View(n: nat, words: seq<bv64>, wordsPerBlock: nat)
      requires |words| == WordCount(n)
      ensures Valid() && this.n == n && this.words == words
    {
      this.n := n;
      this.words := words;
      sb, rel := [], [];
      var p, s := NormalizeBlock(wordsPerBlock);
      wpb, shift := p, s;
      new;
      BuildRank();
    }

    method BuildRank()
      requires Packed()
      modifies this`sb, this`rel
      ensures Valid()
    {
      hide Digits, Pow2, Count, Relative, BlockOk;
      var nwords := |words|;
      var nblocks := (nwords + wpb - 1) / wpb;
      var nsb := (nblocks + BLOCKS_PER_SB - 1) / BLOCKS_PER_SB;
      sb := seq(nsb + 1, _ => [0, 0, 0, 0]);
      rel := seq(nblocks + 1, _ => [0, 0, 0, 0]);
      ghost var s := Digits(words, n);
      var acc := [0, 0, 0, 0];
      var b := 0;
      while b <= nblocks
        invariant 0 <= b <= nblocks + 1 && |rel| == nblocks + 1 && |sb| == nsb + 1
        invariant b <= nblocks ==> acc == Counts(s, BlockStart(n, wpb, b))
        invariant b > 0 ==> SuperblockOk(s, wpb, sb, b - 1)
        invariant DirectoryOkUpTo(s, wpb, sb, rel, b)
      {
        ghost var sb0, rel0 := sb, rel;
        if b % BLOCKS_PER_SB == 0 {
          sb := sb[b / BLOCKS_PER_SB := acc];
        }
        OpenBlock(s, wpb, sb0, rel0, b, acc, sb);
        rel := rel[b := Relative(acc, sb[b / BLOCKS_PER_SB])];
        if b < nblocks {
          acc := AddBlock(acc, b);
        }
        b := b + 1;
      }
    }

    /** Adds the digits of block b to the running counts. */
    method AddBlock(start: seq<nat>, b: nat) returns (acc: seq<nat>)
      requires Packed() && b < BlockCount(n, wpb)
      requires start == Counts(Digits(words, n), BlockStart(n, wpb, b))
      ensures acc == Counts(Digits(words, n), BlockStart(n, wpb, b + 1))
    {
      hide Digits, Pow2, Count, Counts, AddLanes, BlockStart, BlockCount;
      acc := start;
      var k := 0;
      PastLastWord(n, wpb, b, k);
      while k < wpb
        invariant 0 <= k <= wpb
        invariant acc == Counts(Digits(words, n), Min(n, LANES * (b * wpb + k)))
      {
        var ww := b * wpb + k;
        if ww >= |words| {
          break;
        }
        var base := ww * LANES;
        var valid := if n - base < LANES then n - base else LANES;
        AddLanesCounts(words, n, ww, valid);
        acc := AddLanes(acc, words[ww], valid);
        k := k + 1;
      }
      PastLastWord(n, wpb, b, k);
    }

    /** Occurrences of digit v before position i, for every i up to and including n. */
    method Rank(v: nat, i: nat) returns (r: nat)
      requires Valid() && v < 4 && i <= n
      ensures r == Count(Contents(), v, i) == |set k: nat | k < i && Contents()[k] == v|
    {
      hide SwarCount, Digits, LaneCount, Word, Pow2, Count;
      Counted(Contents(), v, i);
      var w := i / LANES;
      var b := w / Pow2(shift);
      RankBlock(n, wpb, i);
      assert BlockOk(Contents(), wpb, sb, rel, b);
      r := sb[b / BLOCKS_PER_SB][v] + rel[b][v];
      var ww := b * Pow2(shift);
      while ww < w
        invariant b * wpb <= ww <= w
        invariant r == Count(Contents(), v, LANES * ww)
      {
        SwarInWord(words, n, v, ww, LANES);
        r := r + SwarCount(words[ww], Word(v), LANES);
        ww := ww + 1;
      }
      var off := i % LANES;
      if off != 0 {
        SwarInWord(words, n, v, w, off);
        r := r + SwarCount(words[w], Word(v), off);
      }
    }

    function At(i: nat): (d: nat)
      requires Valid() && i < n
      reads this
      ensures d == Contents()[i] && d < 4
    {
      DigitAt(words, i)
    }

    /** Packs one 2-bit digit of every symbol and fills hist with the digit histogram. */
    constructor Pack(syms: seq<nat>, digitShift: nat, hist: array<nat>, wordsPerBlock: nat)
      requires hist.Length == 4
      modifies hist
      ensures Valid() && Contents() == DigitsOf(syms, digitShift)
      ensures hist[..] == Counts(DigitsOf(syms, digitShift), |syms|)
    {
      n := |syms|;
      words := [];
      sb, rel := [], [];
      var p, s := NormalizeBlock(wordsPerBlock);
      wpb, shift := p, s;
      new;
      words := seq(WordCount(n), _ => 0);
      FillWords(syms, digitShift, hist);
      BuildRank();
    }

    method FillWords(syms: seq<nat>, digitShift: nat, hist: array<nat>)
      requires n == |syms| && hist.Length == 4 && words == seq(WordCount(n), _ => 0) && BlockSize(wpb, shift)
      modifies this`words, hist
      ensures Packed() && Contents() == DigitsOf(syms, digitShift)
      ensures hist[..] == Counts(DigitsOf(syms, digitShift), |syms|)
    {
      hide Digits, Pow2, Digit, FilledUpTo, OrAt, Word, DigitAt;
      ghost var digits := DigitsOf(syms, digitShift);
      hist[0], hist[1], hist[2], hist[3] := 0, 0, 0, 0;
      BlankWords(words, digits);
      var i := 0;
      while i < n
        invariant 0 <= i <= n && Packed() && FilledUpTo(words, digits, i)
        invariant hist[..] == Counts(digits, i)
      {
        var digit := Digit(syms[i], digitShift);
        PutDigit(words, digits, i);
        words := words[i / LANES := OrAt(words[i / LANES], Word(digit), Word(2 * (i % LANES)))];
        hist[digit] := hist[digit] + 1;
        i := i + 1;
      }
      FilledIsContents(words, digits);
    }
  }
}
