/** The digits and flags of packed words, found in the words' bytes: digit i of a packed level is a pair of bits of
    byte i / 4, flag i a bit of byte i / 8. */
module ByteDigits {
  import opened Corpus
  import opened Words
  import opened WordBytes

  /** Two bits of a byte, counted from the low end. */
  function Quarter(x: Byte, j: nat): (d: nat)
    requires j < 4
    ensures d < 4
  {
    x / [1, 4, 16, 64][j] % 4
  }

  /** One bit of a byte, counted from the low end. */
  function Eighth(x: Byte, j: nat): (d: nat)
    requires j < 8
    ensures d < 2
  {
    x / [1, 2, 4, 8, 16, 32, 64, 128][j] % 2
  }

  // ----- small naturals as words -----

  lemma {:induction false} WordSum(i: nat, j: nat)
    requires i + j <= 0x200
    ensures Word(i + j) == Word(i) + Word(j)
  {
    hide Word;
    if j > 0 {
      WordSum(i, j - 1);
      WordStep(i + j);
      WordStep(j);
    } else {
      WordZero();
    }
  }

  lemma WordZero()
    ensures Word(0) == 0
  {}

  lemma SmallWords()
    ensures Word(0) == 0 && Word(1) == 1 && Word(2) == 2 && Word(3) == 3 && Word(4) == 4 && Word(5) == 5
    ensures Word(6) == 6 && Word(7) == 7 && Word(8) == 8
  {
    hide Word;
    WordZero();
    WordStep(1);
    WordStep(2);
    WordStep(3);
    WordStep(4);
    WordStep(5);
    WordStep(6);
    WordStep(7);
    WordStep(8);
  }

  /** A pair of bits put below the rest. */
  function Below(q: bv64, rest: bv64): bv64 {
    q + 4 * rest
  }

  lemma FourTimes(r: bv64, r2: bv64, r4: bv64)
    requires r2 == r + r && r4 == r2 + r2
    ensures r4 == 4 * r
  {}

  lemma WordBelow(q: nat, rest: nat)
    requires q < 4 && rest <= 0x40
    ensures Word(q + 4 * rest) == Below(Word(q), Word(rest))
  {
    hide Word;
    WordSum(rest, rest);
    WordSum(2 * rest, 2 * rest);
    FourTimes(Word(rest), Word(2 * rest), Word(4 * rest));
    WordSum(q, 4 * rest);
  }

  lemma QuarterParts(x: Byte)
    ensures x == Quarter(x, 0) + 4 * (Quarter(x, 1) + 4 * (Quarter(x, 2) + 4 * Quarter(x, 3)))
  {}

  /** A byte is its quarters, one above the other. */
  lemma WordOfQuarters(x: Byte)
    ensures Word(x)
         == Below(Word(Quarter(x, 0)), Below(Word(Quarter(x, 1)), Below(Word(Quarter(x, 2)), Word(Quarter(x, 3)))))
  {
    hide Word, Below, Quarter;
    QuarterParts(x);
    WordBelow(Quarter(x, 2), Quarter(x, 3));
    WordBelow(Quarter(x, 1), Quarter(x, 2) + 4 * Quarter(x, 3));
    WordBelow(Quarter(x, 0), Quarter(x, 1) + 4 * (Quarter(x, 2) + 4 * Quarter(x, 3)));
  }

  predicate Small(q: bv64) {
    q <= 3
  }

  lemma QuarterSmall(q: nat)
    requires q < 4
    ensures Small(Word(q))
  {
    hide Word;
    SmallWords();
  }

  lemma QuarterRaw(a: bv64, b: bv64, c: bv64, d: bv64)
    requires a <= 3 && b <= 3 && c <= 3 && d <= 3
    ensures var x := Below(a, Below(b, Below(c, d)));
            LaneAt(x, 0) == a && LaneAt(x, 2) == b && LaneAt(x, 4) == c && LaneAt(x, 6) == d
  {}

  lemma QuarterLanes(a: bv64, b: bv64, c: bv64, d: bv64)
    requires Small(a) && Small(b) && Small(c) && Small(d)
    ensures var x := Below(a, Below(b, Below(c, d)));
            Lane(x, 0) == a && Lane(x, 1) == b && Lane(x, 2) == c && Lane(x, 3) == d
  {
    hide Word, LaneAt, Below;
    QuarterRaw(a, b, c, d);
    SmallWords();
  }

  lemma QuarterWord(x: Byte, j: nat)
    requires j < 4
    ensures Lane(Word(x), j) == Word(Quarter(x, j))
  {
    hide *;
    WordOfQuarters(x);
    QuarterSmall(Quarter(x, 0));
    QuarterSmall(Quarter(x, 1));
    QuarterSmall(Quarter(x, 2));
    QuarterSmall(Quarter(x, 3));
    QuarterLanes(Word(Quarter(x, 0)), Word(Quarter(x, 1)), Word(Quarter(x, 2)), Word(Quarter(x, 3)));
    assert j == 0 || j == 1 || j == 2 || j == 3;
  }

  lemma HalfRaw(x: bv64, p: bv64, q: bv64)
    requires p <= 62 && q == p + 1
    ensures BitAt(x, p) == BitAt(LaneAt(x, p), 0) && BitAt(x, q) == BitAt(LaneAt(x, p), 1)
  {}

  /** A bit is half of its quarter. */
  lemma EighthOfQuarter(x: Byte, j: nat)
    requires j < 8
    ensures Eighth(x, j) == if j % 2 == 0 then Quarter(x, j / 2) % 2 else Quarter(x, j / 2) / 2
  {
    LowTwoBits(x, x / 2);
    LowTwoBits(x / 4, x / 8);
    LowTwoBits(x / 16, x / 32);
    LowTwoBits(x / 64, x / 128);
  }

  lemma LowTwoBits(y: nat, half: nat)
    requires half == y / 2
    ensures y % 4 % 2 == y % 2 && y % 4 / 2 == half % 2
  {}

  lemma HalvesRaw()
    ensures BitAt(0, 0) == 0 && BitAt(1, 0) == 1 && BitAt(2, 0) == 0 && BitAt(3, 0) == 1
    ensures BitAt(0, 1) == 0 && BitAt(1, 1) == 0 && BitAt(2, 1) == 1 && BitAt(3, 1) == 1
  {}

  lemma QuarterHalves(q: nat)
    requires q < 4
    ensures BitAt(Word(q), 0) == Word(q % 2) && BitAt(Word(q), 1) == Word(q / 2)
  {
    hide Word, BitAt;
    SmallWords();
    HalvesRaw();
    if q == 0 {
    } else if q == 1 {
    } else if q == 2 {
    } else {
    }
  }

  lemma EvenShift(h: nat)
    requires h < 4
    ensures Word(2 * h) <= 62 && Word(2 * h + 1) == Word(2 * h) + 1
  {
    hide Word;
    SmallWords();
    WordSum(2 * h, 1);
  }

  lemma HalfBits(x: bv64, h: nat)
    requires h < 4
    ensures BitAt(x, Word(2 * h)) == BitAt(LaneAt(x, Word(2 * h)), 0)
    ensures BitAt(x, Word(2 * h + 1)) == BitAt(LaneAt(x, Word(2 * h)), 1)
  {
    hide Word, BitAt, LaneAt;
    EvenShift(h);
    HalfRaw(x, Word(2 * h), Word(2 * h + 1));
  }

  lemma EighthWord(x: Byte, j: nat)
    requires j < 8
    ensures BitAt(Word(x), Word(j)) == Word(Eighth(x, j))
  {
    hide Word, Quarter, Eighth, BitAt, LaneAt;
    var h := j / 2;
    HalfBits(Word(x), h);
    EighthOfQuarter(x, j);
    QuarterWord(x, h);
    QuarterHalves(Quarter(x, h));
    assert j == 2 * h || j == 2 * h + 1;
  }

  // ----- inside a word -----

  /** Byte k of a word. */
  function ByteAt(w: bv64, k: nat): bv64
    requires k < 8
  {
    ByteFrom(w, Word(8 * k))
  }

  function ByteFrom(w: bv64, p: bv64): bv64 {
    Shr(w, p) & 0xFF
  }

  lemma EightWords()
    ensures Word(0) == 0 && Word(8) == 8 && Word(16) == 16 && Word(24) == 24
    ensures Word(32) == 32 && Word(40) == 40 && Word(48) == 48 && Word(56) == 56
  {
    hide Word;
    SmallWords();
    WordSum(8, 8);
    WordSum(16, 8);
    WordSum(24, 8);
    WordSum(32, 8);
    WordSum(40, 8);
    WordSum(48, 8);
  }

  lemma EightShifts(w: bv64)
    ensures Shr(w, 0) == w && Shr(w, 8) == w >> 8 && Shr(w, 16) == w >> 16 && Shr(w, 24) == w >> 24
    ensures Shr(w, 32) == w >> 32 && Shr(w, 40) == w >> 40 && Shr(w, 48) == w >> 48 && Shr(w, 56) == w >> 56
  {}

  lemma ByteOfBytes(w: bv64, k: nat)
    requires k < 8
    ensures ByteAt(w, k) == Word(BytesOf(w)[k])
  {
    hide Word, LowByte, Shr;
    EightWords();
    EightShifts(w);
    assert k == 0 || k == 1 || k == 2 || k == 3 || k == 4 || k == 5 || k == 6 || k == 7;
  }

  /** The bytes of a word read from memory are the bytes in memory. */
  lemma WordBytesAre(s: seq<Byte>, k: nat)
    requires |s| == 8 && k < 8
    ensures ByteAt(WordOf(s), k) == Word(s[k])
  {
    hide Word, ByteAt, WordOf, BytesOf;
    BytesBack(s);
    ByteOfBytes(WordOf(s), k);
  }

  lemma ShiftTwiceRaw(w: bv64, p: bv64, q: bv64)
    requires p <= 56 && q <= 7
    ensures q <= 6 ==> Shr(Shr(w, p) & 0xFF, q) & 3 == Shr(w, p + q) & 3
    ensures Shr(Shr(w, p) & 0xFF, q) & 1 == Shr(w, p + q) & 1
  {}

  lemma LaneTwice(w: bv64, p: bv64, q: bv64)
    requires p <= 56 && q <= 6
    ensures LaneAt(ByteFrom(w, p), q) == LaneAt(w, p + q)
  {
    hide Shr;
    ShiftTwiceRaw(w, p, q);
  }

  lemma BitTwice(w: bv64, p: bv64, q: bv64)
    requires p <= 56 && q <= 7
    ensures BitAt(ByteFrom(w, p), q) == BitAt(w, p + q)
  {
    hide Shr;
    ShiftTwiceRaw(w, p, q);
  }

  lemma ShiftsInside(k: nat, j: nat)
    requires k < 8 && j < 8
    ensures Word(8 * k) <= 56 && Word(j) <= 7 && Word(8 * k + j) == Word(8 * k) + Word(j)
    ensures j <= 6 ==> Word(j) <= 6
  {
    hide Word;
    EightWords();
    SmallWords();
    WordSum(8 * k, j);
  }

  lemma ByteShifts(w: bv64, k: nat, j: nat)
    requires k < 8 && j < 8
    ensures j <= 6 ==> LaneAt(w, Word(8 * k + j)) == LaneAt(ByteAt(w, k), Word(j))
    ensures BitAt(w, Word(8 * k + j)) == BitAt(ByteAt(w, k), Word(j))
  {
    hide Word, LaneAt, BitAt, ByteFrom;
    ShiftsInside(k, j);
    BitTwice(w, Word(8 * k), Word(j));
    if j <= 6 {
      LaneTwice(w, Word(8 * k), Word(j));
    }
  }

  /** Lane t of a word is a quarter of its byte t / 4. */
  lemma LaneInByte(s: seq<Byte>, t: nat)
    requires |s| == 8 && t < 32
    ensures Lane(WordOf(s), t) == Word(Quarter(s[t / 4], t % 4))
  {
    hide Word, WordOf, LaneAt, Quarter, ByteAt;
    var k, j := t / 4, t % 4;
    assert 2 * t == 8 * k + 2 * j;
    ByteShifts(WordOf(s), k, 2 * j);
    WordBytesAre(s, k);
    QuarterWord(s[k], j);
  }

  /** Bit t of a word is a bit of its byte t / 8. */
  lemma BitInByte(s: seq<Byte>, t: nat)
    requires |s| == 8 && t < 64
    ensures Bit(WordOf(s), t) <==> Eighth(s[t / 8], t % 8) == 1
  {
    hide Word, WordOf, BitAt, Eighth, ByteAt;
    var k, j := t / 8, t % 8;
    ByteShifts(WordOf(s), k, j);
    WordBytesAre(s, k);
    EighthWord(s[k], j);
    OneOrZero(Eighth(s[k], j));
  }

  lemma OneOrZero(e: nat)
    requires e < 2
    ensures Word(e) == 1 <==> e == 1
  {
    hide Word;
    SmallWords();
  }
}
