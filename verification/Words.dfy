/** Bit-level facts about 64-bit words: set bits, 2-bit lanes, the SWAR lane counter and
    the 9-bit sub-block counters of a rank9 directory entry. */
module Words {

  /** The machine word holding the small natural i, such as a shift amount or a digit. */
  function Word(i: nat): (r: bv64)
    requires i <= 0x200
    ensures r <= 0x200
  {
    if i == 0 then 0 else if Word(i - 1) < 0x200 then Word(i - 1) + 1 else 0
  }

  /** Machine shifts; the program never shifts by 64 or more. */
  function Shr(w: bv64, s: bv64): bv64 {
    if s < 64 then w >> s else 0
  }

  function Shl(w: bv64, s: bv64): bv64 {
    if s < 64 then w << s else 0
  }

  function BitAt(w: bv64, s: bv64): bv64 {
    Shr(w, s) & 1
  }

  function LaneAt(w: bv64, s: bv64): bv64 {
    Shr(w, s) & 3
  }

  /** w without the bits at and above s. */
  function LowPart(w: bv64, s: bv64): bv64 {
    w & (Shl(1, s) - 1)
  }

  /** w with d put over the bits starting at s. */
  function OrAt(w: bv64, d: bv64, s: bv64): bv64 {
    w | Shl(d, s)
  }

  /** Bit i of w. */
  predicate Bit(w: bv64, i: nat)
    requires i < 64
  {
    BitAt(w, Word(i)) == 1
  }

  /** Number of set bits among the low k bits. */
  function BitCount(w: bv64, k: nat): nat
    requires k <= 64
  {
    if k == 0 then 0 else BitCount(w, k - 1) + (if Bit(w, k - 1) then 1 else 0)
  }

  /** The machine population count. */
  function PopCount(w: bv64): nat {
    BitCount(w, 64)
  }

  /** The 2-bit lane i of w. */
  function Lane(w: bv64, i: nat): bv64
    requires i < 32
  {
    LaneAt(w, Word(2 * i))
  }

  /** Number of lanes equal to v among the low k lanes: the naive count. */
  function LaneCount(w: bv64, v: bv64, k: nat): nat
    requires k <= 32
  {
    if k == 0 then 0 else LaneCount(w, v, k - 1) + (if Lane(w, k - 1) == v then 1 else 0)
  }

  const EVEN_BITS: bv64 := 0x5555555555555555

  function EqualLanes(w: bv64, v: bv64): bv64 {
    var t := w ^ (v * EVEN_BITS);
    !t & !(t >> 1) & EVEN_BITS
  }

  /** Lanes equal to v among the low k lanes, counted within the register. */
  function SwarCount(w: bv64, v: bv64, k: nat): nat
    requires k <= 32
  {
    var eq := EqualLanes(w, v);
    PopCount(if k < 32 then LowPart(eq, Word(2 * k)) else eq)
  }

  // ----- small naturals as machine words -----

  lemma Increment(a: bv64)
    requires a < 0x1000
    ensures (a + 1) as nat == a as nat + 1
  {}

  lemma RoundTrip(w: bv64)
    ensures (w as nat) as bv64 == w
  {}

  lemma SameNat(a: bv64, b: bv64)
    requires a as nat == b as nat
    ensures a == b
  {
    RoundTrip(a);
    RoundTrip(b);
  }

  lemma Below512(w: bv64)
    requires w as nat < 0x200
    ensures w < 0x200
  {}

  lemma {:induction false} WordIsNat(i: nat)
    requires i <= 0x200
    ensures Word(i) as nat == i
  {
    if i > 0 {
      WordIsNat(i - 1);
      Below512(Word(i - 1));
      Increment(Word(i - 1));
    }
  }

  lemma WordStep(i: nat)
    requires 0 < i <= 0x200
    ensures Word(i - 1) < 0x200 && Word(i) == Word(i - 1) + 1
  {
    WordIsNat(i - 1);
    Below512(Word(i - 1));
  }

  lemma {:induction false} WordMonotone(i: nat, j: nat)
    requires i < j <= 0x200
    ensures Word(i) < Word(j)
  {
    WordStep(j);
    if i < j - 1 {
      WordMonotone(i, j - 1);
    }
  }

  lemma WordInjective(i: nat, j: nat)
    requires i <= 0x200 && j <= 0x200
    ensures Word(i) == Word(j) <==> i == j
    ensures Word(i) < Word(j) <==> i < j
  {
    if i < j {
      WordMonotone(i, j);
    } else if j < i {
      WordMonotone(j, i);
    }
  }

  lemma {:induction false} WordTwice(i: nat)
    requires i <= 32
    ensures Word(2 * i) == 2 * Word(i)
  {
    if i > 0 {
      WordTwice(i - 1);
      WordStep(i);
      WordStep(2 * i);
      WordStep(2 * i - 1);
    }
  }

  lemma Word32()
    ensures Word(32) == 32 && Word(64) == 64
  {
    WordTwice(1);
    WordTwice(2);
    WordTwice(4);
    WordTwice(8);
    WordTwice(16);
    WordTwice(32);
    WordStep(1);
  }

  lemma LaneIndex(i: nat)
    requires i < 32
    ensures Word(2 * i) < 64 && Word(2 * i) & 1 == 0 && Word(2 * i + 1) == Word(2 * i) + 1
  {
    Word32();
    WordMonotone(2 * i, 64);
    WordTwice(i);
    EvenWord(Word(i));
    WordStep(2 * i + 1);
  }

  lemma EvenWord(x: bv64)
    ensures (2 * x) & 1 == 0
  {}

  lemma BitIndex(i: nat)
    requires i < 64
    ensures Word(i) < 64
  {
    Word32();
    WordMonotone(i, 64);
  }

  // ----- facts at symbolic positions, each a finite bit-vector statement -----

  lemma MaskedBitRaw(w: bv64, k: bv64, i: bv64)
    requires k < 64 && i < 64
    ensures Shr(w & (Shl(1, k) - 1), i) & 1 == if i < k then Shr(w, i) & 1 else 0
  {}

  lemma MaskedBitUnmasked(w: bv64, k: bv64, i: bv64)
    requires k < 64 && i < 64
    ensures BitAt(w & (Shl(1, k) - 1), i) == if i < k then BitAt(w, i) else 0
  {
    MaskedBitRaw(w, k, i);
  }

  lemma MaskedBitAt(w: bv64, k: bv64, i: bv64)
    requires k < 64 && i < 64
    ensures BitAt(LowPart(w, k), i) == if i < k then BitAt(w, i) else 0
  {
    MaskedBitUnmasked(w, k, i);
  }

  lemma EqualLaneAt(w: bv64, v: bv64, p: bv64)
    requires v <= 3 && p < 64 && p & 1 == 0
    ensures BitAt(EqualLanes(w, v), p) == if LaneAt(w, p) == v then 1 else 0
    ensures BitAt(EqualLanes(w, v), p + 1) == 0
  {}

  lemma SetBitRaw(w: bv64, i: bv64, j: bv64)
    requires i < 64 && j < 64
    ensures Shr(w | Shl(1, i), j) & 1 == if i == j then 1 else Shr(w, j) & 1
  {}

  lemma SetBitUnpacked(w: bv64, i: bv64, j: bv64)
    requires i < 64 && j < 64
    ensures BitAt(w | Shl(1, i), j) == if i == j then 1 else BitAt(w, j)
  {
    SetBitRaw(w, i, j);
  }

  lemma SetBitAt(w: bv64, i: bv64, j: bv64)
    requires i < 64 && j < 64
    ensures BitAt(OrAt(w, 1, i), j) == if i == j then 1 else BitAt(w, j)
  {
    SetBitUnpacked(w, i, j);
  }

  lemma SetLaneRaw(w: bv64, d: bv64, p: bv64, q: bv64)
    requires p < 64 && q < 64 && p & 1 == 0 && q & 1 == 0 && d <= 3
    requires Shr(w, p) & 3 == 0
    ensures Shr(w | Shl(d, p), q) & 3 == if p == q then d else Shr(w, q) & 3
  {}

  lemma SetLaneUnpacked(w: bv64, d: bv64, p: bv64, q: bv64)
    requires p < 64 && q < 64 && p & 1 == 0 && q & 1 == 0 && d <= 3 && LaneAt(w, p) == 0
    ensures LaneAt(w | Shl(d, p), q) == if p == q then d else LaneAt(w, q)
  {
    SetLaneRaw(w, d, p, q);
  }

  lemma SetLaneAt(w: bv64, d: bv64, p: bv64, q: bv64)
    requires p < 64 && q < 64 && p & 1 == 0 && q & 1 == 0 && d <= 3 && LaneAt(w, p) == 0
    ensures LaneAt(OrAt(w, d, p), q) == if p == q then d else LaneAt(w, q)
  {
    SetLaneUnpacked(w, d, p, q);
  }

  lemma ShiftZero(s: bv64)
    ensures Shr(0, s) == 0
  {}

  // ----- the same facts at natural positions -----

  lemma MaskedBit(w: bv64, k: nat, i: nat)
    requires k < 64 && i < 64
    ensures Bit(LowPart(w, Word(k)), i) <==> i < k && Bit(w, i)
  {
    BitIndex(k);
    BitIndex(i);
    MaskedBitAt(w, Word(k), Word(i));
    WordInjective(i, k);
  }

  /** Masking before counting counts the low bits: what a rank does with its last word. */
  lemma {:induction false} MaskedPopCount(w: bv64, k: nat, n: nat)
    requires k < 64 && n <= 64
    ensures BitCount(LowPart(w, Word(k)), n) == BitCount(w, if n < k then n else k)
  {
    if n > 0 {
      MaskedPopCount(w, k, n - 1);
      MaskedBit(w, k, n - 1);
    }
  }

  lemma EqualLaneBit(w: bv64, v: bv64, j: nat)
    requires v <= 3 && j < 32
    ensures Bit(EqualLanes(w, v), 2 * j) <==> Lane(w, j) == v
    ensures !Bit(EqualLanes(w, v), 2 * j + 1)
  {
    LaneIndex(j);
    EqualLaneAt(w, v, Word(2 * j));
  }

  lemma {:induction false} EqualLanesBitCount(w: bv64, v: bv64, k: nat)
    requires v <= 3 && k <= 32
    ensures BitCount(EqualLanes(w, v), 2 * k) == LaneCount(w, v, k)
  {
    if k > 0 {
      EqualLanesBitCount(w, v, k - 1);
      EqualLaneBit(w, v, k - 1);
    }
  }

  /** The SWAR formula counts exactly the low k lanes equal to v, whatever the other lanes hold. */
  lemma SwarCountsLanes(w: bv64, v: bv64, k: nat)
    requires v <= 3 && k <= 32
    ensures SwarCount(w, v, k) == LaneCount(w, v, k)
  {
    hide BitCount, LaneCount, EqualLanes, LowPart, Word;
    EqualLanesBitCount(w, v, k);
    if k < 32 {
      MaskedPopCount(EqualLanes(w, v), 2 * k, 64);
    }
  }

  lemma SetBit(w: bv64, i: nat, j: nat)
    requires i < 64 && j < 64
    ensures Bit(OrAt(w, 1, Word(i)), j) <==> i == j || Bit(w, j)
  {
    BitIndex(i);
    BitIndex(j);
    SetBitAt(w, Word(i), Word(j));
    WordInjective(i, j);
  }

  lemma SetLane(w: bv64, d: bv64, i: nat, j: nat)
    requires i < 32 && j < 32 && d <= 3 && Lane(w, i) == 0
    ensures Lane(OrAt(w, d, Word(2 * i)), j) == if i == j then d else Lane(w, j)
  {
    LaneIndex(i);
    LaneIndex(j);
    SetLaneAt(w, d, Word(2 * i), Word(2 * j));
    WordInjective(2 * i, 2 * j);
  }

  lemma ZeroWord(i: nat)
    requires i < 64
    ensures !Bit(0, i)
    ensures i < 32 ==> Lane(0, i) == 0
  {
    ShiftZero(Word(i));
    if i < 32 {
      ShiftZero(Word(2 * i));
    }
  }

  /** A lane read back as a natural is a digit, and equals d exactly when the lane holds d's word. */
  lemma LaneDigit(w: bv64, i: nat, d: nat)
    requires i < 32 && d < 4
    ensures Lane(w, i) as nat < 4 && Word(d) <= 3
    ensures Lane(w, i) as nat == d <==> Lane(w, i) == Word(d)
  {
    WordIsNat(d);
    WordStep(1);
    WordStep(2);
    WordStep(3);
    if Lane(w, i) as nat == d {
      SameNat(Lane(w, i), Word(d));
    }
  }

  // ----- the packed 9-bit counters of a rank9 block -----

  /** The j-th 9-bit field of a packed word, 1 <= j <= 7. */
  function Field(w: bv64, j: nat): nat
    requires 1 <= j <= 7
  {
    FieldAt(w, Word(9 * (j - 1))) as nat
  }

  /** w with the low nine bits of r put over field j. */
  function PutField(w: bv64, r: nat, j: nat): bv64
    requires r <= 0x200 && 1 <= j <= 7
  {
    OrAt(w, Word(r) & 0x1FF, Word(9 * (j - 1)))
  }

  function FieldAt(w: bv64, p: bv64): bv64 {
    Shr(w, p) & 0x1FF
  }

  /** No bit of w is set at or above bit b. */
  predicate ClearFrom(w: bv64, b: nat)
    requires b < 64
  {
    Shr(w, Word(b)) == 0
  }

  lemma PackSameRaw(w: bv64, r: bv64, p: bv64)
    requires p <= 54 && r <= 0x1FF && Shr(w, p) == 0
    ensures Shr(w | Shl(r, p), p) & 0x1FF == r
  {}

  lemma PackAboveRaw(w: bv64, r: bv64, p: bv64, q: bv64)
    requires p + 9 <= q <= 54 && p <= 54 && r <= 0x1FF && Shr(w, p) == 0
    ensures Shr(w | Shl(r, p), q) & 0x1FF == Shr(w, q) & 0x1FF
  {}

  lemma PackBelowRaw(w: bv64, r: bv64, p: bv64, q: bv64)
    requires FieldPosition(q) && q + 9 <= p <= 54 && r <= 0x1FF
    ensures Shr(w | Shl(r, p), q) & 0x1FF == Shr(w, q) & 0x1FF
  {
    if q == 0 {
    } else if q == 9 {
    } else if q == 18 {
    } else if q == 27 {
    } else if q == 36 {
    } else if q == 45 {
    }
  }

  predicate FieldPosition(p: bv64) {
    p == 0 || p == 9 || p == 18 || p == 27 || p == 36 || p == 45 || p == 54
  }

  lemma PackSame(w: bv64, r: bv64, p: bv64)
    requires FieldPosition(p) && r <= 0x1FF && Shr(w, p) == 0
    ensures FieldAt(w | Shl(r, p), p) == r
  {
    PackSameRaw(w, r, p);
  }

  lemma PackOther(w: bv64, r: bv64, p: bv64, q: bv64)
    requires FieldPosition(p) && FieldPosition(q) && p != q && r <= 0x1FF && Shr(w, p) == 0
    ensures FieldAt(w | Shl(r, p), q) == FieldAt(w, q)
  {
    if p < q {
      PackAboveRaw(w, r, p, q);
    } else {
      PackBelowRaw(w, r, p, q);
    }
  }

  lemma PackFieldAt(w: bv64, r: bv64, p: bv64, q: bv64)
    requires FieldPosition(p) && FieldPosition(q) && r <= 0x1FF && Shr(w, p) == 0
    ensures FieldAt(OrAt(w, r, p), q) == if p == q then r else FieldAt(w, q)
  {
    if p == q {
      PackSame(w, r, p);
    } else {
      PackOther(w, r, p, q);
    }
  }

  lemma PackClearRaw(w: bv64, r: bv64, p: bv64)
    requires p <= 54 && r <= 0x1FF && Shr(w, p) == 0
    ensures Shr(OrAt(w, r, p), p + 9) == 0
  {}

  lemma WordPlus9(i: nat)
    requires i + 9 <= 0x200
    ensures Word(i + 9) == Word(i) + 9
  {
    WordStep(i + 1);
    WordStep(i + 2);
    WordStep(i + 3);
    WordStep(i + 4);
    WordStep(i + 5);
    WordStep(i + 6);
    WordStep(i + 7);
    WordStep(i + 8);
    WordStep(i + 9);
  }

  lemma {:induction false} FieldIndex(j: nat)
    requires 1 <= j <= 7
    ensures FieldPosition(Word(9 * (j - 1)))
    ensures Word(9 * j) == Word(9 * (j - 1)) + 9
  {
    WordPlus9(9 * (j - 1));
    if j > 1 {
      FieldIndex(j - 1);
      Field54(j);
    }
  }

  lemma Field54(j: nat)
    requires 2 <= j <= 7
    ensures Word(9 * (j - 1)) <= 54
  {
    WordPlus9(0);
    WordPlus9(9);
    WordPlus9(18);
    WordTwice(27);
    if j < 7 {
      WordMonotone(9 * (j - 1), 54);
    }
  }

  lemma SmallWord(r: nat)
    requires r < 512
    ensures Word(r) & 0x1FF == Word(r) <= 0x1FF
  {
    WordStep(r + 1);
    SmallMask(Word(r));
  }

  lemma SmallMask(x: bv64)
    requires x < 0x200
    ensures x & 0x1FF == x <= 0x1FF
  {}

  lemma PackFieldWord(w: bv64, r: nat, j: nat, k: nat)
    requires 1 <= j <= 7 && 1 <= k <= 7 && r < 512 && ClearFrom(w, 9 * (j - 1))
    ensures FieldAt(PutField(w, r, j), Word(9 * (k - 1)))
            == if j == k then Word(r) else FieldAt(w, Word(9 * (k - 1)))
  {
    SmallWord(r);
    FieldIndex(j);
    FieldIndex(k);
    PackFieldAt(w, Word(r), Word(9 * (j - 1)), Word(9 * (k - 1)));
    WordInjective(9 * (j - 1), 9 * (k - 1));
  }

  /** Packing r into field j sets exactly that field, as long as j and everything above is still clear. */
  lemma PackField(w: bv64, r: nat, j: nat, k: nat)
    requires 1 <= j <= 7 && 1 <= k <= 7 && r < 512 && ClearFrom(w, 9 * (j - 1))
    ensures Field(PutField(w, r, j), k) == if j == k then r else Field(w, k)
  {
    PackFieldWord(w, r, j, k);
    WordIsNat(r);
  }

  lemma PackClear(w: bv64, r: nat, j: nat)
    requires 1 <= j <= 7 && r < 512 && ClearFrom(w, 9 * (j - 1))
    ensures ClearFrom(PutField(w, r, j), 9 * j)
  {
    SmallWord(r);
    FieldIndex(j);
    PackClearRaw(w, Word(r), Word(9 * (j - 1)));
  }
}
