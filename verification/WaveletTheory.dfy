/** Why a chain of stable counting-sort scatters, one base-4 digit per level, answers rank and
    access: the counting facts behind the quad wavelet matrix. */
module WaveletTheory {
  import opened Counting
  import opened QuadVectors

  /** Bit offset of level l's digit when there are qlevels levels, most significant first. */
  function Shift(qlevels: nat, l: nat): nat
    requires l < qlevels
  {
    2 * (qlevels - 1 - l)
  }

  /** The digits of x above the lowest `low` ones. */
  function Top(x: nat, low: nat): nat {
    x / Pow2(2 * low)
  }

  lemma TopDigit(x: nat, low: nat)
    ensures Top(x, low) == 4 * Top(x, low + 1) + Digit(x, 2 * low)
  {
    assert Pow2(2 * (low + 1)) == 4 * Pow2(2 * low);
    DivDiv(x, Pow2(2 * low), 4);
  }

  lemma DivDiv(x: nat, a: nat, b: nat)
    requires a > 0 && b > 0
    ensures x / a / b == x / (b * a)
  {
    var q := x / a / b;
    FloorMultiple(x, a);
    FloorMultiple(x / a, b);
    assert x == (x / a) * a + x % a;
    assert x / a == q * b + (x / a) % b;
    assert x == q * (b * a) + ((x / a) % b * a + x % a);
    MulMonotone((x / a) % b, b - 1, a);
    assert 0 <= (x / a) % b * a + x % a < b * a;
    DivUnique(x, b * a, q, (x / a) % b * a + x % a);
  }

  lemma DivUnique(x: nat, d: nat, q: nat, r: nat)
    requires d > 0 && r < d && x == q * d + r
    ensures x / d == q
  {
    FloorMultiple(x, d);
    if x / d < q {
      MulMonotone(x / d + 1, q, d);
    } else if x / d > q {
      MulMonotone(q + 1, x / d, d);
    }
  }

  predicate IsDigits(D: seq<nat>) {
    forall i :: 0 <= i < |D| ==> D[i] < 4
  }

  /** Where position p goes when only the elements with digit d are followed. */
  function LevelMap(D: seq<nat>, d: nat, p: nat): nat
    requires p <= |D|
  {
    CountBelow(D, d, |D|) + Count(D, d, p)
  }

  /** The group starts of a level: how many elements have a smaller digit. */
  function Starts(D: seq<nat>): (r: seq<nat>)
    ensures |r| == 4
    ensures forall d: nat :: d < 4 ==> r[d] == CountBelow(D, d, |D|)
  {
    seq(4, (d: nat) requires d < 4 => CountBelow(D, d, |D|))
  }

  lemma LevelMapBounds(D: seq<nat>, d: nat, p: nat)
    requires p <= |D|
    ensures CountBelow(D, d, |D|) <= LevelMap(D, d, p) <= CountBelow(D, d + 1, |D|) <= |D|
    ensures p < |D| && D[p] == d ==> LevelMap(D, d, p) < CountBelow(D, d + 1, |D|)
  {
    CountMonotone(D, d, p, |D|);
    CountBelowStep(D, d, |D|);
  }

  /** Two different elements never go to the same place. */
  lemma LevelMapInjective(D: seq<nat>, i: nat, j: nat)
    requires i < j < |D|
    ensures LevelMap(D, D[i], i) != LevelMap(D, D[j], j)
  {
    LevelMapBounds(D, D[i], i);
    LevelMapBounds(D, D[j], j);
    if D[i] == D[j] {
      CountMonotone(D, D[i], i, j);
    } else if D[i] < D[j] {
      CountBelowMonotone(D, D[i] + 1, D[j], |D|);
    } else {
      CountBelowMonotone(D, D[j] + 1, D[i], |D|);
    }
  }

  lemma LevelMapMonotone(D: seq<nat>, d: nat, x: nat, y: nat)
    requires x <= y <= |D|
    ensures LevelMap(D, d, x) <= LevelMap(D, d, y)
  {
    CountMonotone(D, d, x, y);
  }

  /** B is A stably sorted by the digit sequence D of A. */
  ghost predicate Scattered(A: seq<nat>, D: seq<nat>, B: seq<nat>) {
    && |A| == |D| == |B|
    && forall i :: 0 <= i < |A| ==> ScatteredAt(A, D, B, i)
  }

  ghost predicate ScatteredAt(A: seq<nat>, D: seq<nat>, B: seq<nat>, i: nat)
    requires i < |A| == |D| == |B|
  {
    LevelMap(D, D[i], i) < |B| && B[LevelMap(D, D[i], i)] == A[i]
  }

  /** Every slot between two mapped positions is filled by an element from between them. */
  lemma {:induction false} SlotOrigin(D: seq<nat>, d: nat, x: nat, y: nat, q: nat) returns (i: nat)
    requires x <= y <= |D| && LevelMap(D, d, x) <= q < LevelMap(D, d, y)
    ensures x <= i < y && D[i] == d && LevelMap(D, d, i) == q
  {
    assert x < y;
    if D[y - 1] == d && q == LevelMap(D, d, y - 1) {
      i := y - 1;
    } else {
      i := SlotOrigin(D, d, x, y - 1, q);
    }
  }

  /** A level keeps the number of copies of c between any two followed positions. */
  lemma {:induction false} LevelKeepsCount(A: seq<nat>, D: seq<nat>, B: seq<nat>, c: nat, d: nat, x: nat, y: nat)
    requires Scattered(A, D, B) && x <= y <= |A|
    requires forall i :: 0 <= i < |A| && A[i] == c ==> D[i] == d
    ensures LevelMap(D, d, x) <= |B| && LevelMap(D, d, y) <= |B|
    ensures Count(B, c, LevelMap(D, d, y)) - Count(B, c, LevelMap(D, d, x)) == Count(A, c, y) - Count(A, c, x)
  {
    LevelMapBounds(D, d, x);
    LevelMapBounds(D, d, y);
    if x < y {
      LevelKeepsCount(A, D, B, c, d, x, y - 1);
      assert ScatteredAt(A, D, B, y - 1);
    }
  }

  // ----- descending through all levels -----

  ghost predicate Sound(digits: seq<seq<nat>>, n: nat) {
    forall l :: 0 <= l < |digits| ==> |digits[l]| == n && IsDigits(digits[l])
  }

  /** Position p followed along c's digits through the first l levels. */
  ghost function Descend(digits: seq<seq<nat>>, n: nat, c: nat, p: nat, l: nat): (q: nat)
    requires Sound(digits, n) && l <= |digits| && p <= n
    ensures q <= n
  {
    if l == 0 then p
    else
      var D := digits[l - 1];
      var d := Digit(c, Shift(|digits|, l - 1));
      LevelMapBounds(D, d, Descend(digits, n, c, p, l - 1));
      LevelMap(D, d, Descend(digits, n, c, p, l - 1))
  }

  /** layers[l] is the sequence that level l packs; each is the previous one stably sorted. */
  ghost predicate Layered(layers: seq<seq<nat>>, digits: seq<seq<nat>>) {
    && |layers| == |digits| + 1
    && (forall l :: 0 <= l <= |digits| ==> |layers[l]| == |layers[0]|)
    && (forall l :: 0 <= l < |digits| ==> LevelOk(layers, digits, |digits|, l))
  }

  ghost predicate LevelOk(layers: seq<seq<nat>>, digits: seq<seq<nat>>, qlevels: nat, l: nat)
    requires l < |digits| <= qlevels && |layers| > l + 1
  {
    && digits[l] == DigitsOf(layers[l], Shift(qlevels, l))
    && Scattered(layers[l], digits[l], layers[l + 1])
  }

  /** Every slot between the descents of 0 and p holds an element that agrees with c so far. */
  ghost predicate Agree(A: seq<nat>, c: nat, low: nat, a: nat, b: nat) {
    forall q :: a <= q < b && q < |A| ==> Top(A[q], low) == Top(c, low)
  }

  lemma AgreeStep(A: seq<nat>, D: seq<nat>, B: seq<nat>, c: nat, low: nat, a: nat, b: nat)
    requires D == DigitsOf(A, 2 * low) && Scattered(A, D, B)
    requires a <= b <= |A| && Agree(A, c, low + 1, a, b)
    ensures Agree(B, c, low, LevelMap(D, Digit(c, 2 * low), a), LevelMap(D, Digit(c, 2 * low), b))
  {
    hide Count, CountBelow, Top, Digit;
    var d := Digit(c, 2 * low);
    forall q | LevelMap(D, d, a) <= q < LevelMap(D, d, b) && q < |B|
      ensures Top(B[q], low) == Top(c, low)
    {
      var i := SlotOrigin(D, d, a, b, q);
      assert ScatteredAt(A, D, B, i);
      TopDigit(A[i], low);
      TopDigit(c, low);
    }
  }

  lemma {:induction false} DescendInvariant(layers: seq<seq<nat>>, digits: seq<seq<nat>>, c: nat, p: nat, l: nat)
    requires Layered(layers, digits) && Sound(digits, |layers[0]|)
    requires l <= |digits| && p <= |layers[0]| && Top(c, |digits|) == 0
    requires forall i :: 0 <= i < |layers[0]| ==> Top(layers[0][i], |digits|) == 0
    ensures var n := |layers[0]|;
            var a, b := Descend(digits, n, c, 0, l), Descend(digits, n, c, p, l);
            && a <= b
            && Count(layers[l], c, b) - Count(layers[l], c, a) == Count(layers[0], c, p)
            && Agree(layers[l], c, |digits| - l, a, b)
  {
    hide Count, CountBelow, Top, Digit, LevelMap;
    if l == 0 {
      CountZero(layers[0], c);
    } else {
      DescendInvariant(layers, digits, c, p, l - 1);
      var n := |layers[0]|;
      var a, b := Descend(digits, n, c, 0, l - 1), Descend(digits, n, c, p, l - 1);
      var low := |digits| - l;
      assert LevelOk(layers, digits, |digits|, l - 1);
      AgreeStep(layers[l - 1], digits[l - 1], layers[l], c, low, a, b);
      LevelMapMonotone(digits[l - 1], Digit(c, 2 * low), a, b);
      LevelKeepsCount(layers[l - 1], digits[l - 1], layers[l], c, Digit(c, 2 * low), a, b);
    }
  }

  lemma CountZero(s: seq<nat>, c: nat)
    ensures Count(s, c, 0) == 0
  {}

  lemma {:induction false} CountAll(s: seq<nat>, c: nat, a: nat, b: nat)
    requires a <= b <= |s| && forall q :: a <= q < b ==> s[q] == c
    ensures Count(s, c, b) - Count(s, c, a) == b - a
  {
    if a < b {
      CountAll(s, c, a, b - 1);
    }
  }

  /** Descending p and 0 along c and subtracting counts the c's before p. */
  lemma DescendCounts(layers: seq<seq<nat>>, digits: seq<seq<nat>>, c: nat, p: nat)
    requires Layered(layers, digits) && Sound(digits, |layers[0]|)
    requires p <= |layers[0]| && Top(c, |digits|) == 0
    requires forall i :: 0 <= i < |layers[0]| ==> Top(layers[0][i], |digits|) == 0
    ensures Descend(digits, |layers[0]|, c, p, |digits|)
         == Descend(digits, |layers[0]|, c, 0, |digits|) + Count(layers[0], c, p)
  {
    var L, n := |digits|, |layers[0]|;
    var a, b := Descend(digits, n, c, 0, L), Descend(digits, n, c, p, L);
    DescendInvariant(layers, digits, c, p, L);
    forall q | a <= q < b
      ensures layers[L][q] == c
    {
      assert Top(layers[L][q], 0) == Top(c, 0);
    }
    CountAll(layers[L], c, a, b);
  }

  // ----- reading one symbol -----

  /** Where element i has gone after l levels, following the digits found on the way. */
  ghost function Path(digits: seq<seq<nat>>, n: nat, i: nat, l: nat): (p: nat)
    requires Sound(digits, n) && i < n && l <= |digits|
    ensures p < n
  {
    if l == 0 then i
    else
      var D, p := digits[l - 1], Path(digits, n, i, l - 1);
      LevelMapBounds(D, D[p], p);
      LevelMap(D, D[p], p)
  }

  /** The number spelled by the digits found on the first l levels. */
  ghost function Spelled(digits: seq<seq<nat>>, n: nat, i: nat, l: nat): (x: nat)
    requires Sound(digits, n) && i < n && l <= |digits|
    ensures x < Pow2(2 * l)
  {
    if l == 0 then 0
    else
      assert Pow2(2 * l) == 4 * Pow2(2 * (l - 1));
      Spelled(digits, n, i, l - 1) * 4 + digits[l - 1][Path(digits, n, i, l - 1)]
  }

  /** Over the levels of a symbol sequence the path carries the symbol along, and spells it. */
  lemma {:induction false} SpellsSymbol(layers: seq<seq<nat>>, digits: seq<seq<nat>>, i: nat, l: nat)
    requires Layered(layers, digits) && Sound(digits, |layers[0]|) && i < |layers[0]| && l <= |digits|
    requires Top(layers[0][i], |digits|) == 0
    ensures layers[l][Path(digits, |layers[0]|, i, l)] == layers[0][i]
    ensures Spelled(digits, |layers[0]|, i, l) == Top(layers[0][i], |digits| - l)
  {
    hide Count, CountBelow, Digit, Top, LevelMap;
    if l > 0 {
      SpellsSymbol(layers, digits, i, l - 1);
      assert LevelOk(layers, digits, |digits|, l - 1);
      var p := Path(digits, |layers[0]|, i, l - 1);
      TopDigit(layers[0][i], |digits| - l);
      assert ScatteredAt(layers[l - 1], digits[l - 1], layers[l], p);
    }
  }
}
