/** Where the wavelet matrix puts each symbol's group: in the order of the symbols' reversed digits. */
module RadixOrder {
  import opened Counting
  import opened QuadVectors
  import opened SuffixArrays
  import opened WaveletTheory

  /** The first l digits of x, most significant first, read with the last of them as the leading one. */
  function Reversed(x: nat, qlevels: nat, l: nat): (r: nat)
    requires l <= qlevels
    ensures r < Pow2(2 * l)
  {
    if l == 0 then 0
    else
      KeyBound(Digit(x, Shift(qlevels, l - 1)), Reversed(x, qlevels, l - 1), l - 1);
      Digit(x, Shift(qlevels, l - 1)) * Pow2(2 * (l - 1)) + Reversed(x, qlevels, l - 1)
  }

  lemma KeyBound(digit: nat, rest: nat, l: nat)
    requires digit < 4 && rest < Pow2(2 * l)
    ensures digit * Pow2(2 * l) + rest < Pow2(2 * (l + 1)) == 4 * Pow2(2 * l)
  {}

  ghost function Keys(A: seq<nat>, qlevels: nat, l: nat): (k: seq<nat>)
    requires l <= qlevels
    ensures |k| == |A| && forall i :: 0 <= i < |A| ==> k[i] == Reversed(A[i], qlevels, l)
  {
    seq(|A|, i requires 0 <= i < |A| => Reversed(A[i], qlevels, l))
  }

  ghost predicate Nondecreasing(s: seq<nat>) {
    forall i, j :: 0 <= i < j < |s| ==> s[i] <= s[j]
  }

  /** In a nondecreasing sequence the elements below x are exactly the first ones. */
  lemma {:induction false} BelowIsPrefix(s: seq<nat>, x: nat, n: nat)
    requires Nondecreasing(s) && n <= |s|
    ensures CountBelow(s, x, n) <= n
    ensures forall i :: 0 <= i < n ==> (s[i] < x <==> i < CountBelow(s, x, n))
  {
    if n > 0 {
      BelowIsPrefix(s, x, n - 1);
      if s[n - 1] < x && n > 1 {
        assert s[n - 2] < x;
      }
    }
  }

  /** Counting two-part keys: a smaller leading digit, or the same digit and a smaller rest. */
  lemma {:induction false} TwoPartCount(D: seq<nat>, K: seq<nat>, K': seq<nat>, unit: nat, d: nat, k: nat, q: nat,
                                        n: nat)
    requires |D| == |K| == |K'| && n <= |D| && q <= |D| && k < unit
    requires forall i :: 0 <= i < |D| ==> K[i] < unit && K'[i] == D[i] * unit + K[i]
    requires forall i :: 0 <= i < |D| ==> (K[i] < k <==> i < q)
    ensures CountBelow(K', d * unit + k, n) == CountBelow(D, d, n) + Count(D, d, if n <= q then n else q)
  {
    if n > 0 {
      TwoPartCount(D, K, K', unit, d, k, q, n - 1);
      TwoPartLess(D[n - 1], K[n - 1], d, k, unit);
    }
  }

  lemma TwoPartLess(a: nat, x: nat, b: nat, y: nat, unit: nat)
    requires x < unit && y < unit
    ensures a * unit + x < b * unit + y <==> a < b || (a == b && x < y)
  {
    if a < b {
      MulMonotone(a + 1, b, unit);
    } else if b < a {
      MulMonotone(b + 1, a, unit);
    }
  }

  /** Where the scatter sends each element. */
  ghost function Targets(D: seq<nat>): (f: seq<nat>)
    ensures |f| == |D| && IsPermutation(f)
    ensures forall i :: 0 <= i < |D| ==> f[i] == LevelMap(D, D[i], i)
  {
    var f := seq(|D|, i requires 0 <= i < |D| => LevelMap(D, D[i], i));
    TargetsDistinct(D, f);
    f
  }

  lemma TargetsDistinct(D: seq<nat>, f: seq<nat>)
    requires |f| == |D| && forall i :: 0 <= i < |D| ==> f[i] == LevelMap(D, D[i], i)
    ensures IsPermutation(f)
  {
    hide LevelMap;
    forall i | 0 <= i < |D|
      ensures f[i] < |D|
    {
      LevelMapBounds(D, D[i], i);
    }
    forall i, j | 0 <= i < j < |D|
      ensures f[i] != f[j]
    {
      LevelMapInjective(D, i, j);
    }
  }

  /** Elements go to places ordered by digit, and within a digit by where they were. */
  lemma TargetOrder(D: seq<nat>, i: nat, j: nat)
    requires i < |D| && j < |D| && LevelMap(D, D[i], i) < LevelMap(D, D[j], j)
    ensures D[i] < D[j] || (D[i] == D[j] && i < j)
  {
    hide LevelMap;
    LevelMapBounds(D, D[i], i);
    LevelMapBounds(D, D[j], j);
    if D[j] < D[i] {
      CountBelowMonotone(D, D[j] + 1, D[i], |D|);
    } else if D[i] == D[j] && j <= i {
      LevelMapMonotone(D, D[i], j, i);
    }
  }

  /** A stable scatter by the next digit keeps the keys sorted. */
  lemma ScatterSorts(A: seq<nat>, D: seq<nat>, B: seq<nat>, qlevels: nat, l: nat)
    requires l < qlevels && D == DigitsOf(A, Shift(qlevels, l)) && Scattered(A, D, B)
    requires Nondecreasing(Keys(A, qlevels, l))
    ensures Nondecreasing(Keys(B, qlevels, l + 1))
  {
    hide LevelMap, Digit;
    var f, K := Targets(D), Keys(B, qlevels, l + 1);
    forall x, y | 0 <= x < y < |B|
      ensures K[x] <= K[y]
    {
      var i, j := Find(f, x), Find(f, y);
      assert ScatteredAt(A, D, B, i) && ScatteredAt(A, D, B, j);
      TargetOrder(D, i, j);
      KeyStep(A, D, qlevels, l, i);
      KeyStep(A, D, qlevels, l, j);
      var a, b := Keys(A, qlevels, l)[i], Keys(A, qlevels, l)[j];
      TwoPartLess(D[j], b, D[i], a, Pow2(2 * l));
    }
  }

  lemma KeyStep(A: seq<nat>, D: seq<nat>, qlevels: nat, l: nat, i: nat)
    requires l < qlevels && D == DigitsOf(A, Shift(qlevels, l)) && i < |A|
    ensures Reversed(A[i], qlevels, l + 1) == D[i] * Pow2(2 * l) + Keys(A, qlevels, l)[i]
  {}

  /** The descent of position 0 counts the symbols whose reversed digits so far are smaller. */
  lemma {:induction false} GroupStart(layers: seq<seq<nat>>, digits: seq<seq<nat>>, c: nat, l: nat)
    requires Layered(layers, digits) && Sound(digits, |layers[0]|) && l <= |digits|
    ensures Nondecreasing(Keys(layers[l], |digits|, l))
    ensures Descend(digits, |layers[0]|, c, 0, l)
         == CountBelow(Keys(layers[l], |digits|, l), Reversed(c, |digits|, l), |layers[0]|)
         == CountBelow(Keys(layers[0], |digits|, l), Reversed(c, |digits|, l), |layers[0]|)
  {
    hide LevelMap, Digit, Reversed, CountBelow, Count;
    if l == 0 {
      NothingBelow(layers[0], |digits|, c);
    } else {
      GroupStart(layers, digits, c, l - 1);
      assert LevelOk(layers, digits, |digits|, l - 1);
      ScatterSorts(layers[l - 1], digits[l - 1], layers[l], |digits|, l - 1);
      GroupStartStep(layers, digits, c, l);
      SameKeys(layers, digits, c, l, l);
    }
  }

  lemma NothingBelow(A: seq<nat>, qlevels: nat, c: nat)
    ensures Nondecreasing(Keys(A, qlevels, 0)) && CountBelow(Keys(A, qlevels, 0), Reversed(c, qlevels, 0), |A|) == 0
  {
    CountBelowZero(Keys(A, qlevels, 0), |A|);
  }

  lemma GroupStartStep(layers: seq<seq<nat>>, digits: seq<seq<nat>>, c: nat, l: nat)
    requires Layered(layers, digits) && Sound(digits, |layers[0]|) && 0 < l <= |digits|
    requires Nondecreasing(Keys(layers[l - 1], |digits|, l - 1))
    requires Descend(digits, |layers[0]|, c, 0, l - 1)
          == CountBelow(Keys(layers[l - 1], |digits|, l - 1), Reversed(c, |digits|, l - 1), |layers[0]|)
    ensures Descend(digits, |layers[0]|, c, 0, l)
         == CountBelow(Keys(layers[l], |digits|, l), Reversed(c, |digits|, l), |layers[0]|)
  {
    hide Digit, CountBelow, Count;
    var n, L := |layers[0]|, |digits|;
    var A, D := layers[l - 1], digits[l - 1];
    assert LevelOk(layers, digits, L, l - 1);
    var q := Descend(digits, n, c, 0, l - 1);
    var K, K' := Keys(A, L, l - 1), Keys(A, L, l);
    BelowIsPrefix(K, Reversed(c, L, l - 1), n);
    forall i | 0 <= i < |A|
      ensures K'[i] == D[i] * Pow2(2 * (l - 1)) + K[i]
    {
      KeyStep(A, D, L, l - 1, i);
    }
    TwoPartCount(D, K, K', Pow2(2 * (l - 1)), Digit(c, Shift(L, l - 1)), Reversed(c, L, l - 1), q, n);
    SameKeysStep(layers, digits, c, l, l);
  }

  /** A scatter rearranges the symbols, so it keeps every count of keys. */
  lemma SameKeysStep(layers: seq<seq<nat>>, digits: seq<seq<nat>>, c: nat, l: nat, h: nat)
    requires Layered(layers, digits) && 0 < l <= |digits| && h <= |digits|
    ensures CountBelow(Keys(layers[l - 1], |digits|, h), Reversed(c, |digits|, h), |layers[0]|)
         == CountBelow(Keys(layers[l], |digits|, h), Reversed(c, |digits|, h), |layers[0]|)
  {
    hide LevelMap, Digit, Reversed, CountBelow;
    assert LevelOk(layers, digits, |digits|, l - 1);
    var A, D, B := layers[l - 1], digits[l - 1], layers[l];
    var f, KA, KB := Targets(D), Keys(A, |digits|, h), Keys(B, |digits|, h);
    forall i | 0 <= i < |A|
      ensures KB[f[i]] == KA[i]
    {
      assert ScatteredAt(A, D, B, i);
    }
    PermutedCountBelow(KA, KB, f, Reversed(c, |digits|, h));
  }

  lemma {:induction false} SameKeys(layers: seq<seq<nat>>, digits: seq<seq<nat>>, c: nat, l: nat, h: nat)
    requires Layered(layers, digits) && l <= |digits| && h <= |digits|
    ensures CountBelow(Keys(layers[l], |digits|, h), Reversed(c, |digits|, h), |layers[0]|)
         == CountBelow(Keys(layers[0], |digits|, h), Reversed(c, |digits|, h), |layers[0]|)
  {
    hide Reversed, CountBelow;
    if l > 0 {
      SameKeys(layers, digits, c, l - 1, h);
      SameKeysStep(layers, digits, c, l, h);
    }
  }

  // ----- where the group of symbol 2 starts -----

  lemma {:induction false} NoHighDigits(qlevels: nat, l: nat)
    requires l < qlevels
    ensures Reversed(2, qlevels, l) == 0
  {
    hide Digit;
    if l > 0 {
      NoHighDigits(qlevels, l - 1);
      NoHighDigit(Shift(qlevels, l - 1));
    }
  }

  lemma NoHighDigit(k: nat)
    requires k >= 2
    ensures Digit(2, k) == 0
  {
    assert Pow2(k) == 2 * Pow2(k - 1) && Pow2(k - 1) == 2 * Pow2(k - 2);
    SmallQuotient(2, Pow2(k));
  }

  lemma SmallQuotient(a: nat, b: nat)
    requires a < b
    ensures a / b == 0
  {}

  /** The symbols grouped before symbol 2 are those whose last digit is 0 or 1, however large they are. */
  lemma GroupedBeforeTwo(x: nat, qlevels: nat)
    requires qlevels > 0
    ensures Reversed(x, qlevels, qlevels) < Reversed(2, qlevels, qlevels) <==> x % 4 < 2
  {
    NoHighDigits(qlevels, qlevels - 1);
    assert Pow2(0) == 1;
    var unit := Pow2(2 * (qlevels - 1));
    assert Digit(x, Shift(qlevels, qlevels - 1)) == x % 4 && Digit(2, Shift(qlevels, qlevels - 1)) == 2;
    TwoPartLess(x % 4, Reversed(x, qlevels, qlevels - 1), 2, 0, unit);
  }

  /** Symbols of 4 and above that are grouped before symbol 2. */
  ghost function Overtakers(A: seq<nat>, n: nat): nat
    requires n <= |A|
  {
    if n == 0 then 0 else Overtakers(A, n - 1) + if A[n - 1] >= 4 && A[n - 1] % 4 < 2 then 1 else 0
  }

  lemma {:induction false} CountBeforeTwo(A: seq<nat>, qlevels: nat, n: nat)
    requires qlevels > 0 && n <= |A|
    ensures CountBelow(Keys(A, qlevels, qlevels), Reversed(2, qlevels, qlevels), n)
         == CountBelow(A, 2, n) + Overtakers(A, n)
  {
    hide Reversed;
    if n > 0 {
      CountBeforeTwo(A, qlevels, n - 1);
      GroupedBeforeTwo(A[n - 1], qlevels);
    }
  }

  lemma {:induction false} NoOvertakers(A: seq<nat>, n: nat)
    requires n <= |A|
    ensures Overtakers(A, n) == 0 <==> forall i :: 0 <= i < n ==> !(A[i] >= 4 && A[i] % 4 < 2)
  {
    if n > 0 {
      NoOvertakers(A, n - 1);
    }
  }
}
