/** Suffix arrays, the Burrows-Wheeler transform, LF-mapping and backward search, over any text
    that ends in a unique smallest sentinel. */
module SuffixArrays {
  import opened Counting

  /** A dense-symbol text: one 0 at the end, nothing else is 0. */
  ghost predicate IsText(t: seq<nat>) {
    && |t| > 0 && t[|t| - 1] == 0
    && forall k :: 0 <= k < |t| - 1 ==> t[k] >= 1
  }

  /** The suffix at i is lexicographically smaller than the suffix at j. */
  predicate SuffixLess(t: seq<nat>, i: nat, j: nat)
    requires i <= |t| && j <= |t|
    decreases |t| - i
  {
    && j < |t|
    && (i == |t| || t[i] < t[j] || (t[i] == t[j] && SuffixLess(t, i + 1, j + 1)))
  }

  lemma {:induction false} SuffixAsymmetric(t: seq<nat>, i: nat, j: nat)
    requires i <= |t| && j <= |t| && SuffixLess(t, i, j)
    ensures i != j && !SuffixLess(t, j, i)
    decreases |t| - i
  {
    if i < |t| && t[i] == t[j] {
      SuffixAsymmetric(t, i + 1, j + 1);
    }
  }

  lemma {:induction false} SuffixTransitive(t: seq<nat>, i: nat, j: nat, k: nat)
    requires i <= |t| && j <= |t| && k <= |t| && SuffixLess(t, i, j) && SuffixLess(t, j, k)
    ensures SuffixLess(t, i, k)
    decreases |t| - i
  {
    if i < |t| && t[i] == t[j] == t[k] {
      SuffixTransitive(t, i + 1, j + 1, k + 1);
    }
  }

  lemma {:induction false} SuffixTotal(t: seq<nat>, i: nat, j: nat)
    requires i <= |t| && j <= |t| && i != j
    ensures SuffixLess(t, i, j) || SuffixLess(t, j, i)
    decreases |t| - i
  {
    if i < |t| && j < |t| && t[i] == t[j] {
      SuffixTotal(t, i + 1, j + 1);
    }
  }

  // ----- the suffix array contract -----

  /** sa lists the suffixes of t in strictly increasing order, all of them. */
  ghost predicate IsSuffixArray(t: seq<nat>, sa: seq<nat>) {
    && |sa| == |t|
    && (forall r :: 0 <= r < |sa| ==> sa[r] < |t|)
    && forall r, s :: 0 <= r < s < |sa| ==> SuffixLess(t, sa[r], sa[s])
  }

  lemma SuffixArrayIsPermutation(t: seq<nat>, sa: seq<nat>)
    requires IsSuffixArray(t, sa)
    ensures IsPermutation(sa)
  {
    forall r, s | 0 <= r < s < |sa|
      ensures sa[r] != sa[s]
    {
      SuffixAsymmetric(t, sa[r], sa[s]);
    }
  }

  lemma RowOrder(t: seq<nat>, sa: seq<nat>, r: nat, s: nat)
    requires IsSuffixArray(t, sa) && r < |sa| && s < |sa|
    ensures r < s <==> SuffixLess(t, sa[r], sa[s])
  {
    if s <= r && SuffixLess(t, sa[r], sa[s]) {
      SuffixAsymmetric(t, sa[r], sa[s]);
    }
  }

  /** The contract has exactly one solution, so any correct sorter gives the same index. */
  lemma SuffixArrayUnique(t: seq<nat>, sa: seq<nat>, sb: seq<nat>)
    requires IsSuffixArray(t, sa) && IsSuffixArray(t, sb)
    ensures sa == sb
  {
    forall r | 0 <= r < |sa|
      ensures sa[r] == sb[r]
    {
      SameBefore(t, sa, sb, r);
    }
  }

  lemma {:induction false} SameBefore(t: seq<nat>, sa: seq<nat>, sb: seq<nat>, r: nat)
    requires IsSuffixArray(t, sa) && IsSuffixArray(t, sb) && r < |sa|
    ensures forall k :: 0 <= k <= r ==> sa[k] == sb[k]
  {
    if r > 0 {
      SameBefore(t, sa, sb, r - 1);
    }
    SuffixArrayIsPermutation(t, sa);
    SuffixArrayIsPermutation(t, sb);
    var i, j := Find(sb, sa[r]), Find(sa, sb[r]);
    assert i >= r && j >= r;
    RowOrder(t, sb, r, i);
    RowOrder(t, sa, r, j);
    if sa[r] != sb[r] {
      SuffixAsymmetric(t, sa[r], sb[r]);
    }
  }

  // ----- the transform -----

  /** The text position cyclically before p. */
  function Before(p: nat, m: nat): nat
    requires p < m
  {
    if p == 0 then m - 1 else p - 1
  }

  function After(p: nat, m: nat): nat
    requires p < m
  {
    if p == m - 1 then 0 else p + 1
  }

  function BwtSymbol(t: seq<nat>, p: nat): nat
    requires p <= |t|
  {
    if p == 0 then 0 else t[p - 1]
  }

  /** The symbol before each sorted suffix; 0 before the whole text. */
  function Bwt(t: seq<nat>, sa: seq<nat>): (b: seq<nat>)
    requires forall r :: 0 <= r < |sa| ==> sa[r] < |t|
    ensures |b| == |sa|
    ensures forall r :: 0 <= r < |b| ==> b[r] == BwtSymbol(t, sa[r])
  {
    seq(|sa|, r requires 0 <= r < |sa| => BwtSymbol(t, sa[r]))
  }

  /** The first symbol of each sorted suffix. */
  ghost function Firsts(t: seq<nat>, sa: seq<nat>): (f: seq<nat>)
    requires forall r :: 0 <= r < |sa| ==> sa[r] < |t|
    ensures |f| == |sa|
    ensures forall r :: 0 <= r < |f| ==> f[r] == t[sa[r]]
  {
    seq(|sa|, r requires 0 <= r < |sa| => t[sa[r]])
  }

  lemma NextDistinct(sa: seq<nat>, x: seq<nat>)
    requires IsPermutation(sa) && |x| == |sa|
    requires forall r {:trigger x[r]} :: 0 <= r < |sa| ==> x[r] < |sa| && sa[x[r]] == After(sa[r], |sa|)
    ensures IsPermutation(x)
  {}

  /** The row whose suffix starts one position later, for every row. */
  ghost function NextRows(t: seq<nat>, sa: seq<nat>): (x: seq<nat>)
    requires IsSuffixArray(t, sa)
    ensures |x| == |sa| && IsPermutation(x)
    ensures forall r {:trigger x[r]} :: 0 <= r < |sa| ==> sa[x[r]] == After(sa[r], |sa|)
  {
    SuffixArrayIsPermutation(t, sa);
    var inv := Inverse(sa);
    var x := seq(|sa|, r requires 0 <= r < |sa| => inv[After(sa[r], |sa|)]);
    NextDistinct(sa, x);
    x
  }

  /** LF-mapping as the index computes it, from the transform alone. */
  function LfRow(b: seq<nat>, i: nat): nat
    requires i < |b|
  {
    CountBelow(b, b[i], |b|) + Count(b, b[i], i)
  }

  lemma {:induction false} PermutedCountBelow(A: seq<nat>, B: seq<nat>, f: seq<nat>, x: nat)
    requires |A| == |B| == |f| && IsPermutation(f)
    requires forall i :: 0 <= i < |A| ==> B[f[i]] == A[i]
    ensures CountBelow(A, x, |A|) == CountBelow(B, x, |B|)
  {
    hide CountBelow;
    var g := Inverse(f);
    CountBelowIsCard(A, x, |A|);
    CountBelowIsCard(B, x, |B|);
    InjectionCard(f, IndicesBelow(A, x, |A|), IndicesBelow(B, x, |B|));
    InjectionCard(g, IndicesBelow(B, x, |B|), IndicesBelow(A, x, |A|));
  }

  lemma {:induction false} PermutedCount(A: seq<nat>, B: seq<nat>, f: seq<nat>, x: nat)
    requires |A| == |B| == |f| && IsPermutation(f)
    requires forall i :: 0 <= i < |A| ==> B[f[i]] == A[i]
    ensures Count(A, x, |A|) == Count(B, x, |B|)
  {
    PermutedCountBelow(A, B, f, x);
    PermutedCountBelow(A, B, f, x + 1);
    CountBelowStep(A, x, |A|);
    CountBelowStep(B, x, |B|);
  }

  /** In a sorted sequence an element's index is what is smaller plus what is equal before it. */
  lemma {:induction false} SortedIndex(f: seq<nat>, j: nat, n: nat)
    requires j < n <= |f| && forall a, b :: 0 <= a < b < |f| ==> f[a] <= f[b]
    ensures CountBelow(f, f[j], n) + Count(f, f[j], j) == j
    decreases n
  {
    if n - 1 > j {
      SortedIndex(f, j, n - 1);
    } else {
      SortedPrefix(f, f[j], j);
    }
  }

  lemma {:induction false} SortedPrefix(f: seq<nat>, c: nat, n: nat)
    requires n <= |f| && forall a :: 0 <= a < n ==> f[a] <= c
    ensures CountBelow(f, c, n) + Count(f, c, n) == n
  {
    if n > 0 {
      SortedPrefix(f, c, n - 1);
    }
  }

  /** Rows with the same first symbol keep their order when that symbol is dropped. */
  lemma NextRowOrder(t: seq<nat>, sa: seq<nat>, r: nat, s: nat)
    requires IsText(t) && IsSuffixArray(t, sa) && r < |sa| && s < |sa| && t[sa[r]] == t[sa[s]]
    ensures r < s ==> NextRows(t, sa)[r] < NextRows(t, sa)[s]
  {
    if r < s {
      var x := NextRows(t, sa);
      SuffixAsymmetric(t, sa[r], sa[s]);
      assert SuffixLess(t, sa[r] + 1, sa[s] + 1);
      RowOrder(t, sa, x[r], x[s]);
    }
  }

  lemma SameSymbolBefore(t: seq<nat>, sa: seq<nat>, j: nat)
    requires IsText(t) && IsSuffixArray(t, sa) && j < |sa|
    ensures Count(Firsts(t, sa), t[sa[j]], j) == Count(Bwt(t, sa), t[sa[j]], NextRows(t, sa)[j])
  {
    hide Count;
    var x, f, b := NextRows(t, sa), Firsts(t, sa), Bwt(t, sa);
    NextSymbol(t, sa);
    forall r, s | 0 <= r < s < |f| && f[r] == f[s]
      ensures x[r] < x[s]
    {
      NextRowOrder(t, sa, r, s);
    }
    MonotoneCount(f, b, x, j);
  }

  /** A permutation that keeps the order of equal symbols keeps each one's rank. */
  lemma MonotoneCount(f: seq<nat>, b: seq<nat>, x: seq<nat>, j: nat)
    requires |f| == |b| == |x| && IsPermutation(x) && j < |f|
    requires forall r {:trigger x[r]} :: 0 <= r < |f| ==> b[x[r]] == f[r]
    requires forall r, s :: 0 <= r < s < |f| && f[r] == f[s] ==> x[r] < x[s]
    ensures Count(f, f[j], j) == Count(b, f[j], x[j])
  {
    hide Count, Inverse;
    var c, i := f[j], x[j];
    CountIsCard(f, c, j);
    CountIsCard(b, c, i);
    InjectionCard(x, Indices(f, c, j), Indices(b, c, i));
    var y := Inverse(x);
    forall q | q in Indices(b, c, i)
      ensures y[q] in Indices(f, c, j)
    {
      MonotoneBack(f, b, x, j, y[q]);
    }
    InjectionCard(y, Indices(b, c, i), Indices(f, c, j));
  }

  lemma MonotoneBack(f: seq<nat>, b: seq<nat>, x: seq<nat>, j: nat, r: nat)
    requires |f| == |b| == |x| && IsPermutation(x) && j < |f| && r < |f|
    requires forall r {:trigger x[r]} :: 0 <= r < |f| ==> b[x[r]] == f[r]
    requires forall r, s :: 0 <= r < s < |f| && f[r] == f[s] ==> x[r] < x[s]
    requires b[x[r]] == f[j] && x[r] < x[j]
    ensures r < j && f[r] == f[j]
  {}

  lemma NextSymbol(t: seq<nat>, sa: seq<nat>)
    requires IsText(t) && IsSuffixArray(t, sa)
    ensures forall r {:trigger NextRows(t, sa)[r]} :: 0 <= r < |sa| ==> Bwt(t, sa)[NextRows(t, sa)[r]] == Firsts(t, sa)[r]
  {}

  /** LF undoes the step to the next row. */
  lemma LfOfNext(t: seq<nat>, sa: seq<nat>, j: nat)
    requires IsText(t) && IsSuffixArray(t, sa) && j < |sa|
    ensures LfRow(Bwt(t, sa), NextRows(t, sa)[j]) == j
  {
    hide Count, CountBelow;
    var f, b := Firsts(t, sa), Bwt(t, sa);
    NextSymbol(t, sa);
    forall p, q | 0 <= p < q < |f|
      ensures f[p] <= f[q]
    {
      assert SuffixLess(t, sa[p], sa[q]);
    }
    SortedIndex(f, j, |f|);
    PermutedCountBelow(f, b, NextRows(t, sa), f[j]);
    SameSymbolBefore(t, sa, j);
  }

  /** LF steps every row to the row of the text position cyclically before it. */
  lemma LfSteps(t: seq<nat>, sa: seq<nat>, i: nat)
    requires IsText(t) && IsSuffixArray(t, sa) && i < |sa|
    ensures LfRow(Bwt(t, sa), i) < |sa|
    ensures sa[LfRow(Bwt(t, sa), i)] == Before(sa[i], |sa|)
  {
    hide LfRow;
    var x := NextRows(t, sa);
    var j := Find(x, i);
    LfOfNext(t, sa, j);
  }

  /** LF is a bijection on rows. */
  lemma LfBijective(t: seq<nat>, sa: seq<nat>)
    requires IsText(t) && IsSuffixArray(t, sa)
    ensures IsPermutation(seq(|sa|, i requires 0 <= i < |sa| => LfRow(Bwt(t, sa), i)))
  {
    hide LfRow;
    forall i | 0 <= i < |sa|
      ensures LfRow(Bwt(t, sa), i) < |sa| && sa[LfRow(Bwt(t, sa), i)] == Before(sa[i], |sa|)
    {
      LfSteps(t, sa, i);
    }
    SuffixArrayIsPermutation(t, sa);
    forall i, j | 0 <= i < j < |sa|
      ensures LfRow(Bwt(t, sa), i) != LfRow(Bwt(t, sa), j)
    {
      assert sa[i] != sa[j];
    }
  }

  // ----- backward search -----

  ghost predicate Matches(t: seq<nat>, p: nat, W: seq<nat>) {
    p + |W| <= |t| && t[p..p + |W|] == W
  }

  /** [lo, hi) holds exactly the rows whose suffix starts with W. */
  ghost predicate Exact(t: seq<nat>, sa: seq<nat>, W: seq<nat>, lo: nat, hi: nat) {
    && lo <= hi <= |sa|
    && forall r :: 0 <= r < |sa| ==> (lo <= r < hi <==> Matches(t, sa[r], W))
  }

  lemma ExactEmpty(t: seq<nat>, sa: seq<nat>)
    requires IsSuffixArray(t, sa)
    ensures Exact(t, sa, [], 0, |sa|)
  {}

  lemma MatchesCons(t: seq<nat>, p: nat, c: nat, W: seq<nat>)
    requires p < |t|
    ensures Matches(t, p, [c] + W) <==> t[p] == c && Matches(t, p + 1, W)
  {
    if p + 1 + |W| <= |t| {
      assert t[p..p + |[c] + W|] == [t[p]] + t[p + 1..p + 1 + |W|];
      assert ([c] + W)[0] == c && ([c] + W)[1..] == W;
    }
  }

  /** LF sends exactly the rows i of [lo, hi) whose symbol is c into the interval stepped by c. */
  lemma StepRank(b: seq<nat>, c: nat, lo: nat, hi: nat, i: nat)
    requires lo <= hi <= |b| && i < |b|
    ensures CountBelow(b, c, |b|) + Count(b, c, lo) <= LfRow(b, i) < CountBelow(b, c, |b|) + Count(b, c, hi)
            <==> b[i] == c && lo <= i < hi
  {
    hide Count, CountBelow;
    var c', m := b[i], |b|;
    CountMonotone(b, c', i, m);
    CountBelowStep(b, c', m);
    CountMonotone(b, c, hi, m);
    CountBelowStep(b, c, m);
    if c' < c {
      CountBelowMonotone(b, c' + 1, c, m);
    } else if c < c' {
      CountBelowMonotone(b, c + 1, c', m);
    } else {
      StepSide(b, i, lo);
      StepSide(b, i, hi);
    }
  }

  lemma StepSide(b: seq<nat>, i: nat, p: nat)
    requires i < |b| && p <= |b|
    ensures Count(b, b[i], i) < Count(b, b[i], p) <==> i < p
  {
    hide Count;
    if i < p {
      CountMonotone(b, b[i], i, p);
    } else {
      CountMonotone(b, b[i], p, i);
    }
  }

  lemma StepRow(t: seq<nat>, sa: seq<nat>, W: seq<nat>, c: nat, lo: nat, hi: nat, j: nat)
    requires IsText(t) && IsSuffixArray(t, sa) && c >= 1 && Exact(t, sa, W, lo, hi) && j < |sa|
    ensures var b := Bwt(t, sa);
            CountBelow(b, c, |b|) + Count(b, c, lo) <= j < CountBelow(b, c, |b|) + Count(b, c, hi)
            <==> Matches(t, sa[j], [c] + W)
  {
    hide Count, CountBelow, Matches, LfRow;
    var b, i := Bwt(t, sa), NextRows(t, sa)[j];
    assert b[i] == t[sa[j]] by { NextSymbol(t, sa); }
    LfOfNext(t, sa, j);
    StepRank(b, c, lo, hi, i);
    MatchesCons(t, sa[j], c, W);
    assert lo <= i < hi <==> Matches(t, sa[i], W);
    assert sa[i] == After(sa[j], |sa|);
  }

  /** The step every search repeats: prepending a non-sentinel symbol keeps the interval exact. */
  lemma BackwardStep(t: seq<nat>, sa: seq<nat>, W: seq<nat>, c: nat, lo: nat, hi: nat)
    requires IsText(t) && IsSuffixArray(t, sa) && c >= 1 && Exact(t, sa, W, lo, hi)
    ensures var b := Bwt(t, sa);
            Exact(t, sa, [c] + W, CountBelow(b, c, |b|) + Count(b, c, lo), CountBelow(b, c, |b|) + Count(b, c, hi))
  {
    hide Count, CountBelow, Matches;
    var b := Bwt(t, sa);
    CountMonotone(b, c, lo, hi);
    CountMonotone(b, c, hi, |b|);
    CountBelowStep(b, c, |b|);
    forall j | 0 <= j < |sa|
      ensures CountBelow(b, c, |b|) + Count(b, c, lo) <= j < CountBelow(b, c, |b|) + Count(b, c, hi)
              <==> Matches(t, sa[j], [c] + W)
    {
      StepRow(t, sa, W, c, lo, hi, j);
    }
  }

  lemma MatchesSuffix(t: seq<nat>, p: nat, A: seq<nat>, B: seq<nat>)
    requires Matches(t, p, A + B)
    ensures Matches(t, p + |A|, B)
  {
    assert t[p + |A|..p + |A| + |B|] == t[p..p + |A + B|][|A|..];
    assert (A + B)[|A|..] == B;
  }

  lemma NonEmptyInterval(t: seq<nat>, sa: seq<nat>, W: seq<nat>, lo: nat, hi: nat, p: nat)
    requires IsSuffixArray(t, sa) && Exact(t, sa, W, lo, hi) && p < |t| && Matches(t, p, W)
    ensures lo < hi
  {
    hide Matches;
    SuffixArrayIsPermutation(t, sa);
    var r := Find(sa, p);
    assert lo <= r < hi;
  }

  // ----- interval width -----

  ghost function MatchFlags(t: seq<nat>, W: seq<nat>): (s: seq<nat>)
    ensures |s| == |t|
    ensures forall p :: 0 <= p < |t| ==> s[p] == if Matches(t, p, W) then 1 else 0
  {
    seq(|t|, p requires 0 <= p < |t| => if Matches(t, p, W) then 1 else 0)
  }

  lemma {:induction false} FlagsInRange(s: seq<nat>, lo: nat, hi: nat, n: nat)
    requires lo <= hi <= |s| && n <= |s|
    requires forall r :: 0 <= r < |s| ==> (s[r] == 1 <==> lo <= r < hi)
    ensures Count(s, 1, n) == if n <= lo then 0 else if n <= hi then n - lo else hi - lo
  {
    if n > 0 {
      FlagsInRange(s, lo, hi, n - 1);
    }
  }

  /** The width of an exact interval is the number of text positions where W occurs. */
  lemma ExactWidth(t: seq<nat>, sa: seq<nat>, W: seq<nat>, lo: nat, hi: nat)
    requires IsSuffixArray(t, sa) && Exact(t, sa, W, lo, hi)
    ensures hi - lo == Count(MatchFlags(t, W), 1, |t|)
  {
    hide Count, Matches;
    var flags := MatchFlags(t, W);
    var rows := seq(|sa|, r requires 0 <= r < |sa| => flags[sa[r]]);
    SuffixArrayIsPermutation(t, sa);
    PermutedCount(rows, flags, sa, 1);
    FlagsInRange(rows, lo, hi, |rows|);
  }
}
