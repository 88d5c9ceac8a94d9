/** The 4-ary wavelet matrix over a symbol sequence: one packed digit vector per level. */
module WaveletMatrices {
  import opened Counting
  import opened QuadVectors
  import opened WaveletTheory

  class WaveletMatrix4 {
    var n: nat
    var qlevels: nat
    var qv: seq<QuadVector>
    var start: seq<seq<nat>>
    ghost var digits: seq<seq<nat>>   // the digits each level packs
    ghost var layers: seq<seq<nat>>   // the symbol sequence in each level's order

    /** Structurally usable: every descent stays inside [0, n], whatever digits are packed. */
    ghost predicate Usable()
      reads this, qv
    {
      && |qv| == |start| == |digits| == qlevels
      && Sound(digits, n)
      && forall l :: 0 <= l < qlevels ==> LevelUsable(l)
    }

    ghost predicate LevelUsable(l: nat)
      requires l < |qv| && l < |start| && l < |digits|
      reads this, qv
    {
      qv[l].Valid() && qv[l].n == n && qv[l].Contents() == digits[l] && start[l] == Starts(digits[l])
    }

    /** Usable, and the levels really are the stable digit sorts of one symbol sequence. */
    ghost predicate Valid()
      reads this, qv
    {
      && Usable()
      && Layered(layers, digits) && |layers[0]| == n
      && forall i :: 0 <= i < n ==> Top(layers[0][i], qlevels) == 0
    }

    ghost function Contents(): seq<nat>
      requires |layers| > 0
      reads this
    {
      layers[0]
    }

    /** The matrix of no levels over no symbols. */
    constructor Empty()
      ensures Usable() && n == 0 && qv == [] && start == []
    {
      n, qlevels, qv, start := 0, 0, [], [];
      digits, layers := [], [[]];
    }

    /** The matrix of a symbol sequence, built by one stable scatter per level. */
    constructor Build(input: seq<nat>, qlevels: nat, wordsPerBlock: nat)
      requires forall i :: 0 <= i < |input| ==> Top(input[i], qlevels) == 0
      ensures Valid() && fresh(qv) && Contents() == input && n == |input| && this.qlevels == qlevels
    {
      this.n, this.qlevels, qv, start := |input|, qlevels, [], [];
      digits, layers := [], [input];
      new;
      var cur := new nat[|input|](i requires 0 <= i < |input| => input[i]);
      var next := new nat[|input|](_ => 0);
      assert cur[..] == input;
      var l := 0;
      while l < qlevels
        invariant 0 <= l <= qlevels && this.qlevels == qlevels && n == |input|
        invariant cur != next && cur.Length == next.Length == n && fresh(cur) && fresh(next)
        invariant BuiltUpTo(l) && fresh(qv)
        invariant layers[0] == input && layers[l] == cur[..]
      {
        BuildLevel(cur, next, l, wordsPerBlock);
        cur, next := next, cur;
        l := l + 1;
      }
    }

    /** The first l levels are in place. */
    ghost predicate BuiltUpTo(l: nat)
      reads this, qv
    {
      && |qv| == |start| == |digits| == l <= qlevels && |layers| == l + 1
      && Sound(digits, n)
      && (forall k :: 0 <= k <= l ==> |layers[k]| == n)
      && (forall k :: 0 <= k < l ==> LevelUsable(k) && LevelOk(layers, digits, qlevels, k))
    }

    /** Packs level l's digits of cur and scatters cur into next by digit, keeping order within a digit. */
    method BuildLevel(cur: array<nat>, next: array<nat>, l: nat, wordsPerBlock: nat)
      requires l < qlevels && BuiltUpTo(l) && layers[l] == cur[..]
      requires cur != next && cur.Length == next.Length == n
      modifies this, next
      ensures BuiltUpTo(l + 1) && layers == old(layers) + [next[..]]
      ensures n == old(n) && qlevels == old(qlevels) && fresh(set q | q in qv && q !in old(qv))
      ensures forall k :: 0 <= k < l ==> qv[k] == old(qv)[k]
    {
      hide Count, CountBelow, Digit, DirectoryOk, LevelMap;
      var hist := new nat[4];
      var q := new QuadVector.Pack(cur[..], Shift(qlevels, l), hist, wordsPerBlock);
      ghost var D := DigitsOf(cur[..], Shift(qlevels, l));
      var starts := [0, hist[0], hist[0] + hist[1], hist[0] + hist[1] + hist[2]];
      HistogramStarts(D);
      assert starts == Starts(D);
      Scatter(cur, next, Shift(qlevels, l), starts);
      label L:
      qv, start := qv + [q], start + [starts];
      digits, layers := digits + [D], layers + [next[..]];
      forall k | 0 <= k < l
        ensures LevelUsable(k) && LevelOk(layers, digits, qlevels, k)
      {
        assert old(LevelUsable(k)) && LevelOk(old(layers), old(digits), qlevels, k);
      }
    }

    constructor FromParts(n: nat, qlevels: nat, qv: seq<QuadVector>, start: seq<seq<nat>>, ghost digits: seq<seq<nat>>)
      requires |qv| == |start| == |digits| == qlevels
      requires forall l :: 0 <= l < qlevels ==>
                 qv[l].Valid() && qv[l].n == n && qv[l].Contents() == digits[l] && start[l] == Starts(digits[l])
      ensures Usable() && this.n == n && this.qlevels == qlevels && this.qv == qv && this.start == start
      ensures this.digits == digits
    {
      this.n, this.qlevels, this.qv, this.start := n, qlevels, qv, start;
      this.digits, layers := digits, [];
      new;
      forall l | 0 <= l < qlevels
        ensures IsDigits(digits[l])
      {
        DigitsAreDigits(qv[l].words, n);
      }
    }

    /** Both endpoints followed along c's digits, without the group start subtracted. */
    method Map2(c: nat, lo: nat, hi: nat) returns (lo': nat, hi': nat)
      requires Usable() && lo <= n && hi <= n
      ensures lo' == Descend(digits, n, c, lo, qlevels) <= n
      ensures hi' == Descend(digits, n, c, hi, qlevels) <= n
    {
      hide Count, CountBelow, Digit;
      lo', hi' := lo, hi;
      var l := 0;
      while l < qlevels
        invariant 0 <= l <= qlevels
        invariant lo' == Descend(digits, n, c, lo, l) && hi' == Descend(digits, n, c, hi, l)
      {
        assert LevelUsable(l);
        var d := Digit(c, Shift(qlevels, l));
        lo' := Follow(l, d, lo');
        hi' := Follow(l, d, hi');
        l := l + 1;
      }
    }

    /** One level of a descent. */
    method Follow(l: nat, d: nat, p: nat) returns (q: nat)
      requires Usable() && l < qlevels && d < 4 && p <= n
      ensures q == LevelMap(digits[l], d, p) <= n
    {
      assert LevelUsable(l);
      var r := qv[l].Rank(d, p);
      q := start[l][d] + r;
      LevelMapBounds(digits[l], d, p);
    }

    method MapZero(c: nat) returns (p: nat)
      requires Usable()
      ensures p == Descend(digits, n, c, 0, qlevels)
    {
      hide Count, CountBelow, Digit;
      p := 0;
      var l := 0;
      while l < qlevels
        invariant 0 <= l <= qlevels && p == Descend(digits, n, c, 0, l)
      {
        p := Follow(l, Digit(c, Shift(qlevels, l)), p);
        l := l + 1;
      }
    }

    /** Occurrences of symbol c before position i. */
    method Rank(c: nat, i: nat) returns (r: nat)
      requires Valid() && i <= n && Top(c, qlevels) == 0
      ensures r == Count(Contents(), c, i) == |set k: nat | k < i && Contents()[k] == c|
    {
      Counted(Contents(), c, i);
      hide Count, CountBelow, Digit;
      var first, last := 0, i;
      var l := 0;
      while l < qlevels
        invariant 0 <= l <= qlevels
        invariant first == Descend(digits, n, c, 0, l) && last == Descend(digits, n, c, i, l)
      {
        var d := Digit(c, Shift(qlevels, l));
        first := Follow(l, d, first);
        last := Follow(l, d, last);
        l := l + 1;
      }
      DescendCounts(layers, digits, c, i);
      r := last - first;
    }

    /** The symbol at position i; over arbitrary digits, a number of as many digits, read inside the matrix. */
    method Access(i: nat) returns (sym: nat)
      requires Usable() && i < n
      ensures sym == Spelled(digits, n, i, qlevels) < Pow2(2 * qlevels)
      ensures Valid() ==> sym == Contents()[i]
    {
      hide Count, CountBelow, Digit, LevelMap;
      sym := 0;
      var pos: nat := i;
      var l := 0;
      while l < qlevels
        invariant 0 <= l <= qlevels && pos == Path(digits, n, i, l) && sym == Spelled(digits, n, i, l)
      {
        assert LevelUsable(l);
        var d := qv[l].At(pos);
        sym := sym * 4 + d;
        pos := Follow(l, d, pos);
        l := l + 1;
      }
      if Valid() {
        SpellsSymbol(layers, digits, i, qlevels);
        TopZero(layers[0][i]);
      }
    }

    /** Level-major descent of many endpoint pairs at once, in place. */
    method MapBatch(c: array<nat>, lo: array<nat>, hi: array<nat>, k: nat)
      requires Usable() && k <= c.Length && k <= lo.Length && k <= hi.Length
      requires c != lo && c != hi && lo != hi
      requires forall j :: 0 <= j < k ==> lo[j] <= n && hi[j] <= n
      modifies lo, hi
      ensures forall j :: 0 <= j < k ==>
                && lo[j] == Descend(digits, n, c[j], old(lo[j]), qlevels)
                && hi[j] == Descend(digits, n, c[j], old(hi[j]), qlevels)
      ensures forall j :: k <= j < lo.Length ==> lo[j] == old(lo[j])
      ensures forall j :: k <= j < hi.Length ==> hi[j] == old(hi[j])
    {
      hide Count, CountBelow, Digit;
      var l := 0;
      while l < qlevels
        invariant 0 <= l <= qlevels
        invariant BatchAt(c, lo, hi, old(lo[..]), old(hi[..]), k, 0, l)
        invariant forall j :: k <= j < lo.Length ==> lo[j] == old(lo[j])
        invariant forall j :: k <= j < hi.Length ==> hi[j] == old(hi[j])
      {
        MapBatchLevel(c, lo, hi, k, l, old(lo[..]), old(hi[..]));
        l := l + 1;
      }
    }

    /** Entries before done have gone through l + 1 levels, the others through l. */
    ghost predicate BatchAt(c: array<nat>, lo: array<nat>, hi: array<nat>, lo0: seq<nat>, hi0: seq<nat>,
                            k: nat, done: nat, l: nat)
      requires Usable() && l <= qlevels && k <= c.Length && k <= lo.Length && k <= hi.Length
      reads this, qv, c, lo, hi
    {
      && (done == 0 || l < qlevels)
      && |lo0| == lo.Length && |hi0| == hi.Length
      && forall j :: 0 <= j < k ==>
           && lo0[j] <= n && hi0[j] <= n
           && lo[j] == Descend(digits, n, c[j], lo0[j], if j < done then l + 1 else l)
           && hi[j] == Descend(digits, n, c[j], hi0[j], if j < done then l + 1 else l)
    }

    method MapBatchLevel(c: array<nat>, lo: array<nat>, hi: array<nat>, k: nat, l: nat,
                         ghost lo0: seq<nat>, ghost hi0: seq<nat>)
      requires Usable() && k <= c.Length && k <= lo.Length && k <= hi.Length && l < qlevels
      requires c != lo && c != hi && lo != hi
      requires BatchAt(c, lo, hi, lo0, hi0, k, 0, l)
      modifies lo, hi
      ensures BatchAt(c, lo, hi, lo0, hi0, k, 0, l + 1)
      ensures forall j :: k <= j < lo.Length ==> lo[j] == old(lo[j])
      ensures forall j :: k <= j < hi.Length ==> hi[j] == old(hi[j])
    {
      hide Count, CountBelow, Digit, LevelMap;
      var j := 0;
      while j < k
        invariant 0 <= j <= k
        invariant BatchAt(c, lo, hi, lo0, hi0, k, j, l)
        invariant forall j :: k <= j < lo.Length ==> lo[j] == old(lo[j])
        invariant forall j :: k <= j < hi.Length ==> hi[j] == old(hi[j])
      {
        var d := Digit(c[j], Shift(qlevels, l));
        var a := Follow(l, d, lo[j]);
        var b := Follow(l, d, hi[j]);
        lo[j] := a;
        hi[j] := b;
        j := j + 1;
      }
    }
  }

  lemma HistogramStarts(D: seq<nat>)
    ensures Starts(D)[0] == 0
    ensures forall d: nat :: d < 3 ==> Starts(D)[d + 1] == Starts(D)[d] + Counts(D, |D|)[d]
  {
    CountBelowZero(D, |D|);
    forall d: nat | d < 3
      ensures Starts(D)[d + 1] == Starts(D)[d] + Counts(D, |D|)[d]
    {
      CountBelowStep(D, d, |D|);
    }
  }

  /** Stable counting-sort scatter with one moving cursor per digit. */
  method Scatter(cur: array<nat>, next: array<nat>, digitShift: nat, starts: seq<nat>)
    requires cur != next && cur.Length == next.Length
    requires starts == Starts(DigitsOf(cur[..], digitShift))
    modifies next
    ensures Scattered(cur[..], DigitsOf(cur[..], digitShift), next[..])
  {
    hide Count, CountBelow, Digit;
    ghost var A, D := cur[..], DigitsOf(cur[..], digitShift);
    var off := starts;
    var i := 0;
    CursorsAtZero(D);
    while i < cur.Length
      invariant 0 <= i <= cur.Length && cur[..] == A
      invariant |off| == 4 && forall d: nat :: d < 4 ==> off[d] == LevelMap(D, d, i)
      invariant forall j :: 0 <= j < i ==> ScatteredAt(A, D, next[..], j)
    {
      var digit := Digit(cur[i], digitShift);
      assert D[i] == digit;
      LevelMapBounds(D, digit, i);
      ghost var before := next[..];
      next[off[digit]] := cur[i];
      forall j | 0 <= j < i
        ensures ScatteredAt(A, D, next[..], j)
      {
        assert ScatteredAt(A, D, before, j);
        LevelMapInjective(D, j, i);
      }
      CursorsAdvance(D, i);
      off := off[digit := off[digit] + 1];
      i := i + 1;
    }
  }

  lemma CursorsAtZero(D: seq<nat>)
    ensures forall d: nat :: d < 4 ==> Starts(D)[d] == LevelMap(D, d, 0)
  {}

  lemma CursorsAdvance(D: seq<nat>, i: nat)
    requires i < |D|
    ensures forall d: nat :: LevelMap(D, d, i + 1) == LevelMap(D, d, i) + if D[i] == d then 1 else 0
  {}

  lemma DigitsAreDigits(words: seq<bv64>, n: nat)
    requires |words| == QuadVectors.WordCount(n)
    ensures IsDigits(Digits(words, n))
  {}

  lemma TopZero(x: nat)
    ensures Top(x, 0) == x
  {}
}
