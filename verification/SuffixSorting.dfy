/** A reference suffix sorter, standing in for the suffix-array library: it shows that the contract the
    index relies on can always be met. */
module SuffixSorting {
  import opened Sorting
  import opened SuffixArrays
  import opened Counting

  /** Positions of t by their suffixes; anything else after them, by value. */
  function BySuffix(t: seq<nat>): (nat, nat) -> bool {
    (i: nat, j: nat) =>
      if i <= |t| && j <= |t| then i == j || SuffixLess(t, i, j) else i <= j
  }

  lemma BySuffixIsOrder(t: seq<nat>)
    ensures TotalOrder<nat>(BySuffix(t))
  {
    var leq := BySuffix(t);
    forall a: nat, b: nat
      ensures leq(a, b) || leq(b, a)
    {
      if a <= |t| && b <= |t| && a != b {
        SuffixTotal(t, a, b);
      }
    }
    forall a: nat, b: nat, c: nat | leq(a, b) && leq(b, c)
      ensures leq(a, c)
    {
      if a <= |t| && b <= |t| && c <= |t| && a != b && b != c {
        SuffixTransitive(t, a, b, c);
      }
    }
  }

  function SuffixArray(t: seq<nat>): (sa: seq<nat>) {
    Sort<nat>(seq(|t|, (i: nat) => i), BySuffix(t))
  }

  /** Every text has a suffix array. */
  lemma SuffixArrayExists(t: seq<nat>)
    ensures IsSuffixArray(t, SuffixArray(t))
  {
    hide Sort;
    var all := seq(|t|, (i: nat) => i);
    var sa := SuffixArray(t);
    BySuffixIsOrder(t);
    SortSorted<nat>(all, BySuffix(t));
    SortDistinct<nat>(all, BySuffix(t));
    SortMembers<nat>(all, BySuffix(t));
    forall r | 0 <= r < |sa|
      ensures sa[r] < |t|
    {
      assert sa[r] in sa;
    }
    forall r, s | 0 <= r < s < |sa|
      ensures SuffixLess(t, sa[r], sa[s])
    {
      assert BySuffix(t)(sa[r], sa[s]);
    }
  }
}
