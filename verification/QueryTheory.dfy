/** From exact suffix-array intervals to answers about documents. */
module QueryTheory {
  import opened Counting
  import opened Sorting
  import opened SuffixArrays
  import opened Corpus
  import opened TextMatches

  /** A corpus with its alphabet and the suffix array of its text. */
  ghost predicate Layout(fold: bool, docs: seq<Document>, ids: seq<int>, sigma: nat, sa: seq<nat>) {
    Alphabet(fold, docs, ids, sigma) && IsSuffixArray(Text(ids, docs), sa)
  }

  /** What a backward search returns: the exact interval of a known pattern, nothing for an unknown one. */
  ghost predicate Searched(docs: seq<Document>, ids: seq<int>, sa: seq<nat>, P: seq<Byte>, lo: nat, hi: nat)
    requires |ids| == 256
  {
    && lo <= hi <= |sa|
    && (Known(ids, P) ==> Exact(Text(ids, docs), sa, Syms(ids, P), lo, hi))
    && (!Known(ids, P) ==> lo == hi)
  }

  lemma LayoutFacts(fold: bool, docs: seq<Document>, ids: seq<int>, sigma: nat, sa: seq<nat>)
    requires Layout(fold, docs, ids, sigma, sa)
    ensures |ids| == 256 && IsText(Text(ids, docs)) && IsPermutation(sa) && |sa| == TextLength(docs) + 1
  {
    CorpusIsText(fold, docs, ids, sigma);
    SuffixArrayIsPermutation(Text(ids, docs), sa);
  }

  /** The width of a search result is the number of occurrences in all documents. */
  lemma SearchedCount(fold: bool, docs: seq<Document>, ids: seq<int>, sigma: nat, sa: seq<nat>,
                      P: seq<Byte>, lo: nat, hi: nat)
    requires Layout(fold, docs, ids, sigma, sa) && P != []
    requires Searched(docs, ids, sa, P, lo, hi)
    ensures hi - lo == TotalOccurrences(fold, docs, P, |docs|)
  {
    if Known(ids, P) {
      ExactWidth(Text(ids, docs), sa, Syms(ids, P), lo, hi);
      MatchCount(fold, docs, ids, sigma, P);
    } else {
      UnknownCount(fold, docs, ids, sigma, P, |docs|);
    }
  }

  /** Every row of a search result is an occurrence. */
  lemma SearchedRow(fold: bool, docs: seq<Document>, ids: seq<int>, sigma: nat, sa: seq<nat>,
                    P: seq<Byte>, lo: nat, hi: nat, r: nat)
    requires Layout(fold, docs, ids, sigma, sa) && P != []
    requires Searched(docs, ids, sa, P, lo, hi) && lo <= r < hi
    ensures OccursAtPosition(fold, docs, sa[r], P)
  {
    hide Alphabet, Matches, OccursAtPosition;
    PatternMatches(fold, docs, ids, sigma, P, sa[r]);
  }

  /** Every occurrence has its row in the search result. */
  lemma SearchedFinds(fold: bool, docs: seq<Document>, ids: seq<int>, sigma: nat, sa: seq<nat>,
                      P: seq<Byte>, lo: nat, hi: nat, d: nat, o: nat) returns (r: nat)
    requires Layout(fold, docs, ids, sigma, sa) && P != [] && d < |docs| && OccursAt(fold, docs[d], o, P)
    requires Searched(docs, ids, sa, P, lo, hi)
    ensures lo <= r < hi && sa[r] == DocStart(docs, d) + o < DocStart(docs, d + 1) <= TextLength(docs)
  {
    LayoutFacts(fold, docs, ids, sigma, sa);
    OccurrenceKnown(fold, docs, ids, sigma, P, d, o);
    OccurrenceMatches(fold, docs, ids, sigma, P, d, o);
    r := Find(sa, DocStart(docs, d) + o);
  }

  // ----- the loop of a backward search -----

  lemma NothingLeft(ids: seq<int>, P: seq<Byte>)
    requires |ids| == 256
    ensures P[|P|..] == [] && Known(ids, P[|P|..]) && Syms(ids, P[|P|..]) == []
  {}

  lemma Prepended(ids: seq<int>, P: seq<Byte>, k: nat)
    requires |ids| == 256 && k < |P| && ids[P[k]] >= 0
    ensures Syms(ids, P[k..]) == [ids[P[k]]] + Syms(ids, P[k + 1..])
    ensures Known(ids, P[k + 1..]) ==> Known(ids, P[k..])
  {}

  /** Once a suffix matches nowhere, nothing that ends with it matches. */
  lemma EmptySuffix(t: seq<nat>, sa: seq<nat>, A: seq<nat>, B: seq<nat>, lo: nat, hi: nat)
    requires IsSuffixArray(t, sa) && B != [] && Exact(t, sa, B, lo, hi) && lo >= hi
    ensures Exact(t, sa, A + B, 0, 0)
  {
    forall r | 0 <= r < |sa|
      ensures !Matches(t, sa[r], A + B)
    {
      if Matches(t, sa[r], A + B) {
        MatchesSuffix(t, sa[r], A, B);
        NonEmptyInterval(t, sa, B, lo, hi, sa[r] + |A|);
      }
    }
  }

  lemma EmptySearch(t: seq<nat>, sa: seq<nat>, ids: seq<int>, P: seq<Byte>, k: nat, lo: nat, hi: nat)
    requires |ids| == 256 && k < |P| && IsSuffixArray(t, sa)
    requires Exact(t, sa, Syms(ids, P[k..]), lo, hi) && lo >= hi
    ensures Exact(t, sa, Syms(ids, P), 0, 0)
  {
    assert Syms(ids, P) == Syms(ids, P[..k]) + Syms(ids, P[k..]);
    EmptySuffix(t, sa, Syms(ids, P[..k]), Syms(ids, P[k..]), lo, hi);
  }

  /** The empty pattern's interval is every row. */
  lemma WholeSearch(t: seq<nat>, sa: seq<nat>, lo: nat, hi: nat)
    requires IsSuffixArray(t, sa) && |t| > 0 && Exact(t, sa, [], lo, hi)
    ensures lo == 0 && hi == |sa|
  {
    assert Matches(t, sa[0], []) && Matches(t, sa[|sa| - 1], []);
  }

  // ----- located occurrences -----

  /** The document and offset of a text position. */
  ghost function Place(docs: seq<Document>, p: nat): (nat, nat)
    requires p < TextLength(docs)
  {
    (DocOf(docs, p), p - DocStart(docs, DocOf(docs, p)))
  }

  ghost predicate PairsAscending(s: seq<(nat, nat)>) {
    forall i, j :: 0 <= i < j < |s| ==> s[i].0 < s[j].0 || (s[i].0 == s[j].0 && s[i].1 < s[j].1)
  }

  /** The located occurrences of P: strictly sorted, all of them, nothing else. */
  ghost predicate Located(fold: bool, docs: seq<Document>, P: seq<Byte>, r: seq<(nat, nat)>) {
    && PairsAscending(r)
    && |r| == TotalOccurrences(fold, docs, P, |docs|)
    && (forall i :: 0 <= i < |r| ==> r[i].0 < |docs| && OccursAt(fold, docs[r[i].0], r[i].1, P))
    && (forall d: nat, o: nat :: d < |docs| && OccursAt(fold, docs[d], o, P) ==> (d, o) in r)
  }

  /** Positions in ascending order give places in strictly ascending order. */
  lemma PlacesAscending(docs: seq<Document>, p: nat, q: nat)
    requires p < q < TextLength(docs)
    ensures Place(docs, p).0 < Place(docs, q).0
         || (Place(docs, p).0 == Place(docs, q).0 && Place(docs, p).1 < Place(docs, q).1)
  {
    var d, e := DocOf(docs, p), DocOf(docs, q);
    if e < d {
      DocStartMonotone(docs, e + 1, d);
    }
  }

  lemma PlacesInOrder(docs: seq<Document>, positions: seq<nat>, r: seq<(nat, nat)>)
    requires Ascending(positions) && forall i :: 0 <= i < |positions| ==> positions[i] < TextLength(docs)
    requires |r| == |positions| && forall i :: 0 <= i < |r| ==> r[i] == Place(docs, positions[i])
    ensures PairsAscending(r)
  {
    hide Place;
    forall i, j | 0 <= i < j < |r|
      ensures r[i].0 < r[j].0 || (r[i].0 == r[j].0 && r[i].1 < r[j].1)
    {
      PlacesAscending(docs, positions[i], positions[j]);
    }
  }

  /** Sorting the positions of the interval's rows and placing them locates the pattern. */
  lemma PlacesLocated(fold: bool, docs: seq<Document>, ids: seq<int>, sigma: nat, sa: seq<nat>,
                      P: seq<Byte>, lo: nat, hi: nat, positions: seq<nat>, r: seq<(nat, nat)>)
    requires Layout(fold, docs, ids, sigma, sa) && P != []
    requires Searched(docs, ids, sa, P, lo, hi)
    requires Ascending(positions) && multiset(positions) == multiset(sa[lo..hi])
    requires forall i :: 0 <= i < |positions| ==> positions[i] < TextLength(docs)
    requires |r| == |positions| && forall i :: 0 <= i < |r| ==> r[i] == Place(docs, positions[i])
    ensures Located(fold, docs, P, r)
  {
    assert lo <= hi <= |sa|;
    hide Layout, Searched, OccursAt, DocStart, Place, PairsAscending, Ascending;
    assert |positions| == |multiset(positions)| && |sa[lo..hi]| == |multiset(sa[lo..hi])|;
    SearchedCount(fold, docs, ids, sigma, sa, P, lo, hi);
    PlacesInOrder(docs, positions, r);
    forall i | 0 <= i < |r|
      ensures r[i].0 < |docs| && OccursAt(fold, docs[r[i].0], r[i].1, P)
    {
      assert positions[i] in multiset(positions);
      RowPlace(fold, docs, ids, sigma, sa, P, lo, hi, positions[i]);
    }
    forall d: nat, o: nat | d < |docs| && OccursAt(fold, docs[d], o, P)
      ensures (d, o) in r
    {
      var p := PlaceRow(fold, docs, ids, sigma, sa, P, lo, hi, d, o);
      assert p in multiset(positions);
      var i :| 0 <= i < |positions| && positions[i] == p;
      assert r[i] == (d, o);
    }
  }

  lemma RowPlace(fold: bool, docs: seq<Document>, ids: seq<int>, sigma: nat, sa: seq<nat>,
                 P: seq<Byte>, lo: nat, hi: nat, p: nat)
    requires Layout(fold, docs, ids, sigma, sa) && P != []
    requires Searched(docs, ids, sa, P, lo, hi) && p in multiset(sa[lo..hi])
    ensures p < TextLength(docs)
    ensures var (d, o) := Place(docs, p); d < |docs| && OccursAt(fold, docs[d], o, P)
  {
    var k :| 0 <= k < hi - lo && sa[lo..hi][k] == p;
    SearchedRow(fold, docs, ids, sigma, sa, P, lo, hi, lo + k);
  }

  lemma PlaceRow(fold: bool, docs: seq<Document>, ids: seq<int>, sigma: nat, sa: seq<nat>,
                 P: seq<Byte>, lo: nat, hi: nat, d: nat, o: nat) returns (p: nat)
    requires Layout(fold, docs, ids, sigma, sa) && P != [] && d < |docs| && OccursAt(fold, docs[d], o, P)
    requires Searched(docs, ids, sa, P, lo, hi)
    ensures p in multiset(sa[lo..hi]) && p < TextLength(docs) && Place(docs, p) == (d, o)
  {
    hide OccursAt;
    var row := SearchedFinds(fold, docs, ids, sigma, sa, P, lo, hi, d, o);
    p := sa[row];
    assert sa[lo..hi][row - lo] == p;
    DocOfUnique(docs, p, d);
  }

  lemma SearchedBounds(docs: seq<Document>, ids: seq<int>, sa: seq<nat>, P: seq<Byte>, lo: nat, hi: nat)
    requires |ids| == 256 && Searched(docs, ids, sa, P, lo, hi)
    ensures lo <= hi <= |sa|
    ensures P == [] ==> Exact(Text(ids, docs), sa, [], lo, hi)
  {}

  lemma NothingLocated(fold: bool, P: seq<Byte>)
    ensures Located(fold, [], P, [])
  {}

  lemma PairsSorted(s: seq<(nat, nat)>)
    requires PairsAscending(s)
    ensures SortPairs(s) == s
  {
    SortPairsFixed(s);
  }

  lemma RowsDistinct(sa: seq<nat>, lo: nat, hi: nat)
    requires IsPermutation(sa) && lo <= hi <= |sa|
    ensures Distinct(sa[lo..hi])
  {}

  // ----- matching documents -----

  /** The ascending list of the documents that satisfy a property. */
  ghost predicate DocList(docs: seq<Document>, has: nat -> bool, r: seq<nat>) {
    && Ascending(r)
    && (forall i :: 0 <= i < |r| ==> r[i] < |docs| && has(r[i]))
    && (forall d: nat :: d < |docs| && has(d) ==> d in r)
  }

  ghost function ContainsDoc(fold: bool, docs: seq<Document>, P: seq<Byte>): nat -> bool {
    (d: nat) => d < |docs| && Contains(fold, docs[d], P)
  }

  ghost function BeginsDoc(fold: bool, docs: seq<Document>, P: seq<Byte>): nat -> bool {
    (d: nat) => d < |docs| && BeginsWith(fold, docs[d], P)
  }

  ghost function EndsDoc(fold: bool, docs: seq<Document>, P: seq<Byte>): nat -> bool {
    (d: nat) => d < |docs| && EndsWith(fold, docs[d], P)
  }

  /** The number of documents below n with a property. */
  ghost function CountDocs(has: nat -> bool, n: nat): nat {
    if n == 0 then 0 else CountDocs(has, n - 1) + (if has(n - 1) then 1 else 0)
  }

  /** A document list has as many entries as there are such documents. */
  lemma DocListLength(docs: seq<Document>, has: nat -> bool, r: seq<nat>)
    requires DocList(docs, has, r)
    ensures |r| == CountDocs(has, |docs|)
  {
    ListLength(has, |docs|, r);
  }

  lemma {:induction false} AscendingBound(r: seq<nat>, n: nat)
    requires Ascending(r) && forall i :: 0 <= i < |r| ==> r[i] < n
    ensures |r| <= n
  {
    if r != [] {
      AscendingBound(r[..|r| - 1], r[|r| - 1]);
    }
  }

  lemma {:induction false} ListLength(has: nat -> bool, n: nat, r: seq<nat>)
    requires Ascending(r) && (forall i :: 0 <= i < |r| ==> r[i] < n && has(r[i]))
    requires forall d: nat :: d < n && has(d) ==> d in r
    ensures |r| == CountDocs(has, n)
  {
    AscendingBound(r, n);
    if n > 0 && has(n - 1) {
      var k :| 0 <= k < |r| && r[k] == n - 1;
      var last := |r| - 1;
      assert r[k] <= r[last];
      var init := r[..last];
      assert r == init + [n - 1];
      ListLength(has, n - 1, init);
    } else if n > 0 {
      ListLength(has, n - 1, r);
    }
  }

  /** Sorting and de-duplicating any listing of the right documents gives the document list. */
  lemma ListDocs(docs: seq<Document>, has: nat -> bool, ds: seq<nat>)
    requires forall i :: 0 <= i < |ds| ==> ds[i] < |docs| && has(ds[i])
    requires forall d: nat :: d < |docs| && has(d) ==> d in ds
    ensures DocList(docs, has, Unique(SortValues(ds)))
  {
    hide SortValues;
    SortedValues(ds);
    var s := SortValues(ds);
    UniqueAscending(s);
    var u := Unique(s);
    forall i | 0 <= i < |u|
      ensures u[i] < |docs| && has(u[i])
    {
      assert u[i] in u;
      assert u[i] in ds;
      var k :| 0 <= k < |ds| && ds[k] == u[i];
    }
    forall d: nat | d < |docs| && has(d)
      ensures d in u
    {
      assert d in s;
    }
  }

  /** The distinct documents of the located occurrences are the documents that contain the pattern. */
  lemma UniqueDocs(fold: bool, docs: seq<Document>, P: seq<Byte>, r: seq<(nat, nat)>, ds: seq<nat>)
    requires Located(fold, docs, P, r)
    requires |ds| == |r| && forall i :: 0 <= i < |r| ==> ds[i] == r[i].0
    ensures DocList(docs, ContainsDoc(fold, docs, P), Unique(ds))
  {
    hide OccursAt, Located, TotalOccurrences, Unique, SortedBy;
    LocatedOrder(fold, docs, P, r);
    ByValueSorted(ds);
    UniqueAscending(ds);
    var u := Unique(ds);
    forall i | 0 <= i < |u|
      ensures u[i] < |docs| && Contains(fold, docs[u[i]], P)
    {
      assert u[i] in u;
      var k :| 0 <= k < |ds| && ds[k] == u[i];
      LocatedEntry(fold, docs, P, r, k);
    }
    forall d: nat | d < |docs| && Contains(fold, docs[d], P)
      ensures d in u
    {
      var k := LocatedIndex(fold, docs, P, r, d);
      assert ds[k] == d;
    }
  }

  lemma ByValueSorted(s: seq<nat>)
    requires forall i, j :: 0 <= i < j < |s| ==> s[i] <= s[j]
    ensures SortedBy(s, BY_VALUE)
  {}

  lemma LocatedOrder(fold: bool, docs: seq<Document>, P: seq<Byte>, r: seq<(nat, nat)>)
    requires Located(fold, docs, P, r)
    ensures forall i, j :: 0 <= i < j < |r| ==> r[i].0 <= r[j].0
  {}

  lemma LocatedEntry(fold: bool, docs: seq<Document>, P: seq<Byte>, r: seq<(nat, nat)>, k: nat)
    requires Located(fold, docs, P, r) && k < |r|
    ensures r[k].0 < |docs| && Contains(fold, docs[r[k].0], P)
  {}

  lemma LocatedIndex(fold: bool, docs: seq<Document>, P: seq<Byte>, r: seq<(nat, nat)>, d: nat) returns (k: nat)
    requires Located(fold, docs, P, r) && d < |docs| && Contains(fold, docs[d], P)
    ensures k < |r| && r[k].0 == d
  {
    var o: nat :| OccursAt(fold, docs[d], o, P);
    assert (d, o) in r;
    k :| 0 <= k < |r| && r[k] == (d, o);
  }
}
