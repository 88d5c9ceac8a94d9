/** Documents containing a substring within a given edit distance of a pattern. */
module FuzzySearch {
  import opened Counting
  import opened Sorting
  import opened SuffixArrays
  import opened Corpus
  import opened TextMatches
  import opened QueryTheory
  import opened PlainText
  import opened EditDistance
  import opened EditChains
  import opened FuzzyTheory
  import opened FMIndexes

  // ----- what the search is for -----

  /** Some substring of doc, possibly empty, is within k edits of P after folding. */
  ghost predicate FuzzyContains(fold: bool, doc: Document, P: seq<Byte>, k: nat) {
    exists a: nat, b: nat :: a <= b <= |doc| && CloseSlice(fold, doc, a, b, P, k)
  }

  ghost predicate CloseSlice(fold: bool, doc: Document, a: nat, b: nat, P: seq<Byte>, k: nat)
    requires a <= b <= |doc|
  {
    Distance(FoldAll(fold, doc[a..b]), FoldAll(fold, P)) <= k
  }

  /** Some stretch of doc, possibly empty, becomes the pattern by at most k single edits, letters folded. */
  ghost predicate NearIn(fold: bool, doc: Document, P: seq<Byte>, k: nat) {
    exists a: nat, b: nat :: a <= b <= |doc| && NearSlice(fold, doc, a, b, P, k)
  }

  ghost predicate NearSlice(fold: bool, doc: Document, a: nat, b: nat, P: seq<Byte>, k: nat)
    requires a <= b <= |doc|
  {
    WithinEdits(FoldAll(fold, doc[a..b]), FoldAll(fold, P), k)
  }

  ghost function Near(fold: bool, docs: seq<Document>, P: seq<Byte>, k: nat): set<nat> {
    set d: nat | d < |docs| && NearIn(fold, docs[d], P, k)
  }

  lemma NearMeans(fold: bool, doc: Document, P: seq<Byte>, k: nat)
    ensures FuzzyContains(fold, doc, P, k) <==> NearIn(fold, doc, P, k)
  {
    hide Distance, WithinEdits;
    forall a: nat, b: nat | a <= b <= |doc|
      ensures CloseSlice(fold, doc, a, b, P, k) <==> NearSlice(fold, doc, a, b, P, k)
    {
      DistanceIsEdits(FoldAll(fold, doc[a..b]), FoldAll(fold, P), k);
    }
  }

  lemma NearListed(fold: bool, docs: seq<Document>, P: seq<Byte>, k: nat)
    ensures forall r :: DocList(docs, FuzzyDoc(fold, docs, P, k), r) ==> Lists(r, Near(fold, docs, P, k))
  {
    hide DocList, Lists, FuzzyContains, NearIn;
    forall d: nat | d < |docs|
      ensures FuzzyContains(fold, docs[d], P, k) <==> NearIn(fold, docs[d], P, k)
    {
      NearMeans(fold, docs[d], P, k);
    }
    forall r | DocList(docs, FuzzyDoc(fold, docs, P, k), r)
      ensures Lists(r, Near(fold, docs, P, k))
    {
      DocListMeans(docs, FuzzyDoc(fold, docs, P, k), r, Near(fold, docs, P, k));
    }
  }

  ghost function FuzzyDoc(fold: bool, docs: seq<Document>, P: seq<Byte>, k: nat): nat -> bool {
    (d: nat) => d < |docs| && FuzzyContains(fold, docs[d], P, k)
  }

  /** The pattern's ids, -1 where a byte occurs nowhere. */
  function PatternIds(ids: seq<int>, P: seq<Byte>): (r: seq<int>)
    requires |ids| == 256
    ensures |r| == |P| && forall i :: 0 <= i < |P| ==> r[i] == ids[P[i]]
  {
    seq(|P|, i requires 0 <= i < |P| => ids[P[i]])
  }

  /** Distances between document symbols and pattern ids are distances between folded bytes. */
  lemma SameDistance(fold: bool, docs: seq<Document>, ids: seq<int>, sigma: nat, d: nat, a: nat, b: nat, P: seq<Byte>)
    requires Alphabet(fold, docs, ids, sigma) && d < |docs| && a <= b <= |docs[d]|
    ensures Distance(Syms(ids, docs[d][a..b]), PatternIds(ids, P))
         == Distance(FoldAll(fold, docs[d][a..b]), FoldAll(fold, P))
  {
    hide Distance;
    var s := docs[d][a..b];
    forall i, j | 0 <= i < |s| && 0 <= j < |P|
      ensures Syms(ids, s)[i] == PatternIds(ids, P)[j] <==> FoldAll(fold, s)[i] == FoldAll(fold, P)[j]
    {
      SameCharacter(fold, docs, ids, sigma, d, a + i, P[j]);
    }
    DistanceRenamed(Syms(ids, s), PatternIds(ids, P), FoldAll(fold, s), FoldAll(fold, P));
  }

  lemma SameCharacter(fold: bool, docs: seq<Document>, ids: seq<int>, sigma: nat, d: nat, o: nat, x: Byte)
    requires Alphabet(fold, docs, ids, sigma) && d < |docs| && o < |docs[d]|
    ensures Sym(ids, docs[d][o]) == ids[x] <==> Fold(fold, docs[d][o]) == Fold(fold, x)
  {
    var y := docs[d][o];
    CorpusKnown(fold, docs, ids, sigma, d);
    IdRange(fold, docs, ids, sigma, x);
    assert ByteOccurs(fold, docs, Fold(fold, y));
    if ids[x] != -1 {
      IdsFaithful(fold, docs, ids, sigma, y, x);
    }
  }

  /** The search is over the index's transform. */
  ghost predicate Over(t: seq<nat>, sa: seq<nat>, fold: bool, docs: seq<Document>, ids: seq<int>, sigma: nat,
                       P: seq<Byte>, q: Problem)
  {
    && Layout(fold, docs, ids, sigma, sa) && |ids| == 256 && t == Text(ids, docs)
    && Setting(t, sa, q) && q.sigma == sigma && q.pat == PatternIds(ids, P)
  }

  /** d is the document of some row of some hit. */
  ghost predicate HitDoc(docs: seq<Document>, sa: seq<nat>, hits: seq<Interval>, d: nat) {
    exists h: Interval, r: nat :: h in hits && HitRow(docs, sa, h, r, d)
  }

  ghost predicate HitRow(docs: seq<Document>, sa: seq<nat>, h: Interval, r: nat, d: nat) {
    h.0 <= r < h.1 && r < |sa| && sa[r] < TextLength(docs) && DocOf(docs, sa[r]) == d
  }

  /** Soundness: a row of a recorded interval lies in a document with a close enough substring. */
  lemma HitIsClose(t: seq<nat>, sa: seq<nat>, fold: bool, docs: seq<Document>, ids: seq<int>, sigma: nat,
                   P: seq<Byte>, q: Problem, h: Interval, r: nat, d: nat)
    requires Over(t, sa, fold, docs, ids, sigma, P, q)
    requires SoundHit(t, sa, q, h) && HitRow(docs, sa, h, r, d)
    ensures d < |docs| && FuzzyContains(fold, docs[d], P, q.k)
  {
    hide Distance, DocStart, Setting;
    var W: seq<nat> :| Means(t, sa, q, W, h.0, h.1, 0, q.k);
    assert q.pat[0..] == q.pat;
    var o := sa[r] - DocStart(docs, d);
    if W == [] {
      SameDistance(fold, docs, ids, sigma, d, 0, 0, P);
      assert Syms(ids, docs[d][0..0]) == W;
      assert CloseSlice(fold, docs[d], 0, 0, P, q.k);
    } else {
      assert Matches(t, sa[r], W);
      ContentInDoc(ids, docs, sa[r], W);
      SameDistance(fold, docs, ids, sigma, d, o, o + |W|, P);
      assert CloseSlice(fold, docs[d], o, o + |W|, P, q.k);
    }
  }

  /** Completeness: a document with a close enough substring has a row in a recorded interval. */
  lemma CloseIsHit(t: seq<nat>, sa: seq<nat>, fold: bool, docs: seq<Document>, ids: seq<int>, sigma: nat,
                   P: seq<Byte>, q: Problem, m: Memo, d: nat)
    requires Over(t, sa, fold, docs, ids, sigma, P, q)
    requires Closed(q, m, {}) && Covered(m, 0, |sa|, |P|, 0)
    requires d < |docs| && FuzzyContains(fold, docs[d], P, q.k)
    ensures HitDoc(docs, sa, m.hits, d)
  {
    hide Distance, DocStart, Setting, Closed, Matches;
    var a: nat, b: nat :| a <= b <= |docs[d]| && CloseSlice(fold, docs[d], a, b, P, q.k);
    var S := Syms(ids, docs[d][a..b]);
    var p := DocStart(docs, d) + a;
    SameDistance(fold, docs, ids, sigma, d, a, b, P);
    ContentFromDoc(ids, docs, d, a, b - a);
    assert docs[d][a..a + (b - a)] == docs[d][a..b];
    KnownSlice(fold, docs, ids, sigma, d, a, b);
    KnownIsContent(fold, docs, ids, sigma, docs[d][a..b]);
    assert S + [] == S && q.pat[..|P|] == q.pat;
    ExactEmpty(t, sa);
    Reaches(t, sa, q, m, [], 0, |sa|, |P|, 0, S, p);
    var cut: nat, lo: nat, hi: nat :| cut <= |S| && (lo, hi) in m.hits && Exact(t, sa, S[cut..] + [], lo, hi);
    assert S[..cut] + (S[cut..] + []) == S;
    MatchesSuffix(t, p, S[..cut], S[cut..] + []);
    LayoutFacts(fold, docs, ids, sigma, sa);
    var r := Find(sa, p + cut);
    assert lo <= r < hi;
    DocOfUnique(docs, p + cut, d);
    assert HitRow(docs, sa, (lo, hi), r, d);
  }

  // ----- the depth-first search -----

  class FuzzyState {
    var hits: seq<Interval>
    var visited: map<Key, nat>

    constructor ()
      ensures hits == [] && visited == map[]
    {
      hits, visited := [], map[];
    }

    ghost function Now(): Memo
      reads this
    {
      Memo(hits, visited)
    }
  }

  lemma ExtendsWeaker(m1: Memo, m2: Memo, e: nat, e': nat)
    requires Extends(m1, m2, e') && e <= e'
    ensures Extends(m1, m2, e)
  {}

  lemma ExtendsSelf(m: Memo, e: nat)
    ensures Extends(m, m, e)
  {}

  /** The search invariant between calls: recorded hits are sound, and what is not open is expanded. */
  ghost predicate Sane(t: seq<nat>, sa: seq<nat>, q: Problem, m: Memo, open: set<Key>) {
    SoundHits(t, sa, q, m.hits) && Closed(q, m, open)
  }

  /** What a call leaves behind. */
  ghost predicate Explored(t: seq<nat>, sa: seq<nat>, q: Problem, before: Memo, after: Memo, open: set<Key>, e: nat) {
    Sane(t, sa, q, after, open) && Extends(before, after, e)
  }

  lemma ExploredTransitive(t: seq<nat>, sa: seq<nat>, q: Problem, m1: Memo, m2: Memo, m3: Memo, open: set<Key>,
                           e: nat, e1: nat, e2: nat)
    requires Explored(t, sa, q, m1, m2, open, e1) && Explored(t, sa, q, m2, m3, open, e2) && e <= e1 && e <= e2
    ensures Explored(t, sa, q, m1, m3, open, e)
  {}

  ghost predicate Searching(fm: FMIndex, q: Problem, P: seq<Byte>, k: nat)
    reads fm, fm.wm, fm.wm.qv, fm.sampled
  {
    && fm.Valid() && fm.c != []
    && Over(fm.Symbols(), fm.sa, fm.caseFold, fm.docs, fm.byteToId, fm.sigma, P, q)
    && q.b == fm.Transform() && q.k == k
  }

  lemma SearchingFacts(fm: FMIndex, q: Problem, P: seq<Byte>, k: nat)
    requires Searching(fm, q, P, k)
    ensures fm.Valid() && fm.c != [] && |fm.byteToId| == 256
    ensures Layout(fm.caseFold, fm.docs, fm.byteToId, fm.sigma, fm.sa)
    ensures Setting(fm.Symbols(), fm.sa, q) && q.b == fm.Transform() && |q.b| == |fm.sa|
    ensures q.k == k && q.sigma == fm.sigma && q.pat == PatternIds(fm.byteToId, P)
  {}

  /** Explores the state (lo, hi, i) entered with e errors. */
  method Dfs(fm: FMIndex, P: seq<Byte>, k: nat, st: FuzzyState, lo: nat, hi: nat, i: nat, e: nat,
             ghost q: Problem, ghost W: seq<nat>, ghost open: set<Key>)
    requires Searching(fm, q, P, k) && Means(fm.Symbols(), fm.sa, q, W, lo, hi, i, e)
    requires Sane(fm.Symbols(), fm.sa, q, st.Now(), open)
    modifies st
    ensures Explored(fm.Symbols(), fm.sa, q, old(st.Now()), st.Now(), open, e)
    ensures Covered(st.Now(), lo, hi, i, e)
    decreases i + (k - e), 2
  {
    hide Means, Searching, Closed, Distance, FMIndex.Valid;
    SearchingFacts(fm, q, P, k);
    MeansBounds(fm, q, P, k, W, lo, hi, i, e);
    ghost var before := st.Now();
    ExtendsSelf(before, e);
    if i == 0 {
      st.hits := st.hits + [(lo, hi)];
      RecordHit(fm.Symbols(), fm.sa, q, before, open, W, lo, hi, e);
      return;
    }
    var key := (lo, hi, i);
    if key in st.visited && st.visited[key] <= e {
      return;
    }
    st.visited := st.visited[key := e];
    OpenState(q, before, open, key, e);
    ghost var entered := st.Now();
    Expand(fm, P, k, st, lo, hi, i, e, q, W, open + {key});
    ExtendsTransitive(before, entered, st.Now(), e);
    StillAt(entered, st.Now(), key, e);
    CloseState(q, st.Now(), open, key);
  }

  lemma MeansBounds(fm: FMIndex, q: Problem, P: seq<Byte>, k: nat, W: seq<nat>, lo: nat, hi: nat, i: nat, e: nat)
    requires Searching(fm, q, P, k) && Means(fm.Symbols(), fm.sa, q, W, lo, hi, i, e)
    ensures i <= |q.pat| == |P| && e <= k && lo <= hi <= |fm.sa| == |q.b|
  {}

  lemma RecordHit(t: seq<nat>, sa: seq<nat>, q: Problem, m: Memo, open: set<Key>, W: seq<nat>, lo: nat, hi: nat, e: nat)
    requires Sane(t, sa, q, m, open) && Means(t, sa, q, W, lo, hi, 0, e)
    ensures var m' := m.(hits := m.hits + [(lo, hi)]);
            Explored(t, sa, q, m, m', open, e) && Covered(m', lo, hi, 0, e)
  {
    hide Distance, Exact;
    var m' := m.(hits := m.hits + [(lo, hi)]);
    assert Means(t, sa, q, W, lo, hi, 0, q.k);
    assert SoundHit(t, sa, q, (lo, hi));
    assert Extends(m, m', e);
    forall key | key in m'.visited && key !in open
      ensures Expanded(q, m', key.0, key.1, key.2, m'.visited[key])
    {
      ExpandedLater(q, m, m', e, key.0, key.1, key.2, m.visited[key]);
    }
  }

  /** Nothing below e errors was touched, so the state's own entry is still e. */
  lemma StillAt(m1: Memo, m2: Memo, key: Key, e: nat)
    requires Extends(m1, m2, e) && key in m1.visited && m1.visited[key] == e
    ensures key in m2.visited && m2.visited[key] == e
  {}

  /** Takes every edit step out of an entered state. */
  method Expand(fm: FMIndex, P: seq<Byte>, k: nat, st: FuzzyState, lo: nat, hi: nat, i: nat, e: nat,
                ghost q: Problem, ghost W: seq<nat>, ghost open: set<Key>)
    requires Searching(fm, q, P, k) && Means(fm.Symbols(), fm.sa, q, W, lo, hi, i, e) && 1 <= i
    requires Sane(fm.Symbols(), fm.sa, q, st.Now(), open)
    modifies st
    ensures Explored(fm.Symbols(), fm.sa, q, old(st.Now()), st.Now(), open, e)
    ensures Expanded(q, st.Now(), lo, hi, i, e)
    decreases i + (k - e), 1
  {
    hide Means, Searching, Sane, Distance, ExpandedBy, Extends, FMIndex.Valid;
    MeansBounds(fm, q, P, k, W, lo, hi, i, e);
    SearchingFacts(fm, q, P, k);
    ghost var before := st.Now();
    if e == k {
      ExactOnly(fm, P, k, st, lo, hi, i, e, q, W, open);
      return;
    }
    MeansDeletion(fm.Symbols(), fm.sa, q, W, lo, hi, i, e);
    Dfs(fm, P, k, st, lo, hi, i - 1, e + 1, q, W, open);
    ghost var deleted := st.Now();
    ExtendsWeaker(before, deleted, e, e + 1);
    ExploredSelf(fm.Symbols(), fm.sa, q, deleted, open, e);
    var d := 1;
    while d < fm.sigma
      invariant Searching(fm, q, P, k) && d >= 1
      invariant Explored(fm.Symbols(), fm.sa, q, deleted, st.Now(), open, e)
      invariant forall x: nat :: 2 <= x < d ==> ExpandedBy(q, st.Now(), lo, hi, i, e, x)
    {
      if d != 1 {
        ghost var m := st.Now();
        TakeSymbol(fm, P, k, st, lo, hi, i, e, d, q, W, open);
        ExploredTransitive(fm.Symbols(), fm.sa, q, deleted, m, st.Now(), open, e, e, e);
        forall x: nat | 2 <= x < d
          ensures ExpandedBy(q, st.Now(), lo, hi, i, e, x)
        {
          ExpandedByLater(q, m, st.Now(), e, lo, hi, i, e, x);
        }
      }
      d := d + 1;
    }
    CoveredLater(deleted, st.Now(), e, lo, hi, i - 1, e + 1);
    ExtendsTransitive(before, deleted, st.Now(), e);
  }

  lemma ExploredSelf(t: seq<nat>, sa: seq<nat>, q: Problem, m: Memo, open: set<Key>, e: nat)
    requires Sane(t, sa, q, m, open)
    ensures Explored(t, sa, q, m, m, open, e)
  {}

  /** With the budget spent only the matching symbol is followed. */
  method ExactOnly(fm: FMIndex, P: seq<Byte>, k: nat, st: FuzzyState, lo: nat, hi: nat, i: nat, e: nat,
                   ghost q: Problem, ghost W: seq<nat>, ghost open: set<Key>)
    requires Searching(fm, q, P, k) && Means(fm.Symbols(), fm.sa, q, W, lo, hi, i, e) && 1 <= i && e == k
    requires Sane(fm.Symbols(), fm.sa, q, st.Now(), open)
    modifies st
    ensures Explored(fm.Symbols(), fm.sa, q, old(st.Now()), st.Now(), open, e)
    ensures Expanded(q, st.Now(), lo, hi, i, e)
    decreases i + (k - e), 0
  {
    hide Means, Searching, Sane, Distance, Extends, FMIndex.Valid, Layout, Setting, Expanded, Covered;
    MeansBounds(fm, q, P, k, W, lo, hi, i, e);
    SearchingFacts(fm, q, P, k);
    ExploredSelf(fm.Symbols(), fm.sa, q, st.Now(), open, e);
    var tid := fm.byteToId[P[i - 1]];
    if tid >= 0 {
      PatternIdRange(fm.caseFold, fm.docs, fm.byteToId, fm.sigma, fm.sa, P[i - 1]);
      var nlo, nhi := fm.Step(tid, lo, hi);
      if nlo < nhi {
        MeansBoth(fm.Symbols(), fm.sa, q, W, lo, hi, i, e, tid);
        Dfs(fm, P, k, st, nlo, nhi, i - 1, e, q, [tid] + W, open);
      }
    }
    OnlyTheMatch(q, st.Now(), lo, hi, i, e);
  }

  /** With no budget left, covering the matching step is all there is to expand. */
  lemma OnlyTheMatch(q: Problem, m: Memo, lo: nat, hi: nat, i: nat, e: nat)
    requires lo <= hi <= |q.b| && 1 <= i <= |q.pat| && e == q.k
    requires q.pat[i - 1] >= 2 ==>
               var nlo, nhi := StepTo(q.b, q.pat[i - 1], lo), StepTo(q.b, q.pat[i - 1], hi);
               nlo < nhi ==> Covered(m, nlo, nhi, i - 1, e)
    ensures Expanded(q, m, lo, hi, i, e)
  {}

  lemma PatternIdRange(fold: bool, docs: seq<Document>, ids: seq<int>, sigma: nat, sa: seq<nat>, b: Byte)
    requires Layout(fold, docs, ids, sigma, sa) && |ids| == 256 && ids[b] >= 0
    ensures 2 <= ids[b] < sigma
  {
    IdRange(fold, docs, ids, sigma, b);
  }

  /** Follows one text symbol: a match or a substitution, then an insertion. */
  method TakeSymbol(fm: FMIndex, P: seq<Byte>, k: nat, st: FuzzyState, lo: nat, hi: nat, i: nat, e: nat, d: nat,
                    ghost q: Problem, ghost W: seq<nat>, ghost open: set<Key>)
    requires Searching(fm, q, P, k) && Means(fm.Symbols(), fm.sa, q, W, lo, hi, i, e)
    requires 1 <= i <= |P| && e < k && 2 <= d < fm.sigma && lo <= hi <= |q.b|
    requires Sane(fm.Symbols(), fm.sa, q, st.Now(), open)
    modifies st
    ensures Explored(fm.Symbols(), fm.sa, q, old(st.Now()), st.Now(), open, e)
    ensures i <= |q.pat| && ExpandedBy(q, st.Now(), lo, hi, i, e, d)
    decreases i + (k - e), 0
  {
    hide Means, Searching, Sane, Distance, Extends, FMIndex.Valid, Layout, Setting;
    SearchingFacts(fm, q, P, k);
    ghost var before := st.Now();
    ExploredSelf(fm.Symbols(), fm.sa, q, before, open, e);
    var tid := fm.byteToId[P[i - 1]];
    var nlo, nhi := fm.Step(d, lo, hi);
    if nlo >= nhi {
      return;
    }
    MeansBoth(fm.Symbols(), fm.sa, q, W, lo, hi, i, e, d);
    ghost var cost := if tid == d then e else e + 1;
    if tid >= 0 && tid == d {
      Dfs(fm, P, k, st, nlo, nhi, i - 1, e, q, [d] + W, open);
    } else {
      Dfs(fm, P, k, st, nlo, nhi, i - 1, e + 1, q, [d] + W, open);
    }
    ghost var middle := st.Now();
    MeansInsertion(fm.Symbols(), fm.sa, q, W, lo, hi, i, e, d);
    Dfs(fm, P, k, st, nlo, nhi, i, e + 1, q, [d] + W, open);
    CoveredLater(middle, st.Now(), e + 1, nlo, nhi, i - 1, cost);
    ExploredTransitive(fm.Symbols(), fm.sa, q, before, middle, st.Now(), open, e, cost, e + 1);
  }

  // ----- from intervals to documents -----

  /** The rows seen so far determine the documents collected so far. */
  ghost predicate Collected(docs: seq<Document>, sa: seq<nat>, seen: set<nat>, found: set<nat>) {
    && (forall r :: r in seen && r < |sa| && sa[r] < TextLength(docs) ==> DocOf(docs, sa[r]) in found)
    && (forall d :: d in found ==>
          exists r :: r in seen && r < |sa| && sa[r] < TextLength(docs) && DocOf(docs, sa[r]) == d)
  }

  lemma CollectMore(docs: seq<Document>, sa: seq<nat>, seen: set<nat>, found: set<nat>, r: nat)
    requires Collected(docs, sa, seen, found) && r < |sa|
    ensures Collected(docs, sa, seen + {r}, if sa[r] < TextLength(docs) then found + {DocOf(docs, sa[r])} else found)
  {}

  /** Adds the documents of one interval's rows, skipping rows another interval already resolved. */
  method CollectRows(fm: FMIndex, h: Interval, seen0: set<nat>, found0: set<nat>)
    returns (seen: set<nat>, found: set<nat>)
    requires fm.Valid() && fm.c != [] && h.0 <= h.1 <= |fm.sa| && Collected(fm.docs, fm.sa, seen0, found0)
    ensures Collected(fm.docs, fm.sa, seen, found)
    ensures forall r :: r in seen <==> r in seen0 || h.0 <= r < h.1
  {
    hide FMIndex.Built, Collected;
    seen, found := seen0, found0;
    var r := h.0;
    fm.LayoutSize();
    TextLengthOf(fm);
    while r < h.1
      invariant h.0 <= r <= h.1 && Collected(fm.docs, fm.sa, seen, found)
      invariant forall x :: x in seen <==> x in seen0 || h.0 <= x < r
    {
      if r !in seen {
        CollectMore(fm.docs, fm.sa, seen, found, r);
        seen := seen + {r};
        var pos, _ := fm.LocateRow(r);
        if pos < fm.textLen {
          var d := fm.DocumentOf(pos);
          found := found + {d};
        }
      }
      r := r + 1;
    }
  }

  lemma TextLengthOf(fm: FMIndex)
    requires fm.Valid() && fm.c != []
    ensures fm.textLen == TextLength(fm.docs)
  {}

  /** The documents of all recorded intervals. */
  method Collect(fm: FMIndex, hits: seq<Interval>) returns (found: set<nat>)
    requires fm.Valid() && fm.c != [] && forall h :: h in hits ==> h.0 <= h.1 <= |fm.sa|
    ensures forall d: nat :: d in found <==> HitDoc(fm.docs, fm.sa, hits, d)
  {
    hide FMIndex.Valid, Collected;
    var seen: set<nat> := {};
    found := {};
    NothingCollected(fm.docs, fm.sa);
    var i := 0;
    while i < |hits|
      invariant 0 <= i <= |hits| && fm.Valid() && fm.c != [] && Collected(fm.docs, fm.sa, seen, found)
      invariant RowsOf(hits, i, seen)
    {
      ghost var seen0 := seen;
      assert hits[i] in hits;
      seen, found := CollectRows(fm, hits[i], seen, found);
      RowsOfNext(hits, i, seen0, seen);
      i := i + 1;
    }
    CollectedAll(fm.docs, fm.sa, hits, seen, found);
  }

  lemma NothingCollected(docs: seq<Document>, sa: seq<nat>)
    ensures Collected(docs, sa, {}, {})
  {}

  /** seen holds exactly the rows of the first n intervals. */
  ghost predicate RowsOf(hits: seq<Interval>, n: nat, seen: set<nat>)
    requires n <= |hits|
  {
    && (forall j, r :: 0 <= j < n && hits[j].0 <= r < hits[j].1 ==> r in seen)
    && (forall r :: r in seen ==> exists j :: 0 <= j < n && hits[j].0 <= r < hits[j].1)
  }

  lemma RowsOfNext(hits: seq<Interval>, n: nat, seen: set<nat>, seen': set<nat>)
    requires n < |hits| && RowsOf(hits, n, seen)
    requires forall r :: r in seen' <==> r in seen || hits[n].0 <= r < hits[n].1
    ensures RowsOf(hits, n + 1, seen')
  {}

  lemma CollectedAll(docs: seq<Document>, sa: seq<nat>, hits: seq<Interval>, seen: set<nat>, found: set<nat>)
    requires Collected(docs, sa, seen, found) && RowsOf(hits, |hits|, seen)
    ensures forall d: nat :: d in found <==> HitDoc(docs, sa, hits, d)
  {
    hide DocStart;
    forall d: nat
      ensures d in found <==> HitDoc(docs, sa, hits, d)
    {
      if d in found {
        var r :| r in seen && r < |sa| && sa[r] < TextLength(docs) && DocOf(docs, sa[r]) == d;
        var j :| 0 <= j < |hits| && hits[j].0 <= r < hits[j].1;
        assert hits[j] in hits && HitRow(docs, sa, hits[j], r, d);
      }
      if HitDoc(docs, sa, hits, d) {
        var h: Interval, r: nat :| h in hits && HitRow(docs, sa, h, r, d);
        var j :| 0 <= j < |hits| && hits[j] == h;
        assert r in seen;
      }
    }
  }

  /** The documents with a substring within k edits of the pattern: ascending, complete, nothing else. */
  method FuzzyMatchingDocs(fm: FMIndex, P: seq<Byte>, k: nat) returns (r: seq<nat>)
    requires fm.Valid()
    ensures P == [] ==> r == []
    ensures P != [] ==> DocList(fm.docs, FuzzyDoc(fm.caseFold, fm.docs, P, k), r)
    ensures P != [] ==> Lists(r, Near(fm.caseFold, fm.docs, P, k))
  {
    hide Lists, Near;
    NearListed(fm.caseFold, fm.docs, P, k);
    if fm.c == [] || P == [] {
      return [];
    }
    ghost var q, hits, found;
    r, q, hits, found := FuzzySearchAll(fm, P, k);
    FoundAreFuzzy(fm.Symbols(), fm.sa, fm.caseFold, fm.docs, fm.byteToId, fm.sigma, P, q, hits, r, k);
  }

  /** Runs the search from the whole text and lists the documents it reaches. */
  method FuzzySearchAll(fm: FMIndex, P: seq<Byte>, k: nat)
    returns (r: seq<nat>, ghost q: Problem, ghost m: Memo, ghost found: set<nat>)
    requires fm.Valid() && fm.c != []
    ensures |fm.byteToId| == 256
    ensures Over(fm.Symbols(), fm.sa, fm.caseFold, fm.docs, fm.byteToId, fm.sigma, P, q) && q.k == k
    ensures Sane(fm.Symbols(), fm.sa, q, m, {}) && Covered(m, 0, |fm.sa|, |P|, 0)
    ensures Ascending(r) && forall d: nat :: d in r <==> HitDoc(fm.docs, fm.sa, m.hits, d)
  {
    hide FMIndex.Built, Means, Sane, HitDoc;
    fm.LayoutSize();
    q := Problem(fm.Transform(), fm.sigma, PatternIds(fm.byteToId, P), k);
    assert Searching(fm, q, P, k) by { SetUp(fm, q, P, k); }
    AtRoot(fm.Symbols(), fm.sa, q);
    var st := new FuzzyState();
    Dfs(fm, P, k, st, 0, fm.textLen + 1, |P|, 0, q, [], {});
    m := st.Now();
    HitBounds(fm.Symbols(), fm.sa, q, m);
    var docset := Collect(fm, st.hits);
    found := docset;
    r := Listed(docset);
  }

  lemma SetUp(fm: FMIndex, q: Problem, P: seq<Byte>, k: nat)
    requires fm.Valid() && fm.c != [] && |fm.byteToId| == 256
    requires q == Problem(fm.Transform(), fm.sigma, PatternIds(fm.byteToId, P), k)
    ensures Searching(fm, q, P, k)
  {
    hide Text;
    fm.LayoutSize();
    CorpusIsText(fm.caseFold, fm.docs, fm.byteToId, fm.sigma);
  }

  /** The empty word, every row, the whole pattern still to match, no errors. */
  lemma AtRoot(t: seq<nat>, sa: seq<nat>, q: Problem)
    requires IsSuffixArray(t, sa)
    ensures Means(t, sa, q, [], 0, |sa|, |q.pat|, 0)
    ensures Sane(t, sa, q, Memo([], map[]), {})
  {}

  lemma HitBounds(t: seq<nat>, sa: seq<nat>, q: Problem, m: Memo)
    requires Sane(t, sa, q, m, {})
    ensures forall h :: h in m.hits ==> h.0 <= h.1 <= |sa|
  {}

  lemma FoundAreFuzzy(t: seq<nat>, sa: seq<nat>, fold: bool, docs: seq<Document>, ids: seq<int>, sigma: nat,
                      P: seq<Byte>, q: Problem, m: Memo, r: seq<nat>, k: nat)
    requires Over(t, sa, fold, docs, ids, sigma, P, q) && q.k == k
    requires Sane(t, sa, q, m, {}) && Covered(m, 0, |sa|, |P|, 0)
    requires Ascending(r) && forall d: nat :: d in r <==> HitDoc(docs, sa, m.hits, d)
    ensures DocList(docs, FuzzyDoc(fold, docs, P, k), r)
  {
    hide Over, FuzzyContains, SoundHit, Closed, HitRow, Covered;
    forall i | 0 <= i < |r|
      ensures r[i] < |docs| && FuzzyContains(fold, docs[r[i]], P, k)
    {
      assert r[i] in r;
      var h: Interval, row: nat :| h in m.hits && HitRow(docs, sa, h, row, r[i]);
      HitIsClose(t, sa, fold, docs, ids, sigma, P, q, h, row, r[i]);
    }
    forall d: nat | d < |docs| && FuzzyContains(fold, docs[d], P, k)
      ensures d in r
    {
      CloseIsHit(t, sa, fold, docs, ids, sigma, P, q, m, d);
    }
  }

  /** With no edits allowed the fuzzy search is the exact one; with as many as the pattern is long, it lists
      every document. */
  lemma FuzzyExtremes(fold: bool, doc: Document, P: seq<Byte>)
    ensures FuzzyContains(fold, doc, P, 0) <==> Contains(fold, doc, P)
    ensures FuzzyContains(fold, doc, P, |P|)
  {
    forall a: nat, b: nat | a <= b <= |doc|
      ensures CloseSlice(fold, doc, a, b, P, 0) <==> b == a + |P| && OccursAt(fold, doc, a, P)
    {
      DistanceZero(FoldAll(fold, doc[a..b]), FoldAll(fold, P));
      if FoldAll(fold, doc[a..b]) == FoldAll(fold, P) {
        assert b - a == |FoldAll(fold, doc[a..b])|;
      }
    }
    if Contains(fold, doc, P) {
      var o: nat :| OccursAt(fold, doc, o, P);
      assert CloseSlice(fold, doc, o, o + |P|, P, 0);
    }
    assert CloseSlice(fold, doc, 0, 0, P, |P|) by {
      assert FoldAll(fold, doc[0..0]) == [];
    }
  }

  /** A larger budget never loses a document. */
  lemma FuzzyMonotone(fold: bool, doc: Document, P: seq<Byte>, j: nat, k: nat)
    requires j <= k && FuzzyContains(fold, doc, P, j)
    ensures FuzzyContains(fold, doc, P, k)
  {
    var a: nat, b: nat :| a <= b <= |doc| && CloseSlice(fold, doc, a, b, P, j);
    assert CloseSlice(fold, doc, a, b, P, k);
  }
}
