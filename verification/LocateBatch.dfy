/** Locating many patterns at once: every occurrence row becomes a walk, and walks step together in tiles. */
module LocateBatches {
  import opened Counting
  import opened Sorting
  import opened SuffixArrays
  import opened Corpus
  import opened QueryTheory
  import opened PlainText
  import opened Construction
  import opened FMIndexes
  import opened Extraction

  /** One occurrence on its way to a sampled row; once done, pos is its text position. */
  datatype Walk = Walk(row: nat, steps: nat, q: nat, pos: nat, done: bool)

  /** The text positions of query q's first n walks, in order. */
  ghost function Positions(sa: seq<nat>, walks: seq<Walk>, q: nat, n: nat): seq<nat>
    requires n <= |walks| && forall g :: 0 <= g < |walks| ==> walks[g].row < |sa|
  {
    if n == 0 then []
    else Positions(sa, walks, q, n - 1) + if walks[n - 1].q == q then [sa[walks[n - 1].row]] else []
  }

  // ----- one walk per occurrence row -----

  /** Walks of the rows [lo, hi) of query q. */
  function Run(lo: nat, hi: nat, q: nat): (r: seq<Walk>)
    requires lo <= hi
    ensures |r| == hi - lo && forall i :: 0 <= i < |r| ==> r[i] == Walk(lo + i, 0, q, 0, false)
  {
    seq(hi - lo, i requires 0 <= i < hi - lo => Walk(lo + i, 0, q, 0, false))
  }

  lemma PositionsStep(sa: seq<nat>, walks: seq<Walk>, q: nat, n: nat)
    requires n < |walks| && forall g :: 0 <= g < |walks| ==> walks[g].row < |sa|
    ensures Positions(sa, walks, q, n + 1)
         == Positions(sa, walks, q, n) + if walks[n].q == q then [sa[walks[n].row]] else []
  {}

  lemma Grow(a: seq<nat>, s: seq<nat>, lo: nat, n: nat)
    requires lo + n < |s|
    ensures a + s[lo..lo + n] + [s[lo + n]] == a + s[lo..lo + (n + 1)]
  {}

  lemma {:induction false} RunPositions(sa: seq<nat>, walks: seq<Walk>, lo: nat, hi: nat, q: nat, p: nat, n: nat)
    requires lo <= hi <= |sa| && n <= hi - lo && forall g :: 0 <= g < |walks| ==> walks[g].row < |sa|
    ensures Positions(sa, walks + Run(lo, hi, q), p, |walks| + n)
         == Positions(sa, walks, p, |walks|) + if p == q then sa[lo..lo + n] else []
  {
    hide Run, Positions;
    var more := walks + Run(lo, hi, q);
    if n > 0 {
      RunPositions(sa, walks, lo, hi, q, p, n - 1);
      PositionsStep(sa, more, p, |walks| + (n - 1));
      assert more[|walks| + (n - 1)] == Run(lo, hi, q)[n - 1];
      Grow(Positions(sa, walks, p, |walks|), sa, lo, n - 1);
    } else {
      PositionsPrefix(sa, walks, more, p, |walks|);
    }
  }

  /** Only the origins of the first n walks matter. */
  lemma {:induction false} PositionsPrefix(sa: seq<nat>, a: seq<Walk>, b: seq<Walk>, q: nat, n: nat)
    requires n <= |a| && n <= |b| && forall g :: 0 <= g < n ==> a[g] == b[g]
    requires (forall g :: 0 <= g < |a| ==> a[g].row < |sa|) && (forall g :: 0 <= g < |b| ==> b[g].row < |sa|)
    ensures Positions(sa, a, q, n) == Positions(sa, b, q, n)
  {
    if n > 0 {
      PositionsPrefix(sa, a, b, q, n - 1);
    }
  }

  /** Query q searched: its interval, or nothing for an empty pattern. */
  ghost predicate QueryOk(fm: FMIndex, P: seq<Byte>, lo: nat, hi: nat)
    requires |fm.byteToId| == 256
    reads fm
  {
    if P == [] then lo == hi == 0
    else Searched(fm.docs, fm.byteToId, fm.sa, P, lo, hi)
  }

  /** No query beyond the 32-bit tags has a row to walk. */
  ghost predicate Quiet(los: seq<nat>, his: seq<nat>, n: nat)
    requires n <= |los| && n <= |his|
  {
    forall q :: TWO32 <= q < n ==> los[q] == his[q]
  }

  /** The positions found under tag q: those of query q's interval while no tag is shared, none without such a tag. */
  ghost predicate Tagged(sa: seq<nat>, los: seq<nat>, his: seq<nat>, walks: seq<Walk>, q: nat)
    requires |los| == |his| && forall g :: 0 <= g < |walks| ==> walks[g].row < |sa|
    requires forall p :: 0 <= p < |los| ==> los[p] <= his[p] <= |sa|
  {
    && (q < |los| && Quiet(los, his, |los|) ==> Positions(sa, walks, q, |walks|) == sa[los[q]..his[q]])
    && (q >= |los| || q >= TWO32 ==> Positions(sa, walks, q, |walks|) == [])
  }

  /** The walks of the first n queries: exactly the rows of their intervals while no wrapped tag mixes two queries. */
  ghost predicate Enqueued(fm: FMIndex, pats: seq<seq<Byte>>, los: seq<nat>, his: seq<nat>, walks: seq<Walk>, n: nat)
    requires |fm.byteToId| == 256
    reads fm
  {
    && |los| == |his| == n <= |pats|
    && (forall g :: 0 <= g < |walks| ==> Waiting(fm.sa, walks[g]) && walks[g].q < n)
    && (forall g :: 0 <= g < |walks| ==> fm.sa[walks[g].row] < fm.textLen)
    && (forall q :: 0 <= q < n ==> QueryOk(fm, pats[q], los[q], his[q]) && los[q] <= his[q] <= |fm.sa|)
    && forall q: nat :: Tagged(fm.sa, los, his, walks, q)
  }

  ghost predicate Waiting(sa: seq<nat>, w: Walk) {
    w.row < |sa| && w.steps == 0 && !w.done
  }

  method Enqueue(fm: FMIndex, pats: seq<seq<Byte>>) returns (walks: seq<Walk>, ghost los: seq<nat>, ghost his: seq<nat>)
    requires fm.Valid() && fm.c != []
    ensures |fm.byteToId| == 256 && Enqueued(fm, pats, los, his, walks, |pats|)
  {
    hide FMIndex.Built, Layout, Searched, Enqueued;
    fm.LayoutSize();
    walks, los, his := [], [], [];
    NothingEnqueued(fm, pats);
    var q := 0;
    while q < |pats|
      invariant 0 <= q <= |pats| && Enqueued(fm, pats, los, his, walks, q)
    {
      var lo: nat, hi: nat := 0, 0;
      if pats[q] != [] {
        lo, hi := fm.BackwardSearch(pats[q]);
      }
      EnqueueRun(fm, pats, los, his, walks, q, lo, hi);
      walks := walks + Run(lo, hi, q % TWO32);
      los, his := los + [lo], his + [hi];
      q := q + 1;
    }
  }

  lemma NothingEnqueued(fm: FMIndex, pats: seq<seq<Byte>>)
    requires |fm.byteToId| == 256
    ensures Enqueued(fm, pats, [], [], [], 0)
  {}

  lemma EnqueueRun(fm: FMIndex, pats: seq<seq<Byte>>, los: seq<nat>, his: seq<nat>, walks: seq<Walk>, q: nat, lo: nat,
                   hi: nat)
    requires fm.Valid() && fm.c != [] && |fm.byteToId| == 256 && q < |pats|
    requires Enqueued(fm, pats, los, his, walks, q) && QueryOk(fm, pats[q], lo, hi)
    ensures lo <= hi && Enqueued(fm, pats, los + [lo], his + [hi], walks + Run(lo, hi, q % TWO32), q + 1)
  {
    hide FMIndex.Built, Layout, QueryOk, Tagged;
    fm.LayoutSize();
    IntervalInText(fm, pats[q], lo, hi);
    forall p: nat
      ensures Tagged(fm.sa, los + [lo], his + [hi], walks + Run(lo, hi, q % TWO32), p)
    {
      RunTagged(fm.sa, los, his, walks, lo, hi, p);
    }
  }

  /** What the walks of one more query do to the positions under a tag. */
  lemma RunTagged(sa: seq<nat>, los: seq<nat>, his: seq<nat>, walks: seq<Walk>, lo: nat, hi: nat, p: nat)
    requires |los| == |his| && lo <= hi <= |sa| && forall g :: 0 <= g < |walks| ==> walks[g].row < |sa|
    requires forall p :: 0 <= p < |los| ==> los[p] <= his[p] <= |sa|
    requires Tagged(sa, los, his, walks, p)
    ensures Tagged(sa, los + [lo], his + [hi], walks + Run(lo, hi, |los| % TWO32), p)
  {
    hide Positions, Quiet, Run;
    QuietStep(los, his, |los|, lo, hi);
    RunPositions(sa, walks, lo, hi, |los| % TWO32, p, hi - lo);
  }

  /** One more query stays quiet when it has a tag of its own or no row. */
  lemma QuietStep(los: seq<nat>, his: seq<nat>, q: nat, lo: nat, hi: nat)
    requires |los| == |his| == q
    ensures Quiet(los + [lo], his + [hi], q + 1) ==> Quiet(los, his, q) && (q >= TWO32 ==> lo == hi)
  {
    if Quiet(los + [lo], his + [hi], q + 1) {
      forall p | TWO32 <= p < q
        ensures los[p] == his[p]
      {
        assert (los + [lo])[p] == (his + [hi])[p];
      }
      assert q >= TWO32 ==> (los + [lo])[q] == (his + [hi])[q];
    }
  }

  lemma IntervalInText(fm: FMIndex, P: seq<Byte>, lo: nat, hi: nat)
    requires fm.Valid() && fm.c != [] && |fm.byteToId| == 256 && QueryOk(fm, P, lo, hi)
    ensures lo <= hi <= |fm.sa| && forall r :: lo <= r < hi ==> fm.sa[r] < fm.textLen
  {
    hide Layout, Searched;
    fm.LayoutSize();
    if P != [] {
      SearchedBounds(fm.docs, fm.byteToId, fm.sa, P, lo, hi);
      forall r | lo <= r < hi
        ensures fm.sa[r] < fm.textLen
      {
        SearchedRow(fm.caseFold, fm.docs, fm.byteToId, fm.sigma, fm.sa, P, lo, hi, r);
      }
    }
  }

  // ----- walking in lock step -----

  /** A walk has taken its steps from where it started, and knows its position once done. */
  ghost predicate OnPath(sa: seq<nat>, start: Walk, w: Walk) {
    && start.row < |sa| && w.row < |sa| && w.q == start.q
    && sa[w.row] + w.steps == sa[start.row]
    && (w.done ==> w.pos == sa[start.row])
  }

  ghost predicate AllOnPath(sa: seq<nat>, starts: seq<Walk>, walks: seq<Walk>) {
    |starts| == |walks| && forall g :: 0 <= g < |walks| ==> OnPath(sa, starts[g], walks[g])
  }

  /** Steps an unfinished walk can still take without running out of text. */
  ghost function Left(sa: seq<nat>, w: Walk): nat {
    if w.done || w.row >= |sa| then 0 else sa[w.row] + 1
  }

  ghost function Work(sa: seq<nat>, walks: seq<Walk>): nat {
    if walks == [] then 0 else Work(sa, walks[..|walks| - 1]) + Left(sa, walks[|walks| - 1])
  }

  lemma {:induction false} WorkUpdate(sa: seq<nat>, walks: seq<Walk>, g: nat, x: Walk)
    requires g < |walks|
    ensures Work(sa, walks[g := x]) + Left(sa, walks[g]) == Work(sa, walks) + Left(sa, x)
  {
    var n := |walks| - 1;
    if g < n {
      assert walks[g := x][..n] == walks[..n][g := x];
      WorkUpdate(sa, walks[..n], g, x);
    } else {
      assert walks[g := x][..n] == walks[..n];
    }
  }

  /** The unfinished walks of [t0, t) are pending, and none of them is on a sampled row. */
  ghost predicate Pending(sa: seq<nat>, rate: nat, walks: seq<Walk>, t0: nat, t: nat, pend: seq<nat>)
    requires rate > 0
  {
    && t0 <= t <= |walks|
    && (forall i, j :: 0 <= i < j < |pend| ==> pend[i] < pend[j])
    && (forall j :: 0 <= j < |pend| ==>
          t0 <= pend[j] < t && walks[pend[j]].row < |sa| && !walks[pend[j]].done && sa[walks[pend[j]].row] % rate != 0)
    && (forall g :: t0 <= g < t && !walks[g].done ==> g in pend)
  }

  /** Finished walks stay as they are. */
  predicate Kept(a: seq<Walk>, b: seq<Walk>) {
    |a| == |b| && forall g :: 0 <= g < |a| && a[g].done ==> b[g] == a[g]
  }

  method Collect(fm: FMIndex, starts: seq<Walk>, walks0: seq<Walk>, t0: nat, t1: nat)
    returns (walks: seq<Walk>, pend: seq<nat>)
    requires fm.Valid() && fm.c != [] && fm.saSampleRate > 0
    requires AllOnPath(fm.sa, starts, walks0) && t0 <= t1 <= |walks0|
    ensures AllOnPath(fm.sa, starts, walks) && Kept(walks0, walks) && Work(fm.sa, walks) <= Work(fm.sa, walks0)
    ensures Pending(fm.sa, fm.saSampleRate, walks, t0, t1, pend)
  {
    hide FMIndex.Built, Work;
    walks, pend := walks0, [];
    var g := t0;
    while g < t1
      invariant t0 <= g <= t1 && |walks| == |walks0|
      invariant AllOnPath(fm.sa, starts, walks) && Kept(walks0, walks) && Work(fm.sa, walks) <= Work(fm.sa, walks0)
      invariant Pending(fm.sa, fm.saSampleRate, walks, t0, g, pend)
    {
      if !walks[g].done {
        var flag, val := SampledPosition(fm, walks[g].row);
        if flag {
          var next := walks[g].(pos := val + walks[g].steps, done := true);
          WorkUpdate(fm.sa, walks, g, next);
          walks := walks[g := next];
        } else {
          pend := pend + [g];
        }
      }
      g := g + 1;
    }
  }

  method Advance(fm: FMIndex, starts: seq<Walk>, walks0: seq<Walk>, t0: nat, t1: nat, pend: seq<nat>)
    returns (walks: seq<Walk>)
    requires fm.Valid() && fm.c != [] && fm.saSampleRate > 0
    requires AllOnPath(fm.sa, starts, walks0) && Pending(fm.sa, fm.saSampleRate, walks0, t0, t1, pend)
    ensures AllOnPath(fm.sa, starts, walks) && Kept(walks0, walks)
    ensures Work(fm.sa, walks) + |pend| <= Work(fm.sa, walks0)
  {
    hide FMIndex.Built, Work;
    walks := walks0;
    var j := 0;
    while j < |pend|
      invariant 0 <= j <= |pend| && |walks| == |walks0|
      invariant AllOnPath(fm.sa, starts, walks) && Kept(walks0, walks)
      invariant Work(fm.sa, walks) + j <= Work(fm.sa, walks0)
      invariant forall i :: j <= i < |pend| ==> walks[pend[i]] == walks0[pend[i]]
    {
      var g := pend[j];
      StepBelow(fm.sa[walks[g].row], fm.saSampleRate);
      var row := fm.LF(walks[g].row);
      var next := walks[g].(row := row, steps := walks[g].steps + 1);
      WorkUpdate(fm.sa, walks, g, next);
      walks := walks[g := next];
      j := j + 1;
    }
  }

  /** Rounds of a tile until every walk of it has found its position. */
  method WalkTile(fm: FMIndex, starts: seq<Walk>, walks0: seq<Walk>, t0: nat, t1: nat) returns (walks: seq<Walk>)
    requires fm.Valid() && fm.c != [] && fm.saSampleRate > 0
    requires AllOnPath(fm.sa, starts, walks0) && t0 <= t1 <= |walks0|
    ensures AllOnPath(fm.sa, starts, walks) && Kept(walks0, walks)
    ensures forall g :: t0 <= g < t1 ==> walks[g].done
  {
    hide FMIndex.Built, Work, AllOnPath;
    assert |walks0| == |starts| by { SameLength(fm.sa, starts, walks0); }
    walks := walks0;
    while true
      invariant AllOnPath(fm.sa, starts, walks) && Kept(walks0, walks)
      decreases Work(fm.sa, walks)
    {
      var found, pend := Collect(fm, starts, walks, t0, t1);
      walks := found;
      if pend == [] {
        return;
      }
      walks := Advance(fm, starts, walks, t0, t1, pend);
    }
  }

  lemma SameLength(sa: seq<nat>, starts: seq<Walk>, walks: seq<Walk>)
    requires AllOnPath(sa, starts, walks)
    ensures |walks| == |starts|
  {}

  /** Every walk followed to its text position. */
  method WalkAll(fm: FMIndex, starts: seq<Walk>) returns (walks: seq<Walk>)
    requires fm.Valid() && fm.c != [] && fm.saSampleRate > 0
    requires forall g :: 0 <= g < |starts| ==> Waiting(fm.sa, starts[g])
    ensures AllOnPath(fm.sa, starts, walks) && forall g :: 0 <= g < |walks| ==> walks[g].done
  {
    hide FMIndex.Built;
    walks := starts;
    var t0 := 0;
    while t0 < |walks|
      invariant 0 <= t0 <= |walks| && AllOnPath(fm.sa, starts, walks)
      invariant forall g :: 0 <= g < t0 ==> walks[g].done
    {
      var t1 := if |walks| - t0 < TILE then |walks| else t0 + TILE;
      walks := WalkTile(fm, starts, walks, t0, t1);
      t0 := t1;
    }
  }

  // ----- distributing positions to their queries -----

  method Distribute(fm: FMIndex, ghost starts: seq<Walk>, walks: seq<Walk>, B: nat) returns (perQuery: seq<seq<nat>>)
    requires AllOnPath(fm.sa, starts, walks) && forall g :: 0 <= g < |walks| ==> walks[g].done && walks[g].q < B
    requires forall g :: 0 <= g < |starts| ==> fm.sa[starts[g].row] < fm.textLen
    ensures |perQuery| == B && forall q: nat :: q < B ==> perQuery[q] == Positions(fm.sa, starts, q, |starts|)
  {
    perQuery := seq(B, _ => []);
    var g := 0;
    while g < |walks|
      invariant 0 <= g <= |walks| && |perQuery| == B
      invariant forall q: nat :: q < B ==> perQuery[q] == Positions(fm.sa, starts, q, g)
    {
      assert OnPath(fm.sa, starts[g], walks[g]);
      if walks[g].done && walks[g].pos < fm.textLen {
        perQuery := perQuery[walks[g].q := perQuery[walks[g].q] + [walks[g].pos]];
      }
      g := g + 1;
    }
  }

  /** What locating a pattern alone gives. */
  ghost predicate Answers(fm: FMIndex, P: seq<Byte>, r: seq<(nat, nat)>)
    reads fm
  {
    if P == [] then r == [] else ListsSpots(fm.caseFold, fm.docs, P, r)
  }

  /** No pattern beyond the 32-bit tags occurs anywhere. */
  ghost predicate TagsSuffice(fm: FMIndex, pats: seq<seq<Byte>>)
    reads fm
  {
    forall q :: TWO32 <= q < |pats| ==> NoSpot(fm, pats[q])
  }

  ghost predicate NoSpot(fm: FMIndex, P: seq<Byte>)
    reads fm
  {
    P == [] || Spots(fm.caseFold, fm.docs, P) == {}
  }

  /** An empty answer is right for exactly the patterns without an occurrence. */
  lemma EmptyAnswers(fm: FMIndex, P: seq<Byte>)
    ensures Answers(fm, P, []) <==> NoSpot(fm, P)
    ensures NoSpot(fm, P) <==> P == [] || TotalOccurrences(fm.caseFold, fm.docs, P, |fm.docs|) == 0
  {
    hide Reads, TotalOccurrences;
    OccurrencesAreSpots(fm.caseFold, fm.docs, P);
    var places := Spots(fm.caseFold, fm.docs, P);
    assert |places| == 0 <==> places == {};
    forall d: nat, o: nat | d < |fm.docs| && Reads(fm.caseFold, fm.docs[d], o, P)
      ensures (d, o) in places
    {
      ReadsInside(fm.caseFold, fm.docs[d], o, P);
    }
  }

  lemma ReadsInside(fold: bool, doc: Document, o: nat, P: seq<Byte>)
    requires Reads(fold, doc, o, P)
    ensures o <= |doc|
  {}

  /** Locates every pattern. Each answer is what locating that pattern alone gives exactly when no pattern beyond
      the first 2^32 occurs; smaller batches are always right. */
  method LocateDocsBatch(fm: FMIndex, pats: seq<seq<Byte>>) returns (out: seq<seq<(nat, nat)>>)
    requires fm.Valid()
    ensures |out| == |pats|
    ensures (forall q :: 0 <= q < |pats| ==> Answers(fm, pats[q], out[q])) <==> TagsSuffice(fm, pats)
    ensures |pats| <= TWO32 ==> forall q :: 0 <= q < |pats| ==> Answers(fm, pats[q], out[q])
    ensures forall q :: TWO32 <= q < |pats| ==> out[q] == []
  {
    hide FMIndex.Built, Answers, TagsSuffice, Enqueued;
    out := seq(|pats|, _ => []);
    if fm.c == [] {
      NothingAnswered(fm, pats);
      return;
    }
    RatePositive(fm);
    var starts, los, his := Enqueue(fm, pats);
    EnqueuedFacts(fm, pats, los, his, starts);
    var walks := WalkAll(fm, starts);
    var perQuery := Distribute(fm, starts, walks, |pats|);
    out := PlaceAll(fm, pats, los, his, starts, perQuery);
    TagsExact(fm, pats, los, his, starts, out);
  }

  /** A pattern that occurs, asked for 2^32 + 1 times: the last answer comes back empty. */
  method OneTagTooMany(fm: FMIndex, P: seq<Byte>) returns (out: seq<seq<(nat, nat)>>)
    requires fm.Valid() && P != [] && Spots(fm.caseFold, fm.docs, P) != {}
    ensures |out| == TWO32 + 1 && out[TWO32] == [] && !Answers(fm, P, out[TWO32])
  {
    hide FMIndex.Valid, TagsSuffice, Answers;
    EmptyAnswers(fm, P);
    var pats := seq(TWO32 + 1, _ => P);
    out := LocateDocsBatch(fm, pats);
  }

  lemma NothingAnswered(fm: FMIndex, pats: seq<seq<Byte>>)
    requires fm.Valid() && fm.c == []
    ensures (forall q :: 0 <= q < |pats| ==> Answers(fm, pats[q], [])) && TagsSuffice(fm, pats)
  {
    hide FMIndex.Built, Answers, NoSpot;
    forall q | 0 <= q < |pats|
      ensures Answers(fm, pats[q], []) && NoSpot(fm, pats[q])
    {
      EmptyAnswers(fm, pats[q]);
    }
  }

  lemma EnqueuedFacts(fm: FMIndex, pats: seq<seq<Byte>>, los: seq<nat>, his: seq<nat>, walks: seq<Walk>)
    requires |fm.byteToId| == 256 && Enqueued(fm, pats, los, his, walks, |pats|)
    ensures |los| == |his| == |pats|
    ensures forall g :: 0 <= g < |walks| ==>
              Waiting(fm.sa, walks[g]) && walks[g].q < |pats| && fm.sa[walks[g].row] < fm.textLen
  {}

  lemma EnqueuedQuery(fm: FMIndex, pats: seq<seq<Byte>>, los: seq<nat>, his: seq<nat>, walks: seq<Walk>, q: nat)
    requires |fm.byteToId| == 256 && Enqueued(fm, pats, los, his, walks, |pats|) && q < |pats|
    requires forall g :: 0 <= g < |walks| ==> walks[g].row < |fm.sa|
    ensures |los| == |his| == |pats| && los[q] <= his[q] <= |fm.sa| && QueryOk(fm, pats[q], los[q], his[q])
    ensures Quiet(los, his, |pats|) ==> Positions(fm.sa, walks, q, |walks|) == fm.sa[los[q]..his[q]]
    ensures q >= TWO32 ==> Positions(fm.sa, walks, q, |walks|) == []
  {
    assert Tagged(fm.sa, los, his, walks, q);
  }

  lemma {:induction false} PositionsBelow(sa: seq<nat>, walks: seq<Walk>, q: nat, n: nat, bound: nat)
    requires n <= |walks| && forall g :: 0 <= g < |walks| ==> walks[g].row < |sa| && sa[walks[g].row] < bound
    ensures forall p :: p in Positions(sa, walks, q, n) ==> p < bound
  {
    if n > 0 {
      PositionsBelow(sa, walks, q, n - 1, bound);
    }
  }

  /** Sorts each query's positions and turns them into (document, offset) pairs. */
  method PlaceAll(fm: FMIndex, pats: seq<seq<Byte>>, ghost los: seq<nat>, ghost his: seq<nat>, ghost starts: seq<Walk>,
                  perQuery: seq<seq<nat>>)
    returns (out: seq<seq<(nat, nat)>>)
    requires fm.Valid() && fm.c != [] && |fm.byteToId| == 256 && Enqueued(fm, pats, los, his, starts, |pats|)
    requires |perQuery| == |pats| == |los| == |his|
    requires forall g :: 0 <= g < |starts| ==> starts[g].row < |fm.sa| && fm.sa[starts[g].row] < fm.textLen
    requires forall q: nat :: q < |pats| ==> perQuery[q] == Positions(fm.sa, starts, q, |starts|)
    ensures |out| == |pats|
    ensures Quiet(los, his, |pats|) ==> forall q :: 0 <= q < |pats| ==> Answers(fm, pats[q], out[q])
    ensures forall q :: TWO32 <= q < |pats| ==> out[q] == []
  {
    hide FMIndex.Built, FMIndex.AllOf, Located, SortValues, Searched, Enqueued, Positions, Quiet, Answers;
    out := [];
    var q := 0;
    while q < |pats|
      invariant 0 <= q <= |pats| && |out| == q
      invariant Quiet(los, his, |pats|) ==> forall p :: 0 <= p < q ==> Answers(fm, pats[p], out[p])
      invariant forall p :: TWO32 <= p < q ==> out[p] == []
    {
      var positions := SortValues(perQuery[q]);
      EnqueuedQuery(fm, pats, los, his, starts, q);
      PositionsBelow(fm.sa, starts, q, |starts|, fm.textLen);
      SortedBelow(perQuery[q], fm.textLen);
      if Quiet(los, his, |pats|) {
        SortedRun(fm, pats[q], los[q], his[q], perQuery[q]);
      }
      var r := fm.Places(pats[q], positions, los[q], his[q]);
      if Quiet(los, his, |pats|) {
        PlacesAnswer(fm, pats[q], r);
      }
      out := out + [r];
      q := q + 1;
    }
  }

  lemma PlacesAnswer(fm: FMIndex, P: seq<Byte>, r: seq<(nat, nat)>)
    requires if P == [] then r == [] else Located(fm.caseFold, fm.docs, P, r)
    ensures Answers(fm, P, r)
  {
    hide Located, ListsSpots;
    if P != [] {
      LocatedMeans(fm.caseFold, fm.docs, P, r);
    }
  }

  lemma SortedBelow(run: seq<nat>, bound: nat)
    requires forall p :: p in run ==> p < bound
    ensures forall i :: 0 <= i < |SortValues(run)| ==> SortValues(run)[i] < bound
    ensures run == [] ==> SortValues(run) == []
  {
    hide SortValues;
    SortedValues(run);
    var s := SortValues(run);
    assert forall i :: 0 <= i < |s| ==> s[i] in s;
    if s != [] {
      assert s[0] in run;
    }
  }

  /** The intervals beyond the tags are all empty exactly when their patterns do not occur. */
  lemma QuietExact(fm: FMIndex, pats: seq<seq<Byte>>, los: seq<nat>, his: seq<nat>)
    requires fm.Valid() && fm.c != [] && |fm.byteToId| == 256 && |los| == |his| == |pats|
    requires forall q :: 0 <= q < |pats| ==> QueryOk(fm, pats[q], los[q], his[q]) && los[q] <= his[q]
    ensures Quiet(los, his, |pats|) <==> TagsSuffice(fm, pats)
  {
    hide FMIndex.Built, Layout, Searched, TotalOccurrences, NoSpot;
    fm.LayoutSize();
    forall q | TWO32 <= q < |pats|
      ensures los[q] == his[q] <==> NoSpot(fm, pats[q])
    {
      EmptyAnswers(fm, pats[q]);
      if pats[q] != [] {
        SearchedCount(fm.caseFold, fm.docs, fm.byteToId, fm.sigma, fm.sa, pats[q], los[q], his[q]);
      }
    }
  }

  lemma TagsExact(fm: FMIndex, pats: seq<seq<Byte>>, los: seq<nat>, his: seq<nat>, walks: seq<Walk>,
                  out: seq<seq<(nat, nat)>>)
    requires fm.Valid() && fm.c != [] && |fm.byteToId| == 256 && Enqueued(fm, pats, los, his, walks, |pats|)
    requires |out| == |pats| == |los| == |his|
    requires Quiet(los, his, |pats|) ==> forall q :: 0 <= q < |pats| ==> Answers(fm, pats[q], out[q])
    requires forall q :: TWO32 <= q < |pats| ==> out[q] == []
    ensures (forall q :: 0 <= q < |pats| ==> Answers(fm, pats[q], out[q])) <==> TagsSuffice(fm, pats)
    ensures |pats| <= TWO32 ==> TagsSuffice(fm, pats)
  {
    assert forall q :: 0 <= q < |pats| ==> QueryOk(fm, pats[q], los[q], his[q]) && los[q] <= his[q];
    hide FMIndex.Built, Enqueued, Quiet, Searched, Answers, NoSpot;
    QuietExact(fm, pats, los, his);
    forall q | TWO32 <= q < |pats| && Answers(fm, pats[q], out[q])
      ensures NoSpot(fm, pats[q])
    {
      EmptyAnswers(fm, pats[q]);
    }
  }

  lemma SortedRun(fm: FMIndex, P: seq<Byte>, lo: nat, hi: nat, run: seq<nat>)
    requires fm.Valid() && fm.c != [] && |fm.byteToId| == 256 && QueryOk(fm, P, lo, hi)
    requires lo <= hi <= |fm.sa| && run == fm.sa[lo..hi]
    ensures fm.AllOf(P, SortValues(run), lo, hi)
  {
    hide FMIndex.Built, Searched, SortValues;
    fm.LayoutSize();
    IntervalInText(fm, P, lo, hi);
    RowsDistinct(fm.sa, lo, hi);
    SortedPositions(run, fm.textLen);
    if P == [] {
      assert |multiset(SortValues(run))| == 0;
    }
  }

  /** The places where a pattern reads are one list only, so batch and single answers coincide. */
  lemma LocatedUnique(fold: bool, docs: seq<Document>, P: seq<Byte>, r: seq<(nat, nat)>, s: seq<(nat, nat)>)
    requires ListsSpots(fold, docs, P, r) && ListsSpots(fold, docs, P, s)
    ensures r == s
  {
    forall d: nat, o: nat
      ensures (d, o) in r <==> (d, o) in s
    {}
    hide Reads, ListsSpots;
    assert PairsAscending(r) && PairsAscending(s) by { SpotsAscend(fold, docs, P, r, s); }
    if |r| <= |s| {
      SameUpTo(r, s, |r|);
      NothingMore(r, s);
    } else {
      SameUpTo(s, r, |s|);
      NothingMore(s, r);
    }
  }

  lemma SpotsAscend(fold: bool, docs: seq<Document>, P: seq<Byte>, r: seq<(nat, nat)>, s: seq<(nat, nat)>)
    requires ListsSpots(fold, docs, P, r) && ListsSpots(fold, docs, P, s)
    ensures PairsAscending(r) && PairsAscending(s)
  {}

  lemma {:induction false} SameUpTo(r: seq<(nat, nat)>, s: seq<(nat, nat)>, n: nat)
    requires PairsAscending(r) && PairsAscending(s) && n <= |r| <= |s|
    requires forall d: nat, o: nat :: (d, o) in r <==> (d, o) in s
    ensures forall i :: 0 <= i < n ==> r[i] == s[i]
  {
    hide PairsAscending;
    if n > 0 {
      SameUpTo(r, s, n - 1);
      assert (r[n - 1].0, r[n - 1].1) in s && (s[n - 1].0, s[n - 1].1) in r;
      SameNext(r, s, n - 1);
    }
  }

  /** Two ascending lists that agree so far, each holding the other's next entry, agree on it. */
  lemma SameNext(r: seq<(nat, nat)>, s: seq<(nat, nat)>, n: nat)
    requires PairsAscending(r) && PairsAscending(s) && n < |r| && n < |s|
    requires (forall i :: 0 <= i < n ==> r[i] == s[i]) && r[n] in s && s[n] in r
    ensures r[n] == s[n]
  {}

  lemma NothingMore(r: seq<(nat, nat)>, s: seq<(nat, nat)>)
    requires PairsAscending(s) && |r| <= |s| && forall i :: 0 <= i < |r| ==> r[i] == s[i]
    requires forall d: nat, o: nat :: (d, o) in r <==> (d, o) in s
    ensures r == s
  {
    assert r == s[..|r|];
    if |r| < |s| {
      NotBefore(s, |r|);
    }
  }

  lemma NotBefore(s: seq<(nat, nat)>, n: nat)
    requires PairsAscending(s) && n < |s|
    ensures (s[n].0, s[n].1) in s && (s[n].0, s[n].1) !in s[..n]
  {
    assert (s[n].0, s[n].1) == s[n];
  }
}
