/** Counting many patterns at once: tiles of searches that step together, one batched descent a round. */
module CountBatches {
  import opened Counting
  import opened SuffixArrays
  import opened Corpus
  import opened TextMatches
  import opened QueryTheory
  import opened PlainText
  import opened Construction
  import opened WaveletTheory
  import opened WaveletMatrices
  import opened FMIndexes

  /** One pattern's search: the interval of what lies right of posn, and the next position to extend to. */
  datatype Search = Search(active: bool, lo: nat, hi: nat, posn: int)

  /** What a count answers: the occurrences of a pattern, every row for the empty one. */
  ghost function Answer(fold: bool, docs: seq<Document>, P: seq<Byte>): nat {
    if P == [] then TextLength(docs) + 1 else TotalOccurrences(fold, docs, P, |docs|)
  }

  lemma AnswerMeans(fm: FMIndex, P: seq<Byte>)
    requires fm.Valid() && fm.c != []
    ensures Answer(fm.caseFold, fm.docs, P)
         == if P == [] then fm.textLen + 1 else |Spots(fm.caseFold, fm.docs, P)|
  {
    hide Layout, RankOk, SamplingOk, TotalOccurrences, Spots;
    OccurrencesAreSpots(fm.caseFold, fm.docs, P);
  }

  /** An active search has its exact interval and no result yet; an inactive one has its answer. */
  ghost predicate SearchOk(fold: bool, docs: seq<Document>, ids: seq<int>, sa: seq<nat>, P: seq<Byte>, s: Search,
                           res: nat)
    requires |ids| == 256
  {
    if s.active then
      && res == 0 && 0 <= s.posn < |P| && s.lo <= s.hi <= |sa|
      && Known(ids, P[s.posn + 1..])
      && Exact(Text(ids, docs), sa, Syms(ids, P[s.posn + 1..]), s.lo, s.hi)
    else
      res == Answer(fold, docs, P)
  }

  /** All searches of a tile. */
  ghost predicate TileOk(fm: FMIndex, pats: seq<seq<Byte>>, slots: seq<Search>, res: seq<nat>)
    reads fm
  {
    && |fm.byteToId| == 256 && |slots| == |res| == |pats|
    && forall s :: 0 <= s < |slots| ==> SearchOk(fm.caseFold, fm.docs, fm.byteToId, fm.sa, pats[s], slots[s], res[s])
  }

  // ----- one search -----

  lemma StartOk(fm: FMIndex, P: seq<Byte>)
    requires fm.Valid() && fm.c != [] && |fm.byteToId| == 256 && P != []
    ensures SearchOk(fm.caseFold, fm.docs, fm.byteToId, fm.sa, P, Search(true, 0, fm.textLen + 1, |P| - 1), 0)
  {
    hide FMIndex.Built, Exact, Alphabet;
    fm.LayoutSize();
    ExactEmpty(fm.Symbols(), fm.sa);
    NothingLeft(fm.byteToId, P);
  }

  /** A byte outside the alphabet ends the search with nothing found. */
  lemma UnknownEnds(fm: FMIndex, P: seq<Byte>, s: Search)
    requires fm.Valid() && fm.c != [] && |fm.byteToId| == 256 && 0 <= s.posn < |P| && fm.byteToId[P[s.posn]] < 0
    ensures Answer(fm.caseFold, fm.docs, P) == 0
  {
    hide Alphabet;
    IdRange(fm.caseFold, fm.docs, fm.byteToId, fm.sigma, P[s.posn]);
    UnknownCount(fm.caseFold, fm.docs, fm.byteToId, fm.sigma, P, |fm.docs|);
  }

  /** The search after a backward step, and the result it has then. */
  function Stepped(s: Search, nlo: nat, nhi: nat): (Search, nat) {
    if nlo >= nhi then (s.(active := false), 0)
    else if s.posn == 0 then (Search(false, nlo, nhi, -1), nhi - nlo)
    else (Search(true, nlo, nhi, s.posn - 1), 0)
  }

  lemma SteppedOk(fm: FMIndex, P: seq<Byte>, s: Search, nlo: nat, nhi: nat)
    requires fm.Valid() && fm.c != [] && |fm.byteToId| == 256 && s.active
    requires SearchOk(fm.caseFold, fm.docs, fm.byteToId, fm.sa, P, s, 0)
    requires fm.byteToId[P[s.posn]] >= 0
    requires var b, d := fm.Transform(), fm.byteToId[P[s.posn]];
             nlo == CountBelow(b, d, |b|) + Count(b, d, s.lo) && nhi == CountBelow(b, d, |b|) + Count(b, d, s.hi)
    requires nlo <= |fm.sa| && nhi <= |fm.sa|
    ensures SearchOk(fm.caseFold, fm.docs, fm.byteToId, fm.sa, P, Stepped(s, nlo, nhi).0, Stepped(s, nlo, nhi).1)
  {
    hide Count, CountBelow, Exact, Alphabet, RankOk, SamplingOk, TotalOccurrences;
    fm.LayoutSize();
    var k, t := s.posn, fm.Symbols();
    IdRange(fm.caseFold, fm.docs, fm.byteToId, fm.sigma, P[k]);
    Prepended(fm.byteToId, P, k);
    BackwardStep(t, fm.sa, Syms(fm.byteToId, P[k + 1..]), fm.byteToId[P[k]], s.lo, s.hi);
    ExactOrder(t, fm.sa, Syms(fm.byteToId, P[k..]), nlo, nhi);
    if nlo >= nhi {
      EmptySearch(t, fm.sa, fm.byteToId, P, k, nlo, nhi);
      SearchEnded(fm, P, 0, 0);
    } else if k == 0 {
      assert P[0..] == P;
      SearchEnded(fm, P, nlo, nhi);
    }
  }

  lemma ExactOrder(t: seq<nat>, sa: seq<nat>, W: seq<nat>, lo: nat, hi: nat)
    requires Exact(t, sa, W, lo, hi)
    ensures lo <= hi <= |sa|
  {}

  lemma SearchEnded(fm: FMIndex, P: seq<Byte>, lo: nat, hi: nat)
    requires fm.Valid() && fm.c != [] && |fm.byteToId| == 256 && P != []
    requires Exact(fm.Symbols(), fm.sa, Syms(fm.byteToId, P), lo, hi) && (lo < hi ==> Known(fm.byteToId, P))
    ensures lo <= hi && Answer(fm.caseFold, fm.docs, P) == hi - lo
  {
    hide Layout, Matches, TotalOccurrences;
    fm.LayoutSize();
    SearchedCount(fm.caseFold, fm.docs, fm.byteToId, fm.sigma, fm.sa, P, lo, hi);
  }

  // ----- termination of a tile's rounds -----

  /** Steps an active search may still take. */
  function Left(s: Search): nat {
    if s.active && s.posn >= 0 then s.posn + 1 else 0
  }

  function Work(slots: seq<Search>): nat {
    if slots == [] then 0 else Work(slots[..|slots| - 1]) + Left(slots[|slots| - 1])
  }

  lemma {:induction false} WorkUpdate(slots: seq<Search>, s: nat, x: Search)
    requires s < |slots|
    ensures Work(slots[s := x]) + Left(slots[s]) == Work(slots) + Left(x)
  {
    var n := |slots| - 1;
    if s < n {
      assert slots[s := x][..n] == slots[..n][s := x];
      WorkUpdate(slots[..n], s, x);
    } else {
      assert slots[s := x][..n] == slots[..n];
    }
  }

  // ----- a round: gather, descend together, write back -----

  /** The gathered searches: entry j of the buffers belongs to slot q[j], and every active slot is gathered. */
  ghost predicate Gathered(fm: FMIndex, pats: seq<seq<Byte>>, slots: seq<Search>, q: seq<nat>,
                           sym: array<nat>, blo: array<nat>, bhi: array<nat>, n: nat)
    requires |fm.byteToId| == 256
    reads fm, sym, blo, bhi
  {
    && |slots| == |pats| && |q| <= n <= |slots|
    && |q| <= sym.Length && |q| <= blo.Length && |q| <= bhi.Length
    && (forall i, j :: 0 <= i < j < |q| ==> q[i] < q[j])
    && (forall j :: 0 <= j < |q| ==>
          && q[j] < n && slots[q[j]].active && 0 <= slots[q[j]].posn < |pats[q[j]]|
          && sym[j] == fm.byteToId[pats[q[j]][slots[q[j]].posn]]
          && blo[j] == slots[q[j]].lo && bhi[j] == slots[q[j]].hi)
    && (forall s :: 0 <= s < n && slots[s].active ==> s in q)
  }

  method Gather(fm: FMIndex, pats: seq<seq<Byte>>, slots0: seq<Search>, res: seq<nat>,
                sym: array<nat>, blo: array<nat>, bhi: array<nat>)
    returns (slots: seq<Search>, q: seq<nat>)
    requires fm.Valid() && fm.c != [] && TileOk(fm, pats, slots0, res)
    requires sym != blo && sym != bhi && blo != bhi
    requires |pats| <= sym.Length && |pats| <= blo.Length && |pats| <= bhi.Length
    modifies sym, blo, bhi
    ensures TileOk(fm, pats, slots, res) && Work(slots) <= Work(slots0)
    ensures Gathered(fm, pats, slots, q, sym, blo, bhi, |pats|)
  {
    hide FMIndex.Built, Exact, Known, Answer, Work;
    slots, q := slots0, [];
    var s := 0;
    while s < |pats|
      invariant 0 <= s <= |pats|
      invariant TileOk(fm, pats, slots, res) && Work(slots) <= Work(slots0)
      invariant Gathered(fm, pats, slots, q, sym, blo, bhi, s)
      modifies sym, blo, bhi
    {
      if slots[s].active {
        var id := fm.byteToId[pats[s][slots[s].posn]];
        if id < 0 {
          UnknownEnds(fm, pats[s], slots[s]);
          WorkUpdate(slots, s, slots[s].(active := false));
          slots := slots[s := slots[s].(active := false)];
        } else {
          sym[|q|] := id;
          blo[|q|] := slots[s].lo;
          bhi[|q|] := slots[s].hi;
          q := q + [s];
        }
      }
      s := s + 1;
    }
  }

  /** One search after the batched descent: wrap-around base, then the new interval. */
  method Extend(fm: FMIndex, P: seq<Byte>, s: Search, id: nat, mappedLo: nat, mappedHi: nat)
    returns (s': Search, r: nat)
    requires fm.Valid() && fm.c != [] && |fm.byteToId| == 256 && s.active
    requires SearchOk(fm.caseFold, fm.docs, fm.byteToId, fm.sa, P, s, 0)
    requires id == fm.byteToId[P[s.posn]] && id < fm.sigma
    requires mappedLo == Descend(fm.wm.digits, |fm.sa|, id, s.lo, fm.qlevels)
    requires mappedHi == Descend(fm.wm.digits, |fm.sa|, id, s.hi, fm.qlevels)
    ensures SearchOk(fm.caseFold, fm.docs, fm.byteToId, fm.sa, P, s', r) && Left(s') < Left(s)
  {
    hide Count, CountBelow, Descend, Layout, Exact, Known, Answer, SamplingOk;
    fm.StepWraps(id, s.lo, mappedLo);
    fm.StepWraps(id, s.hi, mappedHi);
    var base := (fm.c[id] - fm.first[id]) % TWO64;
    var nlo, nhi := (base + mappedLo) % TWO64, (base + mappedHi) % TWO64;
    SteppedOk(fm, P, s, nlo, nhi);
    s', r := Stepped(s, nlo, nhi).0, Stepped(s, nlo, nhi).1;
  }

  /** The buffers after the batched descent. */
  ghost predicate Descended(fm: FMIndex, pats: seq<seq<Byte>>, slots: seq<Search>, q: seq<nat>,
                            sym: array<nat>, blo: array<nat>, bhi: array<nat>)
    requires |fm.byteToId| == 256
    reads fm, fm.wm, sym, blo, bhi
  {
    && |slots| == |pats| && |q| <= sym.Length && |q| <= blo.Length && |q| <= bhi.Length
    && Sound(fm.wm.digits, |fm.sa|) && fm.qlevels <= |fm.wm.digits|
    && (forall i, j :: 0 <= i < j < |q| ==> q[i] < q[j])
    && forall j :: 0 <= j < |q| ==>
         && q[j] < |slots| && slots[q[j]].active && 0 <= slots[q[j]].posn < |pats[q[j]]|
         && sym[j] == fm.byteToId[pats[q[j]][slots[q[j]].posn]] && sym[j] < fm.sigma
         && slots[q[j]].lo <= |fm.sa| && slots[q[j]].hi <= |fm.sa|
         && blo[j] == Descend(fm.wm.digits, |fm.sa|, sym[j], slots[q[j]].lo, fm.qlevels)
         && bhi[j] == Descend(fm.wm.digits, |fm.sa|, sym[j], slots[q[j]].hi, fm.qlevels)
  }

  method WriteBack(fm: FMIndex, pats: seq<seq<Byte>>, slots0: seq<Search>, res0: seq<nat>, q: seq<nat>,
                   sym: array<nat>, blo: array<nat>, bhi: array<nat>)
    returns (slots: seq<Search>, res: seq<nat>)
    requires fm.Valid() && fm.c != [] && TileOk(fm, pats, slots0, res0)
    requires Descended(fm, pats, slots0, q, sym, blo, bhi)
    ensures TileOk(fm, pats, slots, res) && Work(slots) + |q| <= Work(slots0)
  {
    hide FMIndex.Built, Exact, Known, Answer, Work, Descend, Left;
    slots, res := slots0, res0;
    var j := 0;
    while j < |q|
      invariant 0 <= j <= |q| && TileOk(fm, pats, slots, res) && Work(slots) + j <= Work(slots0)
      invariant forall i :: j <= i < |q| ==> slots[q[i]] == slots0[q[i]]
    {
      var s := q[j];
      var next, r := Extend(fm, pats[s], slots[s], sym[j], blo[j], bhi[j]);
      WorkUpdate(slots, s, next);
      slots, res := slots[s := next], res[s := r];
      j := j + 1;
    }
  }

  lemma GatheredRanges(fm: FMIndex, pats: seq<seq<Byte>>, slots: seq<Search>, res: seq<nat>, q: seq<nat>,
                       sym: array<nat>, blo: array<nat>, bhi: array<nat>)
    requires fm.Valid() && fm.c != [] && TileOk(fm, pats, slots, res)
    requires Gathered(fm, pats, slots, q, sym, blo, bhi, |pats|)
    ensures fm.wm.Usable() && fm.wm.n == |fm.sa| && fm.wm.qlevels == fm.qlevels
    ensures Sound(fm.wm.digits, |fm.sa|) && fm.qlevels <= |fm.wm.digits|
    ensures forall j :: 0 <= j < |q| ==> blo[j] <= |fm.sa| && bhi[j] <= |fm.sa| && sym[j] < fm.sigma
  {
    hide Exact, Known, Answer, Alphabet, SamplingOk, Descend, Layered;
    forall j | 0 <= j < |q|
      ensures blo[j] <= |fm.sa| && bhi[j] <= |fm.sa| && sym[j] < fm.sigma
    {
      var s := q[j];
      assert SearchOk(fm.caseFold, fm.docs, fm.byteToId, fm.sa, pats[s], slots[s], res[s]);
      IdRange(fm.caseFold, fm.docs, fm.byteToId, fm.sigma, pats[s][slots[s].posn]);
    }
  }

  /** Descends every gathered search by its symbol, level by level. */
  method DescendAll(fm: FMIndex, pats: seq<seq<Byte>>, slots: seq<Search>, res: seq<nat>, q: seq<nat>,
                    sym: array<nat>, blo: array<nat>, bhi: array<nat>)
    requires fm.Valid() && fm.c != [] && TileOk(fm, pats, slots, res)
    requires sym != blo && sym != bhi && blo != bhi
    requires Gathered(fm, pats, slots, q, sym, blo, bhi, |pats|)
    modifies blo, bhi
    ensures Descended(fm, pats, slots, q, sym, blo, bhi)
  {
    hide FMIndex.Built, Exact, Known, Answer, Descend, WaveletMatrix4.Usable, TileOk;
    GatheredRanges(fm, pats, slots, res, q, sym, blo, bhi);
    fm.wm.MapBatch(sym, blo, bhi, |q|);
  }

  /** Runs the rounds of a tile until no search is active. */
  method RunTile(fm: FMIndex, pats: seq<seq<Byte>>, slots0: seq<Search>, res0: seq<nat>,
                 sym: array<nat>, blo: array<nat>, bhi: array<nat>)
    returns (res: seq<nat>)
    requires fm.Valid() && fm.c != [] && TileOk(fm, pats, slots0, res0)
    requires sym != blo && sym != bhi && blo != bhi
    requires |pats| <= sym.Length && |pats| <= blo.Length && |pats| <= bhi.Length
    modifies sym, blo, bhi
    ensures |res| == |pats| && forall s :: 0 <= s < |pats| ==> res[s] == Answer(fm.caseFold, fm.docs, pats[s])
  {
    hide FMIndex.Built, Exact, Known, Answer, Descend, Descended, Work;
    var slots := slots0;
    res := res0;
    while true
      invariant TileOk(fm, pats, slots, res)
      decreases Work(slots)
      modifies sym, blo, bhi
    {
      var gathered, q := Gather(fm, pats, slots, res, sym, blo, bhi);
      if q == [] {
        assert forall s :: 0 <= s < |pats| ==> !gathered[s].active;
        return;
      }
      DescendAll(fm, pats, gathered, res, q, sym, blo, bhi);
      slots, res := WriteBack(fm, pats, gathered, res, q, sym, blo, bhi);
    }
  }

  /** The first state of a tile: empty patterns are answered at once. */
  method StartTile(fm: FMIndex, pats: seq<seq<Byte>>) returns (slots: seq<Search>, res: seq<nat>)
    requires fm.Valid() && fm.c != []
    ensures TileOk(fm, pats, slots, res)
  {
    hide FMIndex.Built, Exact, Known;
    fm.LayoutSize();
    TextSize(fm);
    slots, res := [], [];
    var s := 0;
    while s < |pats|
      invariant 0 <= s <= |pats| && TileOk(fm, pats[..s], slots, res)
    {
      if pats[s] == [] {
        slots, res := slots + [Search(false, 0, 0, -1)], res + [fm.textLen + 1];
      } else {
        StartOk(fm, pats[s]);
        slots, res := slots + [Search(true, 0, fm.textLen + 1, |pats[s]| - 1)], res + [0];
      }
      s := s + 1;
    }
    assert pats[..|pats|] == pats;
  }

  lemma TextSize(fm: FMIndex)
    requires fm.Valid() && fm.c != []
    ensures fm.textLen == TextLength(fm.docs)
  {}

  /** Counts every pattern; the result does not depend on how the patterns fall into tiles. */
  method CountBatch(fm: FMIndex, pats: seq<seq<Byte>>) returns (result: seq<nat>)
    requires fm.Valid()
    ensures |result| == |pats|
    ensures fm.c == [] ==> forall i :: 0 <= i < |pats| ==> result[i] == 0
    ensures fm.c != [] ==> forall i :: 0 <= i < |pats| ==>
              result[i] == (if pats[i] == [] then fm.textLen + 1 else |Spots(fm.caseFold, fm.docs, pats[i])|)
  {
    hide FMIndex.Built, Exact, Known, Answer, Spots;
    if fm.c == [] {
      return seq(|pats|, _ => 0);
    }
    var sym, blo, bhi := new nat[TILE](_ => 0), new nat[TILE](_ => 0), new nat[TILE](_ => 0);
    result := [];
    var t0 := 0;
    while t0 < |pats|
      invariant 0 <= t0 <= |pats| && |result| == t0
      invariant forall i :: 0 <= i < t0 ==> result[i] == Answer(fm.caseFold, fm.docs, pats[i])
      modifies sym, blo, bhi
    {
      var t1 := if t0 + TILE < |pats| then t0 + TILE else |pats|;
      var slots, res := StartTile(fm, pats[t0..t1]);
      var tile := RunTile(fm, pats[t0..t1], slots, res, sym, blo, bhi);
      result := result + tile;
      t0 := t1;
    }
    forall i | 0 <= i < |pats|
      ensures result[i] == (if pats[i] == [] then fm.textLen + 1 else |Spots(fm.caseFold, fm.docs, pats[i])|)
    {
      AnswerMeans(fm, pats[i]);
    }
  }
}
