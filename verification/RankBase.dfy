/** The base of a backward step: the C-table entry minus the group start, which can be negative. */
module RankBases {
  import opened Counting
  import opened SuffixArrays
  import opened Corpus
  import opened QueryTheory
  import opened Construction
  import opened WaveletTheory
  import opened WaveletMatrices
  import opened RadixOrder
  import opened FMIndexes

  /** Every content id occurs in the text. */
  lemma IdOccurs(fold: bool, docs: seq<Document>, ids: seq<int>, sigma: nat, x: nat) returns (p: nat)
    requires Alphabet(fold, docs, ids, sigma) && 2 <= x < sigma && |ids| == 256
    ensures p < TextLength(docs) && Text(ids, docs)[p] == x
  {
    hide DocStart, Text, Count;
    var present :| AlphabetOf(fold, docs, ids, sigma, present);
    var b := OneAtRank(present, x - 2, 256);
    assert ByteOccurs(fold, docs, b);
    var d: nat, o: nat :| d < |docs| && o < |docs[d]| && Fold(fold, docs[d][o]) == b;
    assert ids[docs[d][o]] == DenseId(present, b) == x;
    p := DocStart(docs, d) + o;
    TextAtDoc(ids, docs, d);
    DocOfUnique(docs, p, d);
    SymbolAt(ids, docs, p);
  }

  /** And in the transform. */
  lemma IdInTransform(fm: FMIndex, x: nat) returns (r: nat)
    requires fm.Valid() && fm.c != [] && 2 <= x < fm.sigma
    ensures r < |fm.Transform()| && fm.Transform()[r] == x
  {
    hide RankOk, SamplingOk, Alphabet, Text;
    fm.LayoutSize();
    var p := IdOccurs(fm.caseFold, fm.docs, fm.byteToId, fm.sigma, x);
    r := Find(fm.sa, p + 1);
  }

  /** For the smallest content byte the base is never positive, and negative as soon as the documents have
      three different bytes: the largest of them is grouped before it. */
  lemma NegativeBase(fm: FMIndex)
    requires fm.Valid() && fm.c != [] && fm.sigma > 2
    ensures fm.c[2] <= fm.first[2]
    ensures fm.c[2] < fm.first[2] <==> fm.sigma >= 5
  {
    hide SamplingOk, Alphabet, Text, Descend, Keys, Reversed, CountBelow, Bwt, Layout, Top, LevelsFor;
    fm.LayoutSize();
    SomeLevel(fm.sigma);
    var b := fm.Transform();
    GroupStart(fm.wm.layers, fm.wm.digits, 2, fm.qlevels);
    CountBeforeTwo(b, fm.qlevels, |b|);
    NoOvertakers(b, |b|);
    if fm.sigma >= 5 {
      var r := IdInTransform(fm, 4);
      assert b[r] >= 4 && b[r] % 4 < 2;
    } else {
      forall i | 0 <= i < |b|
        ensures b[i] < 4
      {
        fm.SymbolFits(i);
      }
    }
  }

  lemma SomeLevel(sigma: nat)
    ensures LevelsFor(sigma) > 0
  {}
}
