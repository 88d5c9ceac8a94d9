/** The backward step on an index that was loaded: when it stays inside the rows, and that the loader's checks
    alone do not make it. */
module LoadedSteps {
  import opened Counting
  import opened Corpus
  import opened Construction
  import opened LittleEndian
  import opened QuadVectors
  import opened WaveletTheory
  import opened WaveletMatrices
  import opened FMIndexes
  import opened Blobs
  import opened BlobTheory
  import opened Images
  import opened Loaders
  import opened RoundTrips
  import BitVectors

  /** One endpoint stepped, as 64-bit arithmetic evaluates it. */
  function Stepped(c: nat, first: nat, mapped: nat): nat {
    ((c - first) % TWO64 + mapped) % TWO64
  }

  lemma SteppedIs(c: nat, first: nat, mapped: nat)
    requires first <= mapped
    ensures Stepped(c, first, mapped) == (c + (mapped - first)) % TWO64
  {
    var q := (c - first) / TWO64;
    assert c - first == q * TWO64 + (c - first) % TWO64;
    assert (c - first) % TWO64 + mapped == c + (mapped - first) - q * TWO64;
  }

  lemma SteppedPlainly(c: nat, first: nat, mapped: nat)
    requires first <= mapped && c + (mapped - first) < TWO64
    ensures Stepped(c, first, mapped) == c + (mapped - first)
  {
    SteppedIs(c, first, mapped);
  }

  /** A descent never reorders endpoints and never spreads them. */
  lemma {:induction false} DescendUnit(digits: seq<seq<nat>>, n: nat, x: nat, p: nat, q: nat, l: nat)
    requires Sound(digits, n) && l <= |digits| && p <= q <= n
    ensures Descend(digits, n, x, p, l) <= Descend(digits, n, x, q, l) <= Descend(digits, n, x, p, l) + (q - p)
  {
    hide Count, CountBelow, Digit;
    if l > 0 {
      DescendUnit(digits, n, x, p, q, l - 1);
      CountMonotone(digits[l - 1], Digit(x, Shift(|digits|, l - 1)),
                    Descend(digits, n, x, p, l - 1), Descend(digits, n, x, q, l - 1));
    }
  }

  /** Every endpoint steps to a row, or to the end of the rows. */
  ghost predicate StepsInside(digits: seq<seq<nat>>, m: nat, x: nat, c: nat, first: nat)
    requires Sound(digits, m)
  {
    forall p: nat :: p <= m ==> Stepped(c, first, Descend(digits, m, x, p, |digits|)) <= m
  }

  /** All endpoints step inside exactly when the group of x, moved to its C-table entry, ends inside: one
      subtraction per symbol decides it, wrap-around included. */
  lemma StepsInsideExactly(digits: seq<seq<nat>>, m: nat, x: nat, c: nat)
    requires Sound(digits, m) && m <= MAX_LENGTH && c < TWO64
    ensures var first := Descend(digits, m, x, 0, |digits|);
            StepsInside(digits, m, x, c, first) <==> c + (Descend(digits, m, x, m, |digits|) - first) <= m
  {
    hide Descend, Stepped;
    var L := |digits|;
    var first, last := Descend(digits, m, x, 0, L), Descend(digits, m, x, m, L);
    DescendUnit(digits, m, x, 0, m, L);
    if c + (last - first) <= m {
      forall p: nat | p <= m
        ensures Stepped(c, first, Descend(digits, m, x, p, L)) <= m
      {
        DescendUnit(digits, m, x, 0, p, L);
        DescendUnit(digits, m, x, p, m, L);
        SteppedPlainly(c, first, Descend(digits, m, x, p, L));
      }
    } else {
      // an endpoint that leaves: 0 if the entry is already outside, m if nothing wraps, else 1
      var p := if c > m then 0 else if c + (last - first) < TWO64 then m else 1;
      DescendUnit(digits, m, x, 0, p, L);
      DescendUnit(digits, m, x, p, m, L);
      SteppedPlainly(c, first, Descend(digits, m, x, p, L));
    }
  }

  /** The same for a loaded index, symbol by symbol. */
  lemma LoadedStepsInside(fm: FMIndex, f: Fields, x: nat)
    requires Loaded(fm, f) && FieldsOk(f) && x < fm.sigma
    ensures Sound(fm.wm.digits, fm.textLen + 1) && |fm.wm.digits| == fm.qlevels && |fm.c| == |fm.first| == fm.sigma
    ensures var m := fm.textLen + 1;
            StepsInside(fm.wm.digits, m, x, fm.c[x], fm.first[x]) <==>
            fm.c[x] + (Descend(fm.wm.digits, m, x, m, fm.qlevels) - fm.first[x]) <= m
  {
    hide LevelsFor, BodyOk, Derived, Descend, BitVectors.BitVector.Valid;
    Widths();
    StepsInsideExactly(fm.wm.digits, fm.textLen + 1, x, fm.c[x]);
  }

  // ----- the checks do not imply it -----

  /** The same content with every C-table entry at its largest. */
  function Wild(f: Fields): Fields {
    f.(head := f.head.(c := seq(f.head.sigma, _ => TWO64 - 1)))
  }

  /** It passes every check: nothing but the width of a C-table entry is looked at. */
  lemma WildAccepted(f: Fields)
    requires FieldsOk(f)
    ensures FieldsOk(Wild(f)) && Parse(Encode(Wild(f))) == Some(Wild(f))
  {
    hide LevelsFor, Starts, Digits, Count, Encode, Parse, BitVectors.Bits;
    Widths();
    ParseRoundTrip(Wild(f), []);
    assert Encode(Wild(f)) + [] == Encode(Wild(f));
  }

  /** Some endpoint's step by x leaves the rows. */
  ghost predicate LeavesRows(fm: FMIndex, x: nat)
    reads fm, fm.wm
  {
    && Sound(fm.wm.digits, fm.textLen + 1) && x < |fm.c| == |fm.first|
    && !StepsInside(fm.wm.digits, fm.textLen + 1, x, fm.c[x], fm.first[x])
  }

  /** Every built index has such a relative: its blob loads, and the step by any symbol can leave the rows. */
  method WildLoad(src: FMIndex, blob: seq<Byte>) returns (fm: FMIndex)
    requires src.Valid() && src.c != [] && blob == Encode(Wild(Image(src))) && |blob| < TWO64
    ensures Loaded(fm, Wild(Image(src))) && fm.sigma > 0
    ensures forall x: nat :: x < fm.sigma ==> LeavesRows(fm, x)
  {
    hide FMIndex.Valid, FieldsOk, Parse, Encode, Image, LeavesRows, Loaded, Wild;
    ImageOk(src);
    WildAccepted(Image(src));
    ghost var f := Image(src);
    var ok;
    fm, ok := LoadView(blob);
    SomeSymbols(fm, Wild(f));
    forall x: nat | x < fm.sigma
      ensures LeavesRows(fm, x)
    {
      WildStep(fm, f, x);
    }
  }

  lemma SomeSymbols(fm: FMIndex, f: Fields)
    requires Loaded(fm, f) && FieldsOk(f)
    ensures fm.sigma > 0
  {}

  lemma WildStep(fm: FMIndex, f: Fields, x: nat)
    requires Loaded(fm, Wild(f)) && FieldsOk(Wild(f)) && x < fm.sigma
    ensures LeavesRows(fm, x)
  {
    hide LevelsFor, BodyOk, Derived, Descend, BitVectors.BitVector.Valid;
    LoadedStepsInside(fm, Wild(f), x);
    DescendUnit(fm.wm.digits, fm.textLen + 1, x, 0, fm.textLen + 1, fm.qlevels);
  }
}
