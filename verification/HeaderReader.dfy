/** Reading a blob's header with a cursor, rejecting it as soon as something is out of place. */
module HeaderReader {
  import opened Corpus
  import opened Construction
  import opened LittleEndian
  import opened QuadVectors
  import opened Blobs
  import opened BlobTheory
  import opened ByteLayout
  import opened ByteReadings
  import BitVectors

  /** The next number of width w, if the bytes are there. */
  method Get(b: seq<Byte>, p: nat, w: nat) returns (ok: bool, v: nat, q: nat)
    ensures ok <==> p + w <= |b|
    ensures ok ==> v == NumberAt(b, p, w) && q == p + w
  {
    if p + w > |b| {
      return false, 0, p;
    }
    return true, UnLe(b[p..p + w]), p + w;
  }

  /** The next n numbers of width w. */
  method GetMany(b: seq<Byte>, p0: nat, w: nat, n: nat) returns (ok: bool, vs: seq<nat>, p: nat)
    requires p0 <= |b|
    ensures ok <==> p0 + n * w <= |b|
    ensures ok ==> vs == NumbersAt(b, p0, w, n) && p == p0 + n * w
  {
    hide NumberAt;
    vs, p := [], p0;
    var i := 0;
    while i < n
      invariant 0 <= i <= n && |vs| == i && p == p0 + i * w <= |b|
      invariant vs == NumbersAt(b, p0, w, i)
    {
      var v;
      EntryEnd(p0, w, i, n);
      ok, v, p := Get(b, p, w);
      if !ok {
        return;
      }
      vs := vs + [v];
      assert vs == NumbersAt(b, p0, w, i + 1) by { NumbersGrow(b, p0, w, i); }
      i := i + 1;
    }
    ok := true;
  }

  lemma EntryEnd(p: nat, w: nat, i: nat, n: nat)
    requires i < n
    ensures p + i * w + w == p + (i + 1) * w <= p + n * w
  {}

  lemma NumbersGrow(b: seq<Byte>, off: nat, w: nat, n: nat)
    requires off + (n + 1) * w <= |b|
    ensures off + n * w <= |b| && off + n * w + w <= |b|
    ensures NumbersAt(b, off, w, n + 1) == NumbersAt(b, off, w, n) + [NumberAt(b, off + n * w, w)]
  {}

  /** A block size is accepted when it is a power of two, recognised by clearing its lowest set bit. */
  lemma LowestBit(wpb: nat)
    requires 1 <= wpb <= 16
    ensures (wpb as bv8) & ((wpb - 1) as bv8) == 0 <==> SmallPower(wpb)
  {}

  /** The fixed-size front of a header: everything up to the text length. */
  method ReadScalars(b: seq<Byte>) returns (r: Option<Header>, p: nat)
    ensures r == ParseScalars(b) == if FrontGood(b) then Some(FrontHeader(b)) else None
    ensures r.Some? ==> p == 32 <= |b|
  {
    hide NumberAt, LevelsFor, FrontGood;
    FrontParsed(b);
    p := 0;
    var ok, magic, version, rate, sigma, qlevels, flags, textLen;
    ok, magic, p := Get(b, 0, 4);
    if !ok || magic != MAGIC {
      return None, p;
    }
    ok, version, p := Get(b, p, 4);
    if !ok || version != VERSION {
      return None, p;
    }
    ok, rate, p := Get(b, p, 4);
    if !ok || rate == 0 {
      return None, p;
    }
    ok, sigma, p := Get(b, p, 4);
    if !ok {
      return None, p;
    }
    ok, qlevels, p := Get(b, p, 4);
    if !ok {
      return None, p;
    }
    ok, flags, p := Get(b, p, 4);
    if !ok {
      return None, p;
    }
    var fold, wide, wpb := flags % 2 == 1, flags / 2 % 2 == 1, flags / 256 % 256;
    if wpb < 1 || wpb > 16 {
      return None, p;
    }
    LowestBit(wpb);
    if (wpb as bv8) & ((wpb - 1) as bv8) != 0 {
      return None, p;
    }
    if sigma < 2 || sigma > 258 || qlevels > 5 {
      TopLevelsOf(sigma, qlevels);
      return None, p;
    }
    var levels := Levels(sigma);
    if qlevels != levels {
      return None, p;
    }
    ok, textLen, p := Get(b, p, 8);
    if !ok || textLen >= MAX_LENGTH {
      return None, p;
    }
    assert rate < TWO32 by { Widths(); }
    r := Some(Header(rate, sigma, qlevels, fold, wide, wpb, textLen, [], [], [], 0));
  }

  lemma TopLevelsOf(sigma: nat, qlevels: nat)
    ensures 2 <= sigma <= 258 && qlevels > 5 ==> qlevels != LevelsFor(sigma)
  {
    if sigma <= 258 {
      TopLevels(sigma);
    }
  }

  /** The tables of a header: byte ids, C-table, group starts, and the declared section sizes. */
  method ReadTables(b: seq<Byte>, h: Header, p0: nat) returns (r: Option<Header>, p: nat)
    requires ScalarsOk(h) && p0 == 32 <= |b|
    ensures r == if |b| < HeadSize(h.sigma, h.qlevels) then None else ParseTables(b, h)
    ensures r.Some? ==> p == HeadSize(h.sigma, h.qlevels)
    ensures Agrees(b, h) ==> (r.Some? <==> TablesGood(b))
  {
    TablesDecided(b, h);
    hide Agrees, TablesGood, NumberAt, NumbersAt, LevelsFor, TablesOk, Signed32, SectionSizes, StartsAt;
    var ok, ids, c, starts, sizes;
    ok, ids, p := ReadIds(b, h, p0);
    if !ok {
      BadIds(b, h);
      return None, p;
    }
    ok, c, p := GetMany(b, p, 8, h.sigma);
    if !ok {
      return None, p;
    }
    ok, starts, p := ReadStarts(b, h, p);
    if !ok {
      return None, p;
    }
    ok, sizes, p := GetMany(b, p, 8, h.qlevels + 3);
    if !ok {
      return None, p;
    }
    assert starts == StartsAt(b, h);
    var bounds := sizes[h.qlevels + 2];
    assert bounds == NumberAt(b, HeadSize(h.sigma, h.qlevels) - 8, 8) by { LastNumber(b, h); }
    var whole := h.(ids := ids, c := c, starts := starts, bounds := bounds);
    var fits := CheckSizes(whole, sizes);
    SizesDecide(b, whole);
    r := if fits then Some(whole) else None;
  }

  lemma TablesDecided(b: seq<Byte>, h: Header)
    ensures Agrees(b, h) ==>
              (TablesGood(b) <==> |b| >= HeadSize(h.sigma, h.qlevels) && ParseTables(b, h).Some?)
  {
    if Agrees(b, h) {
      HeadPlaces(b, h);
      if |b| >= HeadSize(h.sigma, h.qlevels) {
        TablesParsed(b, h);
      }
    }
  }

  /** The byte-to-id table, each entry checked as it is read. */
  method ReadIds(b: seq<Byte>, h: Header, p0: nat) returns (ok: bool, ids: seq<int>, p: nat)
    requires p0 == 32 <= |b|
    ensures ok <==> |b| >= 1056 && IdsOk(SignedAll(NumbersAt(b, 32, 4, 256)), h.sigma)
    ensures ok ==> ids == SignedAll(NumbersAt(b, 32, 4, 256)) && p == 1056
  {
    hide NumberAt, Signed32, IdOk;
    ids, p := [], p0;
    var i := 0;
    while i < 256
      invariant 0 <= i <= 256 && |ids| == i && p == 32 + i * 4 <= |b|
      invariant forall k :: 0 <= k < i ==> 32 + k * 4 + 4 <= |b| && ids[k] == Signed32(NumberAt(b, 32 + k * 4, 4))
      invariant IdsOk(ids, h.sigma)
    {
      var v;
      ok, v, p := Get(b, p, 4);
      if !ok {
        return;
      }
      if !IdOk(Signed32(v), h.sigma) {
        ok := false;
        assert |b| >= 1056 ==> SignedAll(NumbersAt(b, 32, 4, 256))[i] == Signed32(v);
        return;
      }
      ids := ids + [Signed32(v)];
      i := i + 1;
    }
    ok := true;
    assert ids == SignedAll(NumbersAt(b, 32, 4, 256));
  }

  predicate IdsOk(ids: seq<int>, sigma: nat) {
    forall i :: 0 <= i < |ids| ==> IdOk(ids[i], sigma)
  }

  lemma BadIds(b: seq<Byte>, h: Header)
    requires ScalarsOk(h) && !(|b| >= 1056 && IdsOk(SignedAll(NumbersAt(b, 32, 4, 256)), h.sigma))
    ensures |b| < HeadSize(h.sigma, h.qlevels) || ParseTables(b, h).None?
  {}

  /** The group starts, four numbers a level. */
  method ReadStarts(b: seq<Byte>, h: Header, p0: nat) returns (ok: bool, starts: seq<seq<nat>>, p: nat)
    requires p0 == 1056 + h.sigma * 8 <= |b|
    ensures ok <==> p0 + h.qlevels * 32 <= |b|
    ensures ok ==> |starts| == h.qlevels && p == p0 + h.qlevels * 32
    ensures ok ==> forall l :: 0 <= l < h.qlevels ==> starts[l] == NumbersAt(b, 8 * (132 + h.sigma + 4 * l), 8, 4)
  {
    hide NumbersAt;
    starts, p := [], p0;
    var l := 0;
    while l < h.qlevels
      invariant 0 <= l <= h.qlevels && |starts| == l && p == p0 + l * 32 <= |b|
      invariant forall k :: 0 <= k < l ==> starts[k] == NumbersAt(b, 8 * (132 + h.sigma + 4 * k), 8, 4)
    {
      var row;
      ok, row, p := GetMany(b, p, 8, 4);
      if !ok {
        return;
      }
      starts := starts + [row];
      l := l + 1;
    }
    ok := true;
  }

  /** The declared section sizes are the ones the scalars determine, and there is a document bound. */
  method CheckSizes(h: Header, sizes: seq<nat>) returns (ok: bool)
    requires ScalarsOk(h) && |sizes| == h.qlevels + 3 && sizes[h.qlevels + 2] == h.bounds
    ensures ok <==> sizes == SectionSizes(h) && 0 < h.bounds <= h.textLen + 1
  {
    hide LevelsFor;
    var m := h.textLen + 1;
    var quadWords, bitWords := m / 32 + (if m % 32 != 0 then 1 else 0), m / 64 + (if m % 64 != 0 then 1 else 0);
    assert quadWords == QuadVectors.WordCount(m) && bitWords == BitVectors.WordCount(m);
    ok := CheckCounts(h, sizes, quadWords, bitWords);
  }

  method CheckCounts(h: Header, sizes: seq<nat>, quadWords: nat, bitWords: nat) returns (ok: bool)
    requires ScalarsOk(h) && |sizes| == h.qlevels + 3 && sizes[h.qlevels + 2] == h.bounds
    requires quadWords == QuadVectors.WordCount(h.textLen + 1) && bitWords == BitVectors.WordCount(h.textLen + 1)
    ensures ok <==> sizes == SectionSizes(h) && 0 < h.bounds <= h.textLen + 1
  {
    hide LevelsFor, QuadVectors.WordCount, BitVectors.WordCount;
    var l := 0;
    while l < h.qlevels
      invariant 0 <= l <= h.qlevels && forall k :: 0 <= k < l ==> sizes[k] == quadWords
    {
      if sizes[l] != quadWords {
        assert SectionSizes(h)[l] == quadWords;
        return false;
      }
      l := l + 1;
    }
    var expected := h.textLen / h.rate + 1;
    if sizes[h.qlevels] != bitWords || sizes[h.qlevels + 1] != expected || h.bounds == 0 || h.bounds > h.textLen + 1 {
      assert SectionSizes(h)[h.qlevels] == bitWords && SectionSizes(h)[h.qlevels + 1] == expected;
      return false;
    }
    assert sizes == SectionSizes(h);
    return true;
  }

  lemma LastNumber(b: seq<Byte>, h: Header)
    requires |b| >= HeadSize(h.sigma, h.qlevels)
    ensures NumbersAt(b, 1056 + h.sigma * 8 + h.qlevels * 32, 8, h.qlevels + 3)[h.qlevels + 2]
         == NumberAt(b, HeadSize(h.sigma, h.qlevels) - 8, 8)
  {}

  /** With the ids in range, the section sizes decide whether the tables are accepted. */
  lemma SizesDecide(b: seq<Byte>, h: Header)
    requires |b| >= HeadSize(h.sigma, h.qlevels) && |h.ids| == 256 && IdsOk(h.ids, h.sigma)
    ensures TablesOk(b, h)
       <==> NumbersAt(b, 1056 + h.sigma * 8 + h.qlevels * 32, 8, h.qlevels + 3) == SectionSizes(h)
            && 0 < h.bounds <= h.textLen + 1
  {}

  /** A whole header. */
  method ReadHead(b: seq<Byte>) returns (r: Option<Header>, p: nat)
    ensures r == ParseHead(b)
    ensures r.Some? ==> p == HeadSize(r.value.sigma, r.value.qlevels) <= |b|
  {
    hide ParseTables, ParseScalars;
    ScalarsRead(b);
    r, p := ReadScalars(b);
    if r.Some? {
      var h := r.value;
      r, p := ReadTables(b, h, p);
      TablesKeepScalars(b, h);
    }
  }

  lemma ScalarsRead(b: seq<Byte>)
    ensures ParseScalars(b).Some? ==> ScalarsOk(ParseScalars(b).value)
  {}

  lemma TablesKeepScalars(b: seq<Byte>, h: Header)
    ensures |b| >= HeadSize(h.sigma, h.qlevels) && ParseTables(b, h).Some? ==>
              ParseTables(b, h).value.sigma == h.sigma && ParseTables(b, h).value.qlevels == h.qlevels
  {}
}
