/** Little-endian numbers of fixed width, and tables of them. */
module LittleEndian {
  import opened Corpus
  import opened QuadVectors

  function Pow256(w: nat): (r: nat)
    ensures r >= 1
  {
    if w == 0 then 1 else 256 * Pow256(w - 1)
  }

  /** v in w bytes, least significant first; what does not fit is cut off. */
  function Le(v: nat, w: nat): (b: seq<Byte>)
    ensures |b| == w
  {
    if w == 0 then [] else [v % 256] + Le(v / 256, w - 1)
  }

  function UnLe(b: seq<Byte>): (v: nat)
    ensures v < Pow256(|b|)
  {
    if b == [] then 0 else b[0] + 256 * UnLe(b[1..])
  }

  /** Writing and reading back keeps what fits. */
  lemma {:induction false} WrittenRead(v: nat, w: nat)
    requires v < Pow256(w)
    ensures UnLe(Le(v, w)) == v
  {
    if w > 0 {
      var b := Le(v, w);
      assert b[1..] == Le(v / 256, w - 1);
      WrittenRead(v / 256, w - 1);
    }
  }

  /** Reading and writing back gives the same bytes. */
  lemma {:induction false} ReadWritten(b: seq<Byte>)
    ensures Le(UnLe(b), |b|) == b
  {
    if b != [] {
      ReadWritten(b[1..]);
      assert UnLe(b) % 256 == b[0] && UnLe(b) / 256 == UnLe(b[1..]);
    }
  }

  lemma Widths()
    ensures Pow256(4) == 0x1_0000_0000 && Pow256(8) == 0x1_0000_0000_0000_0000
  {}

  // ----- tables -----

  /** Entries of width w, one after the other. */
  function Table(vs: seq<nat>, w: nat): (b: seq<Byte>)
    ensures |b| == |vs| * w
  {
    if vs == [] then [] else Table(vs[..|vs| - 1], w) + Le(vs[|vs| - 1], w)
  }

  /** The number of width w at offset off. */
  function NumberAt(b: seq<Byte>, off: nat, w: nat): (v: nat)
    requires off + w <= |b|
    ensures v < Pow256(w)
  {
    UnLe(b[off..off + w])
  }

  /** n numbers of width w from offset off on. */
  function NumbersAt(b: seq<Byte>, off: nat, w: nat, n: nat): (vs: seq<nat>)
    requires off + n * w <= |b|
    ensures |vs| == n
    ensures forall i: nat :: i < n ==> EntryFits(off, w, n, i, |b|) && vs[i] == NumberAt(b, off + i * w, w)
  {
    seq(n, (i: nat) requires i < n => assert EntryFits(off, w, n, i, |b|); NumberAt(b, off + i * w, w))
  }

  /** Entry i of a table that fits, fits. */
  predicate EntryFits(off: nat, w: nat, n: nat, i: nat, size: nat)
    requires i < n && off + n * w <= size
    ensures EntryFits(off, w, n, i, size) && off + i * w + w <= size
  {
    MulMonotone(i + 1, n, w);
    assert (i + 1) * w == i * w + w;
    off + i * w + w <= size
  }

  /** s stands in b at offset off. */
  predicate StandsAt(b: seq<Byte>, off: nat, s: seq<Byte>) {
    off + |s| <= |b| && b[off..off + |s|] == s
  }

  lemma SlicePart(b: seq<Byte>, lo: nat, hi: nat, i: nat, j: nat)
    requires i <= j && lo + j <= hi <= |b|
    ensures b[lo..hi][i..j] == b[lo + i..lo + j]
  {
    var x, y := b[lo..hi][i..j], b[lo + i..lo + j];
    forall k | 0 <= k < j - i
      ensures x[k] == y[k]
    {
      assert x[k] == b[lo..hi][i + k] == b[lo + (i + k)];
    }
  }

  lemma StandsPart(b: seq<Byte>, off: nat, x: seq<Byte>, s: seq<Byte>, y: seq<Byte>)
    requires StandsAt(b, off, x + s + y)
    ensures StandsAt(b, off, x) && StandsAt(b, off + |x|, s) && StandsAt(b, off + |x| + |s|, y)
  {
    var c := b[off..off + |x + s + y|];
    assert c[..|x|] == x && c[|x|..|x| + |s|] == s && c[|x| + |s|..] == y;
    assert c[..|x|] == b[off..off + |x|];
    SlicePart(b, off, off + |c|, |x|, |x| + |s|);
    SlicePart(b, off, off + |c|, |x| + |s|, |c|);
  }

  lemma {:induction false} TableEntry(b: seq<Byte>, off: nat, vs: seq<nat>, w: nat, i: nat)
    requires StandsAt(b, off, Table(vs, w)) && i < |vs| && vs[i] < Pow256(w)
    ensures off + i * w + w <= |b| && NumberAt(b, off + i * w, w) == vs[i]
  {
    hide Le, UnLe;
    var n := |vs| - 1;
    var init := vs[..n];
    assert Table(vs, w) == Table(init, w) + Le(vs[n], w) + [];
    StandsPart(b, off, Table(init, w), Le(vs[n], w), []);
    if i < n {
      TableEntry(b, off, init, w, i);
    } else {
      WrittenRead(vs[n], w);
    }
  }

  /** A table whose entries fit their width reads back as it was written. */
  lemma TableRead(b: seq<Byte>, off: nat, vs: seq<nat>, w: nat)
    requires StandsAt(b, off, Table(vs, w)) && forall i :: 0 <= i < |vs| ==> vs[i] < Pow256(w)
    ensures off + |vs| * w <= |b| && NumbersAt(b, off, w, |vs|) == vs
  {
    hide Table, NumberAt;
    forall i: nat | i < |vs|
      ensures NumbersAt(b, off, w, |vs|)[i] == vs[i]
    {
      TableEntry(b, off, vs, w, i);
    }
  }

  // ----- rows of equal length -----

  function Rows(rows: seq<seq<nat>>, w: nat): seq<Byte> {
    if rows == [] then [] else Rows(rows[..|rows| - 1], w) + Table(rows[|rows| - 1], w)
  }

  lemma {:induction false} RowsSize(rows: seq<seq<nat>>, w: nat, n: nat)
    requires forall l :: 0 <= l < |rows| ==> |rows[l]| == n
    ensures |Rows(rows, w)| == |rows| * (n * w)
  {
    if rows != [] {
      RowsSize(rows[..|rows| - 1], w, n);
      assert |rows| * (n * w) == (|rows| - 1) * (n * w) + n * w;
    }
  }

  lemma {:induction false} RowEntry(b: seq<Byte>, off: nat, rows: seq<seq<nat>>, w: nat, n: nat, l: nat)
    requires StandsAt(b, off, Rows(rows, w)) && l < |rows| && forall k :: 0 <= k < |rows| ==> |rows[k]| == n
    ensures StandsAt(b, off + l * (n * w), Table(rows[l], w))
  {
    hide Table;
    var k := |rows| - 1;
    var init := rows[..k];
    assert Rows(rows, w) == Rows(init, w) + Table(rows[k], w) + [];
    StandsPart(b, off, Rows(init, w), Table(rows[k], w), []);
    RowsSize(init, w, n);
    if l < k {
      RowEntry(b, off, init, w, n, l);
    }
  }

  // ----- signed 32-bit numbers -----

  function Unsigned32(v: int): (u: nat)
    ensures u < 0x1_0000_0000
  {
    v % 0x1_0000_0000
  }

  function Signed32(u: nat): int {
    if u < 0x8000_0000 then u else u - 0x1_0000_0000
  }

  lemma SignedRead(v: int)
    requires -0x8000_0000 <= v < 0x8000_0000
    ensures Signed32(Unsigned32(v)) == v
  {}

  // ----- alignment -----

  /** Bytes to skip from p to the next multiple of eight. */
  function Pad(p: nat): (r: nat)
    ensures r < 8 && (p + r) % 8 == 0
    ensures p % 8 == 0 ==> r == 0
  {
    assert p == 8 * (p / 8) + p % 8;
    (8 - p % 8) % 8
  }

  function Zeros(n: nat): (z: seq<Byte>)
    ensures |z| == n && forall i :: 0 <= i < n ==> z[i] == 0
  {
    seq(n, _ => 0)
  }
}
