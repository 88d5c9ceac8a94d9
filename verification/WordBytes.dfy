/** A machine word in memory: eight bytes, least significant first. */
module WordBytes {
  import opened Corpus
  import opened LittleEndian
  import opened Words

  lemma ByteValue(d: bv64)
    requires d < 0x100
    ensures d as nat < 0x100
  {}

  lemma ByteWord(d: bv64)
    requires d as nat < 0x100
    ensures d < 0x100
  {}

  /** The lowest byte. */
  function LowByte(w: bv64): (b: Byte)
    ensures Word(b) == w & 0xFF
  {
    ByteValue(w & 0xFF);
    var b := (w & 0xFF) as nat;
    WordIsNat(b);
    SameNat(Word(b), w & 0xFF);
    b
  }

  lemma LowByteOf(w: bv64, b: Byte)
    requires w & 0xFF == Word(b)
    ensures LowByte(w) == b
  {
    WordInjective(b, LowByte(w));
  }

  function BytesOf(w: bv64): (b: seq<Byte>)
    ensures |b| == 8
  {
    [LowByte(w), LowByte(w >> 8), LowByte(w >> 16), LowByte(w >> 24),
     LowByte(w >> 32), LowByte(w >> 40), LowByte(w >> 48), LowByte(w >> 56)]
  }

  function Joined(a: bv64, b: bv64, c: bv64, d: bv64, e: bv64, f: bv64, g: bv64, h: bv64): bv64 {
    a | (b << 8) | (c << 16) | (d << 24) | (e << 32) | (f << 40) | (g << 48) | (h << 56)
  }

  lemma Join(w: bv64)
    ensures Joined(w & 0xFF, (w >> 8) & 0xFF, (w >> 16) & 0xFF, (w >> 24) & 0xFF,
                   (w >> 32) & 0xFF, (w >> 40) & 0xFF, (w >> 48) & 0xFF, (w >> 56) & 0xFF) == w
  {}

  lemma Apart(a: bv64, b: bv64, c: bv64, d: bv64, e: bv64, f: bv64, g: bv64, h: bv64)
    requires a < 0x100 && b < 0x100 && c < 0x100 && d < 0x100 && e < 0x100 && f < 0x100 && g < 0x100 && h < 0x100
    ensures var w := Joined(a, b, c, d, e, f, g, h);
            && w & 0xFF == a && (w >> 8) & 0xFF == b && (w >> 16) & 0xFF == c && (w >> 24) & 0xFF == d
            && (w >> 32) & 0xFF == e && (w >> 40) & 0xFF == f && (w >> 48) & 0xFF == g && (w >> 56) & 0xFF == h
  {}

  function WordOf(b: seq<Byte>): bv64
    requires |b| == 8
  {
    Joined(Word(b[0]), Word(b[1]), Word(b[2]), Word(b[3]), Word(b[4]), Word(b[5]), Word(b[6]), Word(b[7]))
  }

  /** A word stored and read back. */
  lemma WordBack(w: bv64)
    ensures WordOf(BytesOf(w)) == w
  {
    hide Word, Joined, LowByte;
    Join(w);
  }

  lemma SmallWord(b: Byte)
    ensures Word(b) < 0x100
  {
    WordIsNat(b);
    ByteWord(Word(b));
  }

  lemma EightBytes(w: bv64, b: seq<Byte>)
    requires |b| == 8
    requires && w & 0xFF == Word(b[0]) && (w >> 8) & 0xFF == Word(b[1])
             && (w >> 16) & 0xFF == Word(b[2]) && (w >> 24) & 0xFF == Word(b[3])
             && (w >> 32) & 0xFF == Word(b[4]) && (w >> 40) & 0xFF == Word(b[5])
             && (w >> 48) & 0xFF == Word(b[6]) && (w >> 56) & 0xFF == Word(b[7])
    ensures BytesOf(w) == b
  {
    hide Word, LowByte;
    LowByteOf(w, b[0]);
    LowByteOf(w >> 8, b[1]);
    LowByteOf(w >> 16, b[2]);
    LowByteOf(w >> 24, b[3]);
    LowByteOf(w >> 32, b[4]);
    LowByteOf(w >> 40, b[5]);
    LowByteOf(w >> 48, b[6]);
    LowByteOf(w >> 56, b[7]);
    assert b == [b[0], b[1], b[2], b[3], b[4], b[5], b[6], b[7]];
  }

  /** Eight bytes read as a word and stored. */
  lemma BytesBack(b: seq<Byte>)
    requires |b| == 8
    ensures BytesOf(WordOf(b)) == b
  {
    hide Word, Joined, BytesOf;
    SmallWord(b[0]);
    SmallWord(b[1]);
    SmallWord(b[2]);
    SmallWord(b[3]);
    SmallWord(b[4]);
    SmallWord(b[5]);
    SmallWord(b[6]);
    SmallWord(b[7]);
    Apart(Word(b[0]), Word(b[1]), Word(b[2]), Word(b[3]), Word(b[4]), Word(b[5]), Word(b[6]), Word(b[7]));
    EightBytes(WordOf(b), b);
  }

  /** The number whose bytes a word has. */
  function NumberOf(w: bv64): (v: nat)
    ensures v < Pow256(8)
  {
    UnLe(BytesOf(w))
  }

  function WordFrom(v: nat): bv64 {
    WordOf(Le(v, 8))
  }

  lemma NumberBack(w: bv64)
    ensures WordFrom(NumberOf(w)) == w
  {
    hide BytesOf, WordOf, Le, UnLe;
    ReadWritten(BytesOf(w));
    WordBack(w);
  }

  lemma FromBack(v: nat)
    requires v < Pow256(8)
    ensures NumberOf(WordFrom(v)) == v
  {
    hide BytesOf, WordOf, Le, UnLe, Pow256;
    BytesBack(Le(v, 8));
    WrittenRead(v, 8);
  }
}
