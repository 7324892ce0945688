/** Disk blocks as bytes, and the 32-bit little-endian words the kernel reads from and
    writes into them (log header entries, indirect block addresses). */
module Blocks {
  import opened Params

  type Byte = x: int | 0 <= x < 256
  type Word = x: int | 0 <= x < 0x1_0000_0000
  type Block = b: seq<Byte> | |b| == BSIZE witness seq(BSIZE, _ => 0)

  function ZeroBlock(): (b: Block)
    ensures forall i :: 0 <= i < BSIZE ==> b[i] == 0
  {
    seq(BSIZE, _ => 0)
  }

  function GetWord(b: Block, i: nat): (w: Word)
    requires i < WORDS
  {
    var b0: int, b1: int, b2: int, b3: int := b[4 * i], b[4 * i + 1], b[4 * i + 2], b[4 * i + 3];
    b0 + 0x100 * b1 + 0x1_0000 * b2 + 0x100_0000 * b3
  }

  /** The number that some bytes are, the lowest first. */
  function LittleEndian(d: seq<Byte>): (n: nat) {
    if d == [] then 0 else var x: int := d[0]; x + 0x100 * LittleEndian(d[1..])
  }

  lemma LowestFirst(d: seq<Byte>)
    requires d != []
    ensures var x: int := d[0]; LittleEndian(d) == x + 0x100 * LittleEndian(d[1..])
  {
  }

  lemma TwoBytes(d: seq<Byte>)
    requires |d| == 2
    ensures var x: int, y: int := d[0], d[1]; LittleEndian(d) == x + 0x100 * y
  {
    LowestFirst(d);
    LowestFirst(d[1..]);
    assert d[1..][1..] == [];
  }

  lemma FourBytes(d: seq<Byte>)
    requires |d| == 4
    ensures LittleEndian(d) == LittleEndian(d[..2]) + 0x1_0000 * LittleEndian(d[2..])
  {
    LowestFirst(d);
    LowestFirst(d[1..]);
    TwoBytes(d[..2]);
    assert d[1..][1..] == d[2..];
  }

  /** Words are stored with the lowest byte first. */
  lemma WordIsLittleEndian(b: Block, i: nat)
    requires i < WORDS
    ensures GetWord(b, i) == LittleEndian(b[4 * i..4 * i + 4])
  {
    var d := b[4 * i..4 * i + 4];
    assert d[0] == b[4 * i] && d[1] == b[4 * i + 1] && d[2] == b[4 * i + 2] && d[3] == b[4 * i + 3];
    FourBytes(d);
    TwoBytes(d[..2]);
    TwoBytes(d[2..]);
    assert d[..2][0] == d[0] && d[..2][1] == d[1] && d[2..][0] == d[2] && d[2..][1] == d[3];
  }

  /** ... and so are their halves. */
  lemma HalvesAreLittleEndian(b: Block, i: nat)
    requires i < WORDS
    ensures GetWord(b, i) % 0x1_0000 == LittleEndian(b[4 * i..4 * i + 2])
    ensures GetWord(b, i) / 0x1_0000 == LittleEndian(b[4 * i + 2..4 * i + 4])
  {
    hide GetWord, LittleEndian;
    WordIsLittleEndian(b, i);
    var d := b[4 * i..4 * i + 4];
    assert d[..2] == b[4 * i..4 * i + 2] && d[2..] == b[4 * i + 2..4 * i + 4];
    FourBytes(d);
    TwoBytes(d[..2]);
    Halve(LittleEndian(d[..2]), LittleEndian(d[2..]));
  }

  lemma Halve(lo: nat, hi: nat)
    requires lo < 0x1_0000
    ensures (lo + 0x1_0000 * hi) % 0x1_0000 == lo && (lo + 0x1_0000 * hi) / 0x1_0000 == hi
  {
  }

  function SetWord(b: Block, i: nat, w: Word): (r: Block)
    requires i < WORDS
    ensures GetWord(r, i) == w
    ensures forall j: nat :: j < WORDS && j != i ==> GetWord(r, j) == GetWord(b, j)
  {
    var v: int := w;
    BytesOfWord(v);
    b[..4 * i] + [v % 0x100, v / 0x100 % 0x100, v / 0x1_0000 % 0x100, v / 0x100_0000] + b[4 * i + 4..]
  }

  lemma BytesOfWord(v: int)
    requires 0 <= v < 0x1_0000_0000
    ensures 0 <= v / 0x100_0000 < 0x100
    ensures v == v % 0x100 + 0x100 * (v / 0x100 % 0x100) + 0x1_0000 * (v / 0x1_0000 % 0x100) +
              0x100_0000 * (v / 0x100_0000)
  {
    var a := v / 0x100;
    var b := a / 0x100;
    assert v / 0x1_0000 == b;
    assert v / 0x100_0000 == b / 0x100;
  }
}
