/** The file system on the disk: inodes in inode blocks, the bitmap in bitmap blocks, data in its own
    blocks (kernel/fs.h, and iupdate(), balloc() and bfree() of kernel/fs.c). */
module FsImage {
  import opened Params
  import opened Blocks
  import opened Inodes
  import opened FileSys

  // ---- struct dinode ---------------------------------------------------------------------------

  /** The words of inode `k` in its block: type and major, minor and nlink, size, addresses. */
  function InodeAt(c: Block, k: nat): (ip: Inode)
    requires k < IPB
  {
    Inode(GetWord(c, 16 * k) % 0x1_0000, GetWord(c, 16 * k + 1) / 0x1_0000, GetWord(c, 16 * k + 2),
          Words(c, 16 * k + 3, NDIRECT + 1))
  }

  function Words(c: Block, at: nat, n: nat): (ws: seq<nat>)
    requires at + n <= WORDS
    ensures |ws| == n && forall j :: 0 <= j < n ==> ws[j] == GetWord(c, at + j)
  {
    if n == 0 then [] else Words(c, at, n - 1) + [GetWord(c, at + n - 1)]
  }

  /** Where the fields of struct dinode are, in bytes: type, major, minor and nlink have two each, size and
      the addresses four, the lowest first. */
  lemma DinodeLayout(c: Block, k: nat, j: nat)
    requires k < IPB && j <= NDIRECT
    ensures var ip, at := InodeAt(c, k), 64 * k;
            && ip.typ == LittleEndian(c[at..at + 2]) && ip.nlink == LittleEndian(c[at + 6..at + 8])
            && ip.size == LittleEndian(c[at + 8..at + 12])
            && ip.addrs[j] == LittleEndian(c[at + 12 + 4 * j..at + 16 + 4 * j])
  {
    hide GetWord, LittleEndian;
    HalvesAreLittleEndian(c, 16 * k);
    HalvesAreLittleEndian(c, 16 * k + 1);
    WordIsLittleEndian(c, 16 * k + 2);
    WordIsLittleEndian(c, 16 * k + 3 + j);
  }

  /** The fields fit in a dinode. */
  ghost predicate Storable(ip: Inode) {
    && ip.typ < 0x1_0000 && ip.nlink < 0x1_0000 && ip.size < 0x1_0000_0000 && |ip.addrs| == NDIRECT + 1
    && forall j :: 0 <= j < |ip.addrs| ==> ip.addrs[j] < 0x1_0000_0000
  }

  ghost function SetAddrs(c: Block, at: nat, addrs: seq<nat>, n: nat): (r: Block)
    requires n <= |addrs| && at + n <= WORDS && forall j :: 0 <= j < |addrs| ==> addrs[j] < 0x1_0000_0000
    ensures forall j: nat :: j < n ==> GetWord(r, at + j) == addrs[j]
    ensures forall x: nat :: x < WORDS && !(at <= x < at + n) ==> GetWord(r, x) == GetWord(c, x)
  {
    if n == 0 then c else SetWord(SetAddrs(c, at, addrs, n - 1), at + n - 1, addrs[n - 1])
  }

  /** iupdate(): the device numbers are those of the inode, so they stay. */
  ghost function SetInode(c: Block, k: nat, ip: Inode): (r: Block)
    requires k < IPB && Storable(ip)
  {
    var c0 := SetWord(c, 16 * k, GetWord(c, 16 * k) / 0x1_0000 * 0x1_0000 + ip.typ);
    var c1 := SetWord(c0, 16 * k + 1, GetWord(c, 16 * k + 1) % 0x1_0000 + ip.nlink * 0x1_0000);
    var c2 := SetWord(c1, 16 * k + 2, ip.size);
    SetAddrs(c2, 16 * k + 3, ip.addrs, NDIRECT + 1)
  }

  lemma SetInodeWords(c: Block, k: nat, ip: Inode)
    requires k < IPB && Storable(ip)
    ensures var r := SetInode(c, k, ip);
            && GetWord(r, 16 * k) == GetWord(c, 16 * k) / 0x1_0000 * 0x1_0000 + ip.typ
            && GetWord(r, 16 * k + 1) == GetWord(c, 16 * k + 1) % 0x1_0000 + ip.nlink * 0x1_0000
            && GetWord(r, 16 * k + 2) == ip.size
            && (forall j: nat :: j < NDIRECT + 1 ==> GetWord(r, 16 * k + 3 + j) == ip.addrs[j])
            && forall x: nat :: x < WORDS && !(16 * k <= x < 16 * k + 16) ==> GetWord(r, x) == GetWord(c, x)
  {
    hide GetWord, SetWord;
  }

  lemma Halves(w: nat, typ: nat)
    requires w < 0x1_0000_0000 && typ < 0x1_0000
    ensures (w / 0x1_0000 * 0x1_0000 + typ) % 0x1_0000 == typ && (w % 0x1_0000 + typ * 0x1_0000) / 0x1_0000 == typ
  {
  }

  /** An inode that is written is read back, and its neighbours are not touched. */
  lemma InodeRoundTrip(c: Block, k: nat, ip: Inode, k': nat)
    requires k < IPB && Storable(ip) && k' < IPB
    ensures InodeAt(SetInode(c, k, ip), k') == if k' == k then ip else InodeAt(c, k')
  {
    if k' == k {
      SameInode(c, k, ip);
    } else {
      OtherInode(c, k, ip, k');
    }
  }

  lemma SameInode(c: Block, k: nat, ip: Inode)
    requires k < IPB && Storable(ip)
    ensures InodeAt(SetInode(c, k, ip), k) == ip
  {
    SetInodeWords(c, k, ip);
    hide GetWord, SetWord, SetInode, SetAddrs;
    Halves(GetWord(c, 16 * k), ip.typ);
    Halves(GetWord(c, 16 * k + 1), ip.nlink);
    assert InodeAt(SetInode(c, k, ip), k).addrs == ip.addrs;
  }

  lemma OtherInode(c: Block, k: nat, ip: Inode, k': nat)
    requires k < IPB && Storable(ip) && k' < IPB && k' != k
    ensures InodeAt(SetInode(c, k, ip), k') == InodeAt(c, k')
  {
    SetInodeWords(c, k, ip);
    hide GetWord, SetWord, SetInode, SetAddrs, Storable;
    assert InodeAt(SetInode(c, k, ip), k').addrs == InodeAt(c, k').addrs;
  }

  lemma ReadsStorable(c: Block, k: nat)
    requires k < IPB
    ensures Storable(InodeAt(c, k))
  {
    hide GetWord;
  }

  /** iupdate() of the inodes that the first `n` slots of a block are for; `base` is the number of the
      first one. */
  ghost function SetInodes(c: Block, base: nat, ino: map<nat, Inode>, n: nat): (r: Block)
    requires n <= IPB && forall j :: j in ino ==> Storable(ino[j])
  {
    if n == 0 then c
    else
      var r := SetInodes(c, base, ino, n - 1);
      if base + n - 1 in ino then SetInode(r, n - 1, ino[base + n - 1]) else r
  }

  lemma {:induction false} InodesRoundTrip(c: Block, base: nat, ino: map<nat, Inode>, n: nat, k: nat)
    requires n <= IPB && k < IPB && forall j :: j in ino ==> Storable(ino[j])
    ensures InodeAt(SetInodes(c, base, ino, n), k) == if k < n && base + k in ino then ino[base + k] else InodeAt(c, k)
  {
    hide InodeAt, SetInode, Storable;
    if n > 0 {
      InodesRoundTrip(c, base, ino, n - 1, k);
      if base + n - 1 in ino {
        InodeRoundTrip(SetInodes(c, base, ino, n - 1), n - 1, ino[base + n - 1], k);
      }
    }
  }

  // ---- The bitmap --------------------------------------------------------------------------------

  /** Bit `j` of a byte: x & (1 << j). */
  function Bit(x: nat, j: nat): (b: bool)
    decreases j
  {
    if j == 0 then x % 2 == 1 else Bit(x / 2, j - 1)
  }

  function BitAt(c: Block, k: nat): (b: bool)
    requires k < BPB
  {
    Bit(c[k / 8], k % 8)
  }

  function Pow2(n: nat): (p: nat)
    ensures p > 0
  {
    if n == 0 then 1 else 2 * Pow2(n - 1)
  }

  function Number(s: seq<bool>): (x: nat)
    ensures x < Pow2(|s|)
  {
    if s == [] then 0 else (if s[0] then 1 else 0) + 2 * Number(s[1..])
  }

  lemma {:induction false} BitOfNumber(s: seq<bool>, j: nat)
    requires j < |s|
    ensures Bit(Number(s), j) == s[j]
    decreases j
  {
    Halve(Number(s[1..]), s[0]);
    if j > 0 {
      BitOfNumber(s[1..], j - 1);
    }
  }

  lemma Halve(x: nat, b: bool)
    ensures var y := (if b then 1 else 0) + 2 * x; y / 2 == x && (y % 2 == 1 <==> b)
  {
  }

  /** The lowest `n` bits of a number. */
  function LowBits(x: nat, n: nat): (s: seq<bool>)
    ensures |s| == n
    decreases n
  {
    if n == 0 then [] else [x % 2 == 1] + LowBits(x / 2, n - 1)
  }

  lemma {:induction false} LowBitsAre(x: nat, n: nat, j: nat)
    requires j < n
    ensures LowBits(x, n)[j] == Bit(x, j)
    decreases n
  {
    if j > 0 {
      LowBitsAre(x / 2, n - 1, j - 1);
    }
  }

  lemma {:induction false} NumberOfLowBits(x: nat, n: nat)
    requires x < Pow2(n)
    ensures Number(LowBits(x, n)) == x
    decreases n
  {
    if n > 0 {
      NumberOfLowBits(x / 2, n - 1);
      assert LowBits(x, n)[1..] == LowBits(x / 2, n - 1);
    }
  }

  /** A byte of a bitmap block is the number that its eight bits are, the first one the lowest. */
  lemma BitLayout(c: Block, x: nat, s: seq<bool>)
    requires x < BSIZE && |s| == 8 && forall j :: 0 <= j < 8 ==> s[j] == BitAt(c, 8 * x + j)
    ensures c[x] == Number(s)
  {
    EightIs();
    NumberOfLowBits(c[x], 8);
    forall j | 0 <= j < 8 ensures s[j] == LowBits(c[x], 8)[j] {
      LowBitsAre(c[x], 8, j);
      assert (8 * x + j) / 8 == x && (8 * x + j) % 8 == j;
    }
    assert s == LowBits(c[x], 8);
  }

  function MakeByte(s: seq<bool>): (x: Byte)
    requires |s| == 8
  {
    EightIs();
    Number(s)
  }

  lemma EightIs()
    ensures Pow2(8) == 256
  {
    assert Pow2(4) == 16;
  }

  /** Bit `k` of a bitmap block whose first bit is that of block `base`; beyond the disk it stays. */
  function Wanted(c: Block, base: nat, bits: seq<bool>, k: nat): (b: bool)
    requires k < BPB
  {
    if base + k < |bits| then bits[base + k] else BitAt(c, k)
  }

  function EightBits(c: Block, base: nat, bits: seq<bool>, x: nat): (s: seq<bool>)
    requires x < BSIZE
    ensures |s| == 8 && forall j :: 0 <= j < 8 ==> s[j] == Wanted(c, base, bits, 8 * x + j)
  {
    seq(8, j requires 0 <= j < 8 => Wanted(c, base, bits, 8 * x + j))
  }

  ghost function SetBits(c: Block, base: nat, bits: seq<bool>): (r: Block)
    ensures forall x :: 0 <= x < BSIZE ==> r[x] == MakeByte(EightBits(c, base, bits, x))
  {
    seq(BSIZE, x requires 0 <= x < BSIZE => MakeByte(EightBits(c, base, bits, x)))
  }

  lemma BitsRoundTrip(c: Block, base: nat, bits: seq<bool>, k: nat)
    requires k < BPB
    ensures BitAt(SetBits(c, base, bits), k) == Wanted(c, base, bits, k)
  {
    BitOfNumber(EightBits(c, base, bits, k / 8), k % 8);
  }
}
