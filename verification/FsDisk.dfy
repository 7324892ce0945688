/** What it means for the blocks of a disk to be a file system (kernel/fs.h), and that the blocks that an
    operation logs take the disk from the file system before it to the one after it. */
module FsDisk {
  import opened Params
  import opened Blocks
  import opened Inodes
  import opened FileSys
  import opened FileOps
  import opened FsImage

  /** Where the log, the inodes and the bitmap start. */
  datatype Layout = Layout(start: nat, inodestart: nat, bmapstart: nat)

  const FSMAGIC: nat := 0x10203040

  /** struct superblock: magic, size, nblocks, ninodes, nlog, logstart, inodestart, bmapstart. */
  ghost predicate Super(x: Block, f: Fs, y: Layout) {
    && GetWord(x, 0) == FSMAGIC && GetWord(x, 1) == |f.bits| && GetWord(x, 2) + f.first == |f.bits|
    && (forall i :: i in f.ino <==> 1 <= i < GetWord(x, 3))
    && GetWord(x, 5) == y.start && GetWord(x, 6) == y.inodestart && GetWord(x, 7) == y.bmapstart
  }

  /** Superblock, log, inodes, bitmap and data follow each other on the disk. */
  ghost predicate Placed(f: Fs, y: Layout) {
    && 1 < y.start && y.start + LOGBLOCKS < y.inodestart <= y.bmapstart <= f.first <= |f.bits|
    && (forall i :: i in f.ino ==> InodeBlock(y.inodestart, i) < y.bmapstart)
    && (forall b: nat :: b < |f.bits| ==> BitBlock(y.bmapstart, b) < f.first)
  }

  ghost predicate InodeStored(c: map<nat, Block>, f: Fs, y: Layout, i: nat)
    requires i in f.ino
  {
    InodeBlock(y.inodestart, i) in c && InodeAt(c[InodeBlock(y.inodestart, i)], i % IPB) == f.ino[i]
  }

  /** The place of the bit of block `b` in its bitmap block, and the block that the first bit of bitmap
      block `n` is for. */
  function BitPos(b: nat): (k: nat)
    ensures k < BPB
  {
    b % BPB
  }

  function FirstBit(bmapstart: nat, n: nat): (b: nat)
    requires bmapstart <= n
  {
    (n - bmapstart) * BPB
  }

  /** The inode that the first slot of inode block `n` is for. */
  function FirstInode(inodestart: nat, n: nat): (i: nat)
    requires inodestart <= n
  {
    (n - inodestart) * IPB
  }

  /** Bit `b` of the bitmap, and inode `i` of the inodes, counted from where they start. */
  lemma BitPlace(bmapstart: nat, b: nat)
    ensures (BitBlock(bmapstart, b) - bmapstart) * BPB + BitPos(b) == b
  {
  }

  lemma InodePlace(inodestart: nat, i: nat)
    ensures (InodeBlock(inodestart, i) - inodestart) * IPB + i % IPB == i
  {
  }

  ghost predicate BitStored(c: map<nat, Block>, f: Fs, y: Layout, b: nat)
    requires b < |f.bits|
  {
    BitBlock(y.bmapstart, b) in c && BitAt(c[BitBlock(y.bmapstart, b)], BitPos(b)) == f.bits[b]
  }

  /** All blocks from the first data block on are data blocks, and the disk has their contents. */
  ghost predicate DataStored(c: map<nat, Block>, f: Fs) {
    && (forall b :: b in f.blk <==> f.first <= b < |f.bits|)
    && (forall b :: b in f.blk ==> b in c && c[b] == f.blk[b])
  }

  /** The blocks of the disk are the file system `f`. */
  ghost predicate Represents(c: map<nat, Block>, f: Fs, y: Layout) {
    && (forall n: nat :: n < |f.bits| ==> n in c) && 1 in c && Super(c[1], f, y) && DataStored(c, f)
    && (forall i :: i in f.ino ==> InodeStored(c, f, y, i))
    && (forall b: nat :: b < |f.bits| ==> BitStored(c, f, y, b))
  }

  /** A disk is at most one file system. */
  lemma OneMeaning(c: map<nat, Block>, f: Fs, y: Layout, f': Fs, y': Layout)
    requires Represents(c, f, y) && Represents(c, f', y') && Inv(f) && Inv(f')
    ensures f' == f && y' == y
  {
    assert y' == y && f'.first == f.first && |f'.bits| == |f.bits| && f'.ino.Keys == f.ino.Keys by {
      hide Inv, InodeStored, BitStored, DataStored, GetWord;
    }
    SameFields(c, f, y, f');
    hide Represents;
    SameOwners(f, f');
    SameOwners(f', f);
  }

  lemma SameFields(c: map<nat, Block>, f: Fs, y: Layout, f': Fs)
    requires Represents(c, f, y) && Represents(c, f', y) && f'.first == f.first
    requires |f'.bits| == |f.bits| && f'.ino.Keys == f.ino.Keys
    ensures f'.ino == f.ino && f'.bits == f.bits && f'.blk == f.blk
  {
    hide Super, InodeAt, BitAt, InodeBlock, BitBlock;
    forall i | i in f.ino ensures f'.ino[i] == f.ino[i] {
      assert InodeStored(c, f, y, i) && InodeStored(c, f', y, i);
    }
    forall b: nat | b < |f.bits| ensures f'.bits[b] == f.bits[b] {
      assert BitStored(c, f, y, b) && BitStored(c, f', y, b);
    }
  }

  lemma SameOwners(f: Fs, f': Fs)
    requires Inv(f) && Inv(f') && f'.ino == f.ino && f'.blk == f.blk
    ensures forall b :: b in f.own ==> b in f'.own && f'.own[b] == f.own[b]
  {
    forall b | b in f.own ensures b in f'.own && f'.own[b] == f.own[b] {
      assert BlockOk(f, b) && SlotOk(f', f.own[b].i, f.own[b].k);
    }
  }

  /** The same but for the contents of some blocks. */
  ghost predicate SameBut(f: Fs, f': Fs, s: set<nat>) {
    && f' == f.(blk := f'.blk) && f'.blk.Keys == f.blk.Keys
    && forall b :: b in f.blk && b !in s ==> f'.blk[b] == f.blk[b]
  }

  ghost predicate AllStorable(f: Fs) { forall i :: i in f.ino ==> FsImage.Storable(f.ino[i]) }

  /** What is in the buffer of block `n`, which was `x` on the disk, when the file system is `f`. */
  ghost function NewBlock(x: Block, n: nat, f: Fs, y: Layout): (r: Block)
    requires AllStorable(f)
  {
    if n >= f.first then if n in f.blk then f.blk[n] else x
    else if n >= y.bmapstart then SetBits(x, FirstBit(y.bmapstart, n), f.bits)
    else if n >= y.inodestart then SetInodes(x, FirstInode(y.inodestart, n), f.ino, IPB)
    else x
  }

  /** The disk with the blocks `l` replaced. */
  ghost function NewBlocks(c: map<nat, Block>, f: Fs, y: Layout, l: set<nat>): (r: map<nat, Block>)
    requires AllStorable(f)
  {
    map n | n in c :: if n in l then NewBlock(c[n], n, f, y) else c[n]
  }

  /** What the disk has when the blocks that an operation logged have been installed over `f0`. */
  ghost function Kept(f0: Fs, x: Op): (f: Fs) {
    x.after.(blk := map b | b in x.after.blk :: if b in x.logged || b !in f0.blk then x.after.blk[b] else f0.blk[b])
  }

  /** The addresses of an inode are block numbers, so the inode fits in a dinode. */
  lemma StillStorable(x: Op, f0: Fs, s: set<nat>, y: Layout, c: map<nat, Block>)
    requires Sound(x, y.bmapstart, y.inodestart) && Represents(c, f0, y) && SameBut(f0, x.before, s)
    ensures AllStorable(x.after)
  {
    forall i | i in x.after.ino ensures FsImage.Storable(x.after.ino[i]) {
      assert InodeStored(c, f0, y, i) && InodeLogged(x, y.inodestart, i);
      hide Sound, Represents, SameBut, Inv, InodeBlock, InodeAt;
      SmallAddrs(x.after, i);
      ReadsStorable(c[InodeBlock(y.inodestart, i)], i % IPB);
    }
  }

  lemma SmallAddrs(f: Fs, i: nat)
    requires Inv(f) && i in f.ino
    ensures |f.ino[i].addrs| == NDIRECT + 1
    ensures forall j :: 0 <= j < |f.ino[i].addrs| ==> f.ino[i].addrs[j] < 0x1_0000_0000
  {
    assert Shaped(f, i);
    forall j | 0 <= j < |f.ino[i].addrs| ensures f.ino[i].addrs[j] < 0x1_0000_0000 {
      var k := if j == NDIRECT then INDIRECT else j;
      assert SlotOk(f, i, k) && SlotAt(f, i, k) == f.ino[i].addrs[j] && BlockOk(f, f.ino[i].addrs[j]);
    }
  }

  lemma NewInode(x: Op, f0: Fs, y: Layout, c: map<nat, Block>, j: nat)
    requires AllStorable(x.after) && j in f0.ino && InodeStored(c, f0, y, j) && x.before.ino == f0.ino
    requires InodeLogged(x, y.inodestart, j) && x.after.first == f0.first
    requires y.inodestart <= InodeBlock(y.inodestart, j) < y.bmapstart <= f0.first
    ensures InodeStored(NewBlocks(c, x.after, y, x.logged), x.after, y, j)
  {
    var n := InodeBlock(y.inodestart, j);
    if n in x.logged {
      assert FirstInode(y.inodestart, n) + j % IPB == j;
      hide InodeBlock, FirstInode, InodeAt, SetInodes;
      InodesRoundTrip(c[n], FirstInode(y.inodestart, n), x.after.ino, IPB, j % IPB);
    }
  }

  lemma NewBit(x: Op, f0: Fs, y: Layout, c: map<nat, Block>, b: nat)
    requires AllStorable(x.after) && b < |f0.bits| == |x.after.bits| && BitStored(c, f0, y, b)
    requires x.after.bits[b] != f0.bits[b] ==> BitBlock(y.bmapstart, b) in x.logged
    requires BitBlock(y.bmapstart, b) < f0.first == x.after.first
    ensures BitStored(NewBlocks(c, x.after, y, x.logged), x.after, y, b)
  {
    hide SetBits, SetInodes, BitAt, BitPos, FirstBit, BitBlock, FsImage.Storable;
    OneBit(c[BitBlock(y.bmapstart, b)], y.bmapstart, b, x.after.bits);
  }

  lemma OneBit(x: Block, bmapstart: nat, b: nat, bits: seq<bool>)
    requires b < |bits|
    ensures bmapstart <= BitBlock(bmapstart, b)
    ensures BitAt(SetBits(x, FirstBit(bmapstart, BitBlock(bmapstart, b)), bits), BitPos(b)) == bits[b]
  {
    var base := FirstBit(bmapstart, BitBlock(bmapstart, b));
    assert base + BitPos(b) == b;
    hide SetBits, BitAt;
    BitsRoundTrip(x, base, bits, BitPos(b));
  }

  lemma NewData(x: Op, f0: Fs, s: set<nat>, y: Layout, c: map<nat, Block>)
    requires AllStorable(x.after) && DataStored(c, f0) && SameBut(f0, x.before, s)
    requires Covered(x.before, x.after, y.bmapstart, x.logged, x.stray)
    ensures DataStored(NewBlocks(c, x.after, y, x.logged), Kept(f0, x))
  {
    hide SetBits, SetInodes, FirstBit, FirstInode, BitBlock;
  }

  lemma NewSuper(x: Op, f0: Fs, s: set<nat>, y: Layout, c: map<nat, Block>)
    requires Sound(x, y.bmapstart, y.inodestart) && Placed(f0, y) && SameBut(f0, x.before, s) && AllStorable(x.after)
    requires 1 in c && Super(c[1], f0, y)
    ensures var c' := NewBlocks(c, x.after, y, x.logged); 1 in c' && Super(c'[1], Kept(f0, x), y)
  {
    hide Inv, Covered, InodeLogged, GetWord, SetBits, SetInodes, FsImage.Storable, HoldsInode, Home;
    assert |x.after.bits| == |x.before.bits| && x.after.first == x.before.first by {
      CoveredSizes(x, y);
    }
  }

  lemma CoveredSizes(x: Op, y: Layout)
    requires Covered(x.before, x.after, y.bmapstart, x.logged, x.stray)
    ensures |x.after.bits| == |x.before.bits| && x.after.first == x.before.first
    ensures forall b: nat :: b < |x.before.bits| && x.after.bits[b] != x.before.bits[b] ==>
                               BitBlock(y.bmapstart, b) in x.logged
  {
  }

  lemma InodeBlockAt(inodestart: nat, i: nat)
    ensures InodeBlock(inodestart, i) >= inodestart
  {
  }

  lemma BitBlockAt(bmapstart: nat, b: nat)
    ensures BitBlock(bmapstart, b) >= bmapstart
  {
  }

  /** The disk with the blocks of an operation installed is the file system after it, but for blocks that
      were changed and not logged. */
  lemma OpRepresents(x: Op, f0: Fs, s: set<nat>, y: Layout, c: map<nat, Block>)
    requires Sound(x, y.bmapstart, y.inodestart) && SameBut(f0, x.before, s) && Represents(c, f0, y) && Placed(f0, y)
    ensures AllStorable(x.after) && Placed(Kept(f0, x), y)
    ensures Represents(NewBlocks(c, x.after, y, x.logged), Kept(f0, x), y)
  {
    StillStorable(x, f0, s, y, c);
    NewSuper(x, f0, s, y, c);
    NewData(x, f0, s, y, c);
    CoveredSizes(x, y);
    var c', f := NewBlocks(c, x.after, y, x.logged), Kept(f0, x);
    hide InodeStored, BitStored, SetBits, SetInodes, Inv, Covered, InodeBlock, BitBlock, Super, DataStored, AllStorable,
         InodeLogged, HoldsInode, DataBlock, Home;
    forall j | j in f.ino ensures InodeStored(c', f, y, j) {
      InodeBlockAt(y.inodestart, j);
      NewInode(x, f0, y, c, j);
      InodeAlike(c', x.after, f, y, j);
    }
    forall b: nat | b < |f.bits| ensures BitStored(c', f, y, b) {
      NewBit(x, f0, y, c, b);
      BitAlike(c', x.after, f, y, b);
    }
  }

  lemma InodeAlike(c: map<nat, Block>, f: Fs, f': Fs, y: Layout, j: nat)
    requires j in f.ino && f'.ino == f.ino
    ensures InodeStored(c, f, y, j) == InodeStored(c, f', y, j)
  {
  }

  lemma BitAlike(c: map<nat, Block>, f: Fs, f': Fs, y: Layout, b: nat)
    requires b < |f.bits| && f'.bits == f.bits
    ensures BitStored(c, f, y, b) == BitStored(c, f', y, b)
  {
  }
}
