/** Inodes and the blocks they own (kernel/fs.c), as values: which block holds which part of
    which file, and what has to be true of the block map for that to make sense. */
module Inodes {
  import opened Params
  import opened Blocks

  const NDIRECT: nat := 12
  const NINDIRECT: nat := WORDS
  const MAXFILE: nat := NDIRECT + NINDIRECT

  const MAXBYTES: nat := MAXFILE * BSIZE

  /** The slot number that stands for the indirect block itself. */
  const INDIRECT: nat := MAXFILE

  datatype Inode = Inode(typ: nat, nlink: nat, size: nat, addrs: seq<nat>)

  datatype Loc = Loc(i: nat, k: nat)

  /** Inodes, block contents, the free bitmap, and for each block in use the slot that refers
      to it. Blocks below `first` are the boot block, superblock, log, inodes and bitmap. */
  datatype Fs = Fs(first: nat, ino: map<nat, Inode>, blk: map<nat, Block>, bits: seq<bool>, own: map<nat, Loc>)

  /** The block in slot `k` of an inode: direct, through the indirect block, or that block. 0 if none. */
  function Slot(ip: Inode, blk: map<nat, Block>, k: nat): (b: nat)
    requires |ip.addrs| == NDIRECT + 1
  {
    if k < NDIRECT then ip.addrs[k]
    else if k == INDIRECT then ip.addrs[NDIRECT]
    else if k < MAXFILE && ip.addrs[NDIRECT] != 0 && ip.addrs[NDIRECT] in blk then
           GetWord(blk[ip.addrs[NDIRECT]], k - NDIRECT)
    else 0
  }

  ghost predicate Shaped(f: Fs, i: nat) { i in f.ino && |f.ino[i].addrs| == NDIRECT + 1 }

  ghost function SlotAt(f: Fs, i: nat, k: nat): (b: nat) {
    if Shaped(f, i) then Slot(f.ino[i], f.blk, k) else 0
  }

  /** A slot that is in use is the owner of its block. */
  ghost predicate SlotOk(f: Fs, i: nat, k: nat) {
    var b := SlotAt(f, i, k);
    b != 0 ==> b in f.own && f.own[b] == Loc(i, k)
  }

  /** A block with an owner is marked in use, and is in its owner's slot. */
  ghost predicate BlockOk(f: Fs, b: nat) {
    b in f.own ==>
      && f.first <= b < |f.bits| && f.bits[b] && b in f.blk
      && f.own[b].i in f.ino && f.own[b].k <= INDIRECT && SlotAt(f, f.own[b].i, f.own[b].k) == b
  }

  /** ... and a block that is marked in use has an owner: none is leaked. */
  ghost predicate BitOk(f: Fs, b: nat) {
    b < |f.bits| && f.bits[b] ==> b < f.first || b in f.own
  }

  function BlocksOf(size: nat): (n: nat) { (size + BSIZE - 1) / BSIZE }

  /** The first `n` slots are in use. */
  ghost predicate Filled(f: Fs, i: nat, n: nat) {
    n <= MAXFILE && forall k :: 0 <= k < n ==> SlotAt(f, i, k) != 0
  }

  /** Every block in use belongs to exactly one slot of one inode and its bit is set; every
      other data block is free; and blocks below the size of a file are there. */
  ghost predicate Inv(f: Fs) {
    && 0 < f.first <= |f.bits| <= 0x1_0000_0000 && (forall b :: 0 <= b < f.first ==> f.bits[b])
    && (forall i :: i in f.ino ==> Shaped(f, i) && Filled(f, i, BlocksOf(f.ino[i].size)))
    && (forall i, k: nat :: i in f.ino ==> SlotOk(f, i, k))
    && (forall b: nat :: BlockOk(f, b) && BitOk(f, b))
  }

  /** Block `b`, free before, now belongs to slot `k` of inode `i` and is zeroed; all other
      slots, all sizes and the contents of all data blocks are as they were. */
  ghost predicate Attached(f: Fs, f': Fs, i: nat, k: nat, b: nat) {
    && f.first <= b < |f.bits| && !f.bits[b] && k <= INDIRECT
    && f'.first == f.first && f'.bits == f.bits[b := true] && f'.own == f.own[b := Loc(i, k)]
    && f'.ino.Keys == f.ino.Keys && i in f.ino
    && (forall j :: j in f.ino ==> Shaped(f', j) && f'.ino[j].(addrs := f.ino[j].addrs) == f.ino[j])
    && (forall j :: j in f.ino && j != i ==> f'.ino[j] == f.ino[j])
    && (forall j, l: nat :: j in f.ino ==> SlotAt(f', j, l) == if j == i && l == k then b else SlotAt(f, j, l))
    && b in f'.blk && f'.blk[b] == ZeroBlock()
    && (forall c :: c in f.blk ==> c in f'.blk)
    && (forall c :: c in f.own && f.own[c].k != INDIRECT && c in f.blk ==> f'.blk[c] == f.blk[c])
  }

  lemma ZeroWords(j: nat)
    requires j < WORDS
    ensures GetWord(ZeroBlock(), j) == 0
  {
  }

  /** The shape of a state in which `b` has been allocated and attached directly. */
  function AttachDirect(f: Fs, i: nat, k: nat, b: nat): (f': Fs)
    requires i in f.ino && |f.ino[i].addrs| == NDIRECT + 1 && (k < NDIRECT || k == INDIRECT) && b < |f.bits|
  {
    var at := if k == INDIRECT then NDIRECT else k;
    f.(ino := f.ino[i := f.ino[i].(addrs := f.ino[i].addrs[at := b])],
       blk := f.blk[b := ZeroBlock()], bits := f.bits[b := true], own := f.own[b := Loc(i, k)])
  }

  function AttachIndirect(f: Fs, i: nat, k: nat, b: nat): (f': Fs)
    requires i in f.ino && |f.ino[i].addrs| == NDIRECT + 1 && NDIRECT <= k < MAXFILE && b < |f.bits| <= 0x1_0000_0000
    requires f.ino[i].addrs[NDIRECT] in f.blk
  {
    var ind := f.ino[i].addrs[NDIRECT];
    f.(blk := f.blk[b := ZeroBlock()][ind := SetWord(f.blk[ind], k - NDIRECT, b)], bits := f.bits[b := true],
       own := f.own[b := Loc(i, k)])
  }

  /** A free block is nobody's indirect block. */
  lemma FreeIsNobodys(f: Fs, b: nat, j: nat, k: nat)
    requires Inv(f) && f.first <= b < |f.bits| && !f.bits[b] && j in f.ino
    ensures SlotAt(f, j, k) != b && b !in f.own
  {
    assert SlotOk(f, j, k) && BlockOk(f, b);
  }

  lemma AttachDirectSlot(f: Fs, i: nat, k: nat, b: nat, j: nat, l: nat)
    requires Inv(f) && i in f.ino && (k < NDIRECT || k == INDIRECT) && SlotAt(f, i, k) == 0
    requires f.first <= b < |f.bits| && !f.bits[b] && j in f.ino && Shaped(f, i)
    ensures var f' := AttachDirect(f, i, k, b);
            Shaped(f', j) && SlotAt(f', j, l) == if j == i && l == k then b else SlotAt(f, j, l)
  {
    hide GetWord;
    assert Shaped(f, j);
    FreeIsNobodys(f, b, j, INDIRECT);
    if NDIRECT <= l < MAXFILE && k == INDIRECT && j == i {
      ZeroWords(l - NDIRECT);
    }
  }

  lemma AttachDirectly(f: Fs, i: nat, k: nat, b: nat)
    requires Inv(f) && i in f.ino && (k < NDIRECT || k == INDIRECT) && SlotAt(f, i, k) == 0
    requires f.first <= b < |f.bits| && !f.bits[b]
    ensures Shaped(f, i) && Attached(f, AttachDirect(f, i, k, b), i, k, b)
  {
    var f' := AttachDirect(f, i, k, b);
    forall j, l: nat | j in f.ino
      ensures Shaped(f', j) && SlotAt(f', j, l) == if j == i && l == k then b else SlotAt(f, j, l)
    {
      AttachDirectSlot(f, i, k, b, j, l);
    }
    FreeIsNobodys(f, b, i, 0);
  }

  lemma AttachIndirectSlot(f: Fs, i: nat, k: nat, b: nat, j: nat, l: nat)
    requires Inv(f) && i in f.ino && NDIRECT <= k < MAXFILE && SlotAt(f, i, INDIRECT) != 0
    requires f.first <= b < |f.bits| && !f.bits[b] && j in f.ino && Shaped(f, i) && f.ino[i].addrs[NDIRECT] in f.blk
    ensures var f' := AttachIndirect(f, i, k, b);
            Shaped(f', j) && SlotAt(f', j, l) == if j == i && l == k then b else SlotAt(f, j, l)
  {
    hide GetWord, SetWord;
    assert Shaped(f, j);
    FreeIsNobodys(f, b, j, INDIRECT);
    FreeIsNobodys(f, b, i, INDIRECT);
    assert SlotOk(f, i, INDIRECT) && SlotOk(f, j, INDIRECT);
  }

  lemma AttachIndirectly(f: Fs, i: nat, k: nat, b: nat)
    requires Inv(f) && i in f.ino && NDIRECT <= k < MAXFILE && SlotAt(f, i, INDIRECT) != 0
    requires f.first <= b < |f.bits| && !f.bits[b]
    ensures Shaped(f, i) && f.ino[i].addrs[NDIRECT] in f.blk && Attached(f, AttachIndirect(f, i, k, b), i, k, b)
  {
    hide GetWord, SetWord;
    assert SlotOk(f, i, INDIRECT) && BlockOk(f, SlotAt(f, i, INDIRECT));
    var f' := AttachIndirect(f, i, k, b);
    forall j, l: nat | j in f.ino
      ensures Shaped(f', j) && SlotAt(f', j, l) == if j == i && l == k then b else SlotAt(f, j, l)
    {
      AttachIndirectSlot(f, i, k, b, j, l);
    }
    FreeIsNobodys(f, b, i, 0);
    FreeIsNobodys(f, b, i, INDIRECT);
  }

  /** Attaching a block to an empty slot keeps the invariant. */
  lemma AttachKeepsInv(f: Fs, f': Fs, i: nat, k: nat, b: nat)
    requires Inv(f) && Attached(f, f', i, k, b) && SlotAt(f, i, k) == 0
    ensures Inv(f')
  {
    hide Slot;
    FreeIsNobodys(f, b, i, 0);
    forall j | j in f'.ino ensures Filled(f', j, BlocksOf(f'.ino[j].size)) {
      assert Filled(f, j, BlocksOf(f.ino[j].size));
    }
    forall j, l: nat | j in f'.ino ensures SlotOk(f', j, l) {
      FreeIsNobodys(f, b, j, l);
      assert SlotOk(f, j, l);
    }
    forall c: nat ensures BlockOk(f', c) && BitOk(f', c) {
      assert BlockOk(f, c) && BitOk(f, c);
    }
  }

  /** The blocks of a file in order: those of the inode, then those that the indirect block lists. */
  function FileBlocks(ip: Inode, blk: map<nat, Block>): (bs: seq<nat>)
    requires |ip.addrs| == NDIRECT + 1
    ensures |bs| == MAXFILE
  {
    ip.addrs[..NDIRECT] +
    if ip.addrs[NDIRECT] != 0 && ip.addrs[NDIRECT] in blk then Listed(blk[ip.addrs[NDIRECT]], NINDIRECT)
    else seq(NINDIRECT, _ => 0)
  }

  /** The block numbers at the front of an indirect block, four bytes each. */
  function Listed(b: Block, n: nat): (bs: seq<nat>)
    requires n <= NINDIRECT
    ensures |bs| == n
  {
    if n == 0 then [] else Listed(b, n - 1) + [LittleEndian(b[4 * (n - 1)..4 * n])]
  }

  lemma {:induction false} ListedIs(b: Block, n: nat, j: nat)
    requires j < n <= NINDIRECT
    ensures Listed(b, n)[j] == GetWord(b, j)
  {
    if j < n - 1 {
      ListedIs(b, n - 1, j);
    } else {
      WordIsLittleEndian(b, j);
    }
  }

  /** The slots of an inode are the blocks of its file, in order. */
  lemma SlotsAreFileBlocks(ip: Inode, blk: map<nat, Block>, k: nat)
    requires |ip.addrs| == NDIRECT + 1 && k < MAXFILE
    ensures Slot(ip, blk, k) == FileBlocks(ip, blk)[k]
  {
    if k >= NDIRECT && ip.addrs[NDIRECT] != 0 && ip.addrs[NDIRECT] in blk {
      ListedIs(blk[ip.addrs[NDIRECT]], NINDIRECT, k - NDIRECT);
    }
  }

  // ---- What the files contain --------------------------------------------------------------------

  /** The block of a file that a position is in, and the place in it. */
  function BlockNo(pos: nat): (k: nat) { pos / BSIZE }
  function Offset(pos: nat): (o: nat)
    ensures o < BSIZE
  {
    pos % BSIZE
  }

  /** The byte at a position of a file; 0 where no block is. */
  ghost function ByteAt(f: Fs, i: nat, pos: nat): (x: Byte) {
    var b := SlotAt(f, i, BlockNo(pos));
    if BlockNo(pos) < MAXFILE && b != 0 && b in f.blk then f.blk[b][Offset(pos)] else 0
  }

  /** Only the block map of inode `i` may have grown, and its bytes may have changed. */
  ghost predicate Touches(f: Fs, f': Fs, i: nat) {
    && f'.first == f.first && f'.ino.Keys == f.ino.Keys
    && (forall j :: j in f.ino && j != i ==> f'.ino[j] == f.ino[j])
    && (i in f.ino ==> f'.ino[i].(addrs := f.ino[i].addrs) == f.ino[i])
    && (forall j, k: nat :: j in f.ino && SlotAt(f, j, k) != 0 ==> SlotAt(f', j, k) == SlotAt(f, j, k))
  }

  /** The bytes of `src` from `lo` up to `hi` have been put in file `i`, with src[0] belonging at
      position `off`; no other byte of any file has changed. */
  ghost predicate Stored(f: Fs, f': Fs, i: nat, off: nat, src: seq<Byte>, lo: nat, hi: nat) {
    && lo <= hi <= |src|
    && forall j, pos: nat :: j in f.ino ==>
                               ByteAt(f', j, pos) == if j == i && off + lo <= pos < off + hi then src[pos - off]
                                                     else ByteAt(f, j, pos)
  }

  /** No byte of any file has changed. */
  ghost predicate Unseen(f: Fs, f': Fs) {
    forall j, pos: nat :: j in f.ino ==> ByteAt(f', j, pos) == ByteAt(f, j, pos)
  }

  /** A new block is not seen. */
  lemma AttachUnseen(f: Fs, f': Fs, i: nat, k: nat, b: nat)
    requires Inv(f) && Attached(f, f', i, k, b) && SlotAt(f, i, k) == 0
    ensures Touches(f, f', i) && Unseen(f, f')
  {
    hide Slot, BlockNo;
    forall j, pos: nat | j in f.ino ensures ByteAt(f', j, pos) == ByteAt(f, j, pos) {
      var l := BlockNo(pos);
      assert SlotOk(f, j, l) && BlockOk(f, SlotAt(f, j, l));
      assert SlotAt(f', j, l) == if j == i && l == k then b else SlotAt(f, j, l);
    }
  }

  lemma TouchesTrans(f: Fs, f1: Fs, f2: Fs, i: nat)
    requires Touches(f, f1, i) && Touches(f1, f2, i)
    ensures Touches(f, f2, i)
  {
  }

  lemma UnseenTrans(f: Fs, f1: Fs, f2: Fs)
    requires Unseen(f, f1) && Unseen(f1, f2) && f1.ino.Keys == f.ino.Keys
    ensures Unseen(f, f2)
  {
  }

  lemma StoredMore(f: Fs, f1: Fs, f2: Fs, i: nat, off: nat, src: seq<Byte>, lo: nat, d: nat, d': nat)
    requires Stored(f, f1, i, off, src, lo, d) && Stored(f1, f2, i, off, src, d, d') && f1.ino.Keys == f.ino.Keys
    ensures Stored(f, f2, i, off, src, lo, d')
  {
  }

  lemma StoredUnseen(f: Fs, f1: Fs, f2: Fs, i: nat, off: nat, src: seq<Byte>, lo: nat, hi: nat)
    requires Unseen(f, f1) && Stored(f1, f2, i, off, src, lo, hi) && f1.ino.Keys == f.ino.Keys
    ensures Stored(f, f2, i, off, src, lo, hi)
  {
  }

  lemma UnseenStored(f: Fs, f1: Fs, f2: Fs, i: nat, off: nat, src: seq<Byte>, lo: nat, hi: nat)
    requires Stored(f, f1, i, off, src, lo, hi) && Unseen(f1, f2) && f1.ino.Keys == f.ino.Keys
    ensures Stored(f, f2, i, off, src, lo, hi)
  {
  }

  /** The `n` bytes at `pos` lie in one block. */
  predicate Fits(pos: nat, n: nat) { n <= BSIZE - Offset(pos) }

  /** Positions within a block. */
  lemma SameBlock(a: nat, y: nat, n: nat)
    requires Fits(a, n)
    ensures a <= y < a + n <==> BlockNo(y) == BlockNo(a) && Offset(a) <= Offset(y) < Offset(a) + n
    ensures a <= y < a + n ==> Offset(y) == Offset(a) + (y - a)
  {
    var p, o := BlockNo(a), Offset(a);
    var q, r := BlockNo(y), Offset(y);
    assert a == p * BSIZE + o && y == q * BSIZE + r;
  }

  /** A block with the bytes of `src` from `lo` up to `hi` put at offset `o`. */
  function Overwrite(b: Block, o: nat, src: seq<Byte>, lo: nat, hi: nat): (r: Block)
    requires lo <= hi <= |src| && o + (hi - lo) <= BSIZE
    ensures forall i :: 0 <= i < BSIZE ==> r[i] == if o <= i < o + (hi - lo) then src[lo + i - o] else b[i]
  {
    b[..o] + src[lo..hi] + b[o + (hi - lo)..]
  }

  /** Overwriting a data block changes no block map. */
  lemma DataKeepsSlots(f: Fs, i: nat, k: nat, x: Block, j: nat, l: nat)
    requires Inv(f) && i in f.ino && j in f.ino && k < MAXFILE && SlotAt(f, i, k) != 0
    ensures SlotAt(f.(blk := f.blk[SlotAt(f, i, k) := x]), j, l) == SlotAt(f, j, l)
  {
    hide GetWord;
    assert SlotOk(f, i, k) && SlotOk(f, j, INDIRECT);
  }

  lemma DataKeepsInv(f: Fs, i: nat, k: nat, x: Block)
    requires Inv(f) && i in f.ino && k < MAXFILE && SlotAt(f, i, k) != 0
    ensures SlotAt(f, i, k) in f.blk
    ensures var f' := f.(blk := f.blk[SlotAt(f, i, k) := x]);
            && Inv(f') && Touches(f, f', i)
            && (forall j, l: nat :: j in f.ino ==> SlotAt(f', j, l) == SlotAt(f, j, l))
  {
    var b := SlotAt(f, i, k);
    var f' := f.(blk := f.blk[b := x]);
    assert SlotOk(f, i, k) && BlockOk(f, b);
    forall j, l: nat | j in f.ino ensures SlotAt(f', j, l) == SlotAt(f, j, l) {
      DataKeepsSlots(f, i, k, x, j, l);
    }
    hide Slot, BlocksOf;
    forall j | j in f.ino ensures Shaped(f', j) && Filled(f', j, BlocksOf(f'.ino[j].size)) {
      assert Shaped(f, j) && Filled(f, j, BlocksOf(f.ino[j].size));
    }
    forall j, l: nat | j in f.ino ensures SlotOk(f', j, l) {
      assert SlotOk(f, j, l);
    }
    forall c: nat ensures BlockOk(f', c) && BitOk(f', c) {
      assert BlockOk(f, c) && BitOk(f, c);
    }
  }

  /** Writing into a block puts the bytes there and nowhere else. */
  lemma PutStored(f: Fs, i: nat, off: nat, src: seq<Byte>, lo: nat, hi: nat)
    requires Inv(f) && i in f.ino && lo < hi <= |src| && Fits(off + lo, hi - lo) && BlockNo(off + lo) < MAXFILE
    requires SlotAt(f, i, BlockNo(off + lo)) != 0
    ensures var b := SlotAt(f, i, BlockNo(off + lo));
            && b in f.blk
            && var f' := f.(blk := f.blk[b := Overwrite(f.blk[b], Offset(off + lo), src, lo, hi)]);
            && Inv(f') && Touches(f, f', i) && Stored(f, f', i, off, src, lo, hi) &&
               SlotAt(f', i, BlockNo(off + lo)) == b
  {
    var k, b := BlockNo(off + lo), SlotAt(f, i, BlockNo(off + lo));
    assert SlotOk(f, i, k) && BlockOk(f, b);
    var x := Overwrite(f.blk[b], Offset(off + lo), src, lo, hi);
    var f' := f.(blk := f.blk[b := x]);
    DataKeepsInv(f, i, k, x);
    hide Slot, Touches, BlocksOf;
    forall j, pos: nat | j in f.ino
      ensures ByteAt(f', j, pos) == if j == i && off + lo <= pos < off + hi then src[pos - off] else ByteAt(f, j, pos)
    {
      SameBlock(off + lo, pos, hi - lo);
      PutByte(f, i, k, j, pos, x);
    }
  }

  lemma PutByte(f: Fs, i: nat, k: nat, j: nat, pos: nat, x: Block)
    requires Inv(f) && i in f.ino && j in f.ino && k < MAXFILE && SlotAt(f, i, k) != 0
    ensures ByteAt(f.(blk := f.blk[SlotAt(f, i, k) := x]), j, pos) == if j == i && BlockNo(pos) == k then x[Offset(pos)]
                                                                      else ByteAt(f, j, pos)
  {
    DataKeepsSlots(f, i, k, x, j, BlockNo(pos));
    hide Slot, BlockNo;
    assert SlotOk(f, i, k) && SlotOk(f, j, BlockNo(pos)) && BlockOk(f, SlotAt(f, i, k));
  }

  /** Changing the size of a file to something its blocks cover. */
  lemma SizeKeepsInv(f: Fs, i: nat, size: nat)
    requires Inv(f) && i in f.ino && Filled(f, i, BlocksOf(size))
    ensures var f' := f.(ino := f.ino[i := f.ino[i].(size := size)]);
            Inv(f') && Unseen(f, f') && forall j, k: nat :: j in f.ino ==> SlotAt(f', j, k) == SlotAt(f, j, k)
  {
    var f' := f.(ino := f.ino[i := f.ino[i].(size := size)]);
    assert forall j, k: nat :: j in f.ino ==> SlotAt(f', j, k) == SlotAt(f, j, k);
    hide Slot, BlocksOf, BlockNo, SlotAt;
    forall j | j in f.ino ensures Shaped(f', j) && Filled(f', j, BlocksOf(f'.ino[j].size)) {
      assert Shaped(f, j) && Filled(f, j, BlocksOf(f.ino[j].size));
    }
    forall j, l: nat | j in f.ino ensures SlotOk(f', j, l) {
      assert SlotOk(f, j, l);
    }
    forall c: nat ensures BlockOk(f', c) && BitOk(f', c) {
      assert BlockOk(f, c) && BitOk(f, c);
    }
  }
}
