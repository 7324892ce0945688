/** Freeing files: itrunc(), iput() and ireclaim() of kernel/fs.c. */
module Truncate {
  import opened Params
  import opened Blocks
  import opened Inodes
  import opened FileSys
  import opened FileOps

  /** Block `b` is in one of the first `m` slots of inode `i`. */
  ghost predicate InFirst(f: Fs, i: nat, m: nat, b: nat) {
    b in f.own && f.own[b].i == i && f.own[b].k < m
  }

  /** The bitmap after the blocks in the first `m` slots of inode `i` have been freed. */
  ghost function Cleared(f: Fs, i: nat, m: nat): (s: seq<bool>) {
    seq(|f.bits|, b requires 0 <= b < |f.bits| => f.bits[b] && !InFirst(f, i, m, b))
  }

  /** Freeing the block in one more slot, if there is one; its bit is still set. */
  lemma ClearedStep(f: Fs, i: nat, k: nat)
    requires Inv(f) && i in f.ino
    ensures SlotAt(f, i, k) == 0 ==> Cleared(f, i, k + 1) == Cleared(f, i, k)
    ensures SlotAt(f, i, k) != 0 ==>
              var b := SlotAt(f, i, k);
              b < |f.bits| && Cleared(f, i, k)[b] && Cleared(f, i, k + 1) == Cleared(f, i, k)[b := false]
  {
    hide Slot, SlotAt, BlocksOf;
    assert SlotOk(f, i, k) && BlockOk(f, SlotAt(f, i, k));
    forall c | 0 <= c < |f.bits|
      ensures InFirst(f, i, k + 1, c) <==> InFirst(f, i, k, c) || (c == SlotAt(f, i, k) != 0)
    {
      assert BlockOk(f, c);
    }
  }

  lemma ClearedNone(f: Fs, i: nat)
    ensures Cleared(f, i, 0) == f.bits
  {
  }

  /** Without an indirect block the slots behind it are empty. */
  lemma {:induction false} ClearedEmpty(f: Fs, i: nat, m: nat)
    requires Inv(f) && i in f.ino && NDIRECT <= m <= INDIRECT + 1 && SlotAt(f, i, INDIRECT) == 0
    ensures Cleared(f, i, m) == Cleared(f, i, NDIRECT)
  {
    if m > NDIRECT {
      ClearedEmpty(f, i, m - 1);
      ClearedStep(f, i, m - 1);
    }
  }

  /** The addresses with the first `k` of them zeroed. */
  function Zeroed(a: seq<nat>, k: nat): (r: seq<nat>)
    requires k <= |a|
    ensures |r| == |a| && forall x :: 0 <= x < |a| ==> r[x] == if x < k then 0 else a[x]
  {
    seq(k, _ => 0) + a[k..]
  }

  lemma ZeroedStep(a: seq<nat>, k: nat)
    requires k < |a|
    ensures Zeroed(a, k)[k := 0] == Zeroed(a, k + 1) && (a[k] == 0 ==> Zeroed(a, k) == Zeroed(a, k + 1)) &&
            Zeroed(a, 0) == a
  {
    assert Zeroed(a, 0) == a;
    assert Zeroed(a, k)[k := 0] == Zeroed(a, k + 1);
    assert a[k] == 0 ==> Zeroed(a, k) == Zeroed(a, k + 1);
  }

  ghost function Disown(own: map<nat, Loc>, i: nat): (r: map<nat, Loc>)
  {
    map b | b in own && own[b].i != i :: own[b]
  }

  /** The state after itrunc(): the inode is empty, its blocks are free, nothing else has
      changed. */
  ghost function Truncated(f: Fs, i: nat): (f': Fs)
    requires i in f.ino
  {
    f.(ino := f.ino[i := f.ino[i].(size := 0, addrs := Zeroed(f.ino[i].addrs, |f.ino[i].addrs|))],
       bits := Cleared(f, i, INDIRECT + 1),
       own := Disown(f.own, i))
  }

  lemma TruncatedSlots(f: Fs, i: nat, j: nat, k: nat)
    requires Inv(f) && i in f.ino && j in f.ino
    ensures SlotAt(Truncated(f, i), j, k) == if j == i then 0 else SlotAt(f, j, k)
  {
    assert Shaped(f, i) && Shaped(f, j);
  }

  lemma TruncateKeepsInv(f: Fs, i: nat)
    requires Inv(f) && i in f.ino
    ensures Inv(Truncated(f, i)) &&
            forall j, pos: nat :: j in f.ino && j != i ==> ByteAt(Truncated(f, i), j, pos) == ByteAt(f, j, pos)
  {
    var f' := Truncated(f, i);
    assert f'.first == f.first && |f'.bits| == |f.bits|;
    forall j, k: nat | j in f.ino ensures SlotAt(f', j, k) == if j == i then 0 else SlotAt(f, j, k) {
      TruncatedSlots(f, i, j, k);
    }
    forall j | j in f.ino ensures Shaped(f', j) {
      assert Shaped(f, j) && Shaped(f, i);
    }
    assert BlocksOf(0) == 0;
    hide Slot, SlotAt, BlocksOf, BlockNo;
    forall j | j in f.ino ensures Filled(f', j, BlocksOf(f'.ino[j].size)) {
      assert Filled(f, j, BlocksOf(f.ino[j].size));
    }
    forall j, k: nat | j in f.ino ensures SlotOk(f', j, k) {
      assert SlotOk(f, j, k);
    }
    forall b: nat ensures BlockOk(f', b) && BitOk(f', b) {
      assert BlockOk(f, b) && BitOk(f, b);
    }
    forall b | 0 <= b < f'.first ensures f'.bits[b] {
      assert BlockOk(f, b);
    }
  }

  /** The state in the middle of itrunc(): the first `k` addresses are cleared and the first `m`
      slots freed. */
  ghost predicate Truncating(fs: FileSystem, f: Fs, i: nat, k: nat, m: nat)
    reads fs
  {
    && fs.first == f.first && i in f.ino && k <= |f.ino[i].addrs| && fs.blk == f.blk && fs.own == f.own
    && fs.ino == f.ino[i := f.ino[i].(addrs := Zeroed(f.ino[i].addrs, k))] && fs.bits == Cleared(f, i, m)
  }

  /** A block of the bitmap. */
  ghost predicate InBitmap(f: Fs, bmapstart: nat, n: nat) {
    bmapstart <= n && (n - bmapstart) * BPB < |f.bits|
  }

  /** How far an operation had come with the log: the blocks that it had logged, and the most that there
      were when it called log_write(). */
  datatype Mark = Mark(l: set<nat>, p: nat)

  ghost function LogNow(fs: FileSystem): (g: Mark)
    reads fs`logged, fs`peak
    ensures g.l == fs.logged && g.p == fs.peak
  {
    Mark(fs.logged, fs.peak)
  }

  /** The bits that differ from those of `f` are in blocks that have been logged since `g`, and only blocks of
      the bitmap have been. */
  ghost predicate BitsLogged(f: Fs, bits: seq<bool>, bmapstart: nat, g: Mark, g': Mark) {
    && |bits| == |f.bits| && g.l <= g'.l && g'.p <= Max(g.p, |g'.l|)
    && (forall b: nat :: b < |bits| && bits[b] != f.bits[b] ==> BitBlock(bmapstart, b) in g'.l)
    && (forall n :: n in g'.l && n !in g.l ==> InBitmap(f, bmapstart, n))
  }

  /** bfree() in the course of itrunc(). */
  method Free(fs: FileSystem, b: nat, ghost f: Fs, ghost g: Mark)
    requires b < |fs.bits| && fs.bits[b] && BitsLogged(f, fs.bits, fs.bmapstart, g, LogNow(fs))
    modifies fs`bits, fs`logged, fs`peak
    ensures fs.bits == old(fs.bits)[b := false] && BitsLogged(f, fs.bits, fs.bmapstart, g, LogNow(fs))
  {
    BitBlockIn(f, fs.bmapstart, b);
    hide BitBlock, InBitmap, Logs;
    fs.Bfree(b);
    Cardinality(old(fs.logged), fs.logged);
  }

  lemma BitBlockIn(f: Fs, bmapstart: nat, b: nat)
    requires b < |f.bits|
    ensures InBitmap(f, bmapstart, BitBlock(bmapstart, b))
  {
    assert b / BPB * BPB <= b;
  }

  /** One iteration of itrunc()'s first loop. */
  method FreeDirect(fs: FileSystem, i: nat, k: nat, ghost f: Fs, ghost g: Mark)
    requires Inv(f) && i in f.ino && Truncating(fs, f, i, k, k) && k < NDIRECT
    requires BitsLogged(f, fs.bits, fs.bmapstart, g, LogNow(fs))
    modifies fs`ino, fs`bits, fs`logged, fs`peak
    ensures Truncating(fs, f, i, k + 1, k + 1) && BitsLogged(f, fs.bits, fs.bmapstart, g, LogNow(fs))
  {
    DirectSlot(f, i, k);
    ClearedStep(f, i, k);
    ZeroedStep(f.ino[i].addrs, k);
    hide Cleared, Zeroed, Inv, SlotAt, BitsLogged;
    if fs.ino[i].addrs[k] != 0 {
      Free(fs, fs.ino[i].addrs[k], f, g);
        fs.ino := fs.ino[i := fs.ino[i].(addrs := fs.ino[i].addrs[k := 0])];
    }
  }

  /** The loop over the indirect block. */
  method FreeEntries(fs: FileSystem, i: nat, ind: nat, ghost f: Fs, ghost g: Mark)
    requires Inv(f) && i in f.ino && Truncating(fs, f, i, NDIRECT, NDIRECT) && ind == SlotAt(f, i, INDIRECT) != 0
    requires BitsLogged(f, fs.bits, fs.bmapstart, g, LogNow(fs))
    modifies fs`bits, fs`logged, fs`peak
    ensures Truncating(fs, f, i, NDIRECT, MAXFILE) && BitsLogged(f, fs.bits, fs.bmapstart, g, LogNow(fs))
  {
    var j := 0;
    while j < NINDIRECT
      invariant j <= NINDIRECT && Truncating(fs, f, i, NDIRECT, NDIRECT + j)
      invariant BitsLogged(f, fs.bits, fs.bmapstart, g, LogNow(fs))
    {
      EntrySlot(f, i, NDIRECT + j, ind, j);
      ClearedStep(f, i, NDIRECT + j);
      FreeEntry(fs, i, ind, j, f, g);
      j := j + 1;
    }
  }

  method FreeEntry(fs: FileSystem, i: nat, ind: nat, j: nat, ghost f: Fs, ghost g: Mark)
    requires Inv(f) && i in f.ino && Truncating(fs, f, i, NDIRECT, NDIRECT + j) && ind == SlotAt(f, i, INDIRECT) != 0 &&
             j < NINDIRECT && BitsLogged(f, fs.bits, fs.bmapstart, g, LogNow(fs))
    modifies fs`bits, fs`logged, fs`peak
    ensures Truncating(fs, f, i, NDIRECT, NDIRECT + j + 1) && BitsLogged(f, fs.bits, fs.bmapstart, g, LogNow(fs))
  {
    EntrySlot(f, i, NDIRECT + j, ind, j);
    ClearedStep(f, i, NDIRECT + j);
    hide Cleared, Zeroed, Inv, SlotAt, BitsLogged, GetWord;
    var a := GetWord(fs.blk[ind], j);
    if a != 0 {
      Free(fs, a, f, g);
    }
  }

  /** All that has changed has been logged since `g`: the block of inode `i`, and of the bitmap at most all
      blocks. */
  ghost predicate Frees(f: Fs, f': Fs, bmapstart: nat, inodestart: nat, i: nat, g: Mark, g': Mark) {
    && Recorded(f, f', bmapstart, inodestart, i, g.l, g'.l) && g.l <= g'.l && g'.p <= Max(g.p, |g'.l|)
    && forall n :: n in g'.l && n !in g.l ==> InBitmap(f, bmapstart, n) || n == InodeBlock(inodestart, i)
  }

  /** itrunc(): the file is empty, exactly its blocks are free, and no other file changes. All of that is
      logged, with the inode as it is in the end. bfree()'s panic is not reached. */
  method Itrunc(fs: FileSystem, i: nat)
    requires fs.Valid() && i in fs.ino
    modifies fs
    ensures fs.Valid() && fs.Now() == Truncated(old(fs.Now()), i)
    ensures Frees(old(fs.Now()), fs.Now(), fs.bmapstart, fs.inodestart, i, old(LogNow(fs)), LogNow(fs))
    ensures i in fs.ino && fs.dino == old(fs.dino)[i := fs.ino[i]]
    ensures InodeBlock(fs.inodestart, i) in fs.logged
  {
    ghost var f, g := fs.Now(), LogNow(fs);
    Start(fs, i);
    SlotsThere(f, i);
    var k := 0;
    while k < NDIRECT
      invariant k <= NDIRECT && Truncating(fs, f, i, k, k) && fs.dino == old(fs.dino)
      invariant BitsLogged(f, fs.bits, fs.bmapstart, g, LogNow(fs))
    {
      FreeDirect(fs, i, k, f, g);
      k := k + 1;
    }
    FreeIndirect(fs, i, f, g);
    hide *;
    Parts(fs, f, i);
    fs.ino := fs.ino[i := fs.ino[i].(size := 0)];
    fs.own := Disown(f.own, i);
    ghost var g1 := LogNow(fs);
    fs.Iupdate(i);
    IsTruncated(fs, f, i);
    TruncatedFrees(f, i, fs.bmapstart, fs.inodestart, g, g1, LogNow(fs));
  }

  lemma TruncatedFrees(f: Fs, i: nat, bmapstart: nat, inodestart: nat, g: Mark, g1: Mark, g2: Mark)
    requires i in f.ino && BitsLogged(f, Cleared(f, i, INDIRECT + 1), bmapstart, g, g1)
    requires g2.l == g1.l + {InodeBlock(inodestart, i)} && LogGrew(g1.l, g1.p, g2.l, g2.p, 1)
    ensures Frees(f, Truncated(f, i), bmapstart, inodestart, i, g, g2)
  {
    Cardinality(g1.l, g2.l);
    hide Cleared, BitBlock, InodeBlock;
  }

  lemma Parts(fs: FileSystem, f: Fs, i: nat)
    requires Truncating(fs, f, i, NDIRECT + 1, INDIRECT + 1)
    ensures i in fs.ino && i in f.ino && |f.ino[i].addrs| >= NDIRECT + 1
    ensures fs.ino == f.ino[i := f.ino[i].(addrs := Zeroed(f.ino[i].addrs, NDIRECT + 1))]
    ensures fs.blk == f.blk && fs.bits == Cleared(f, i, INDIRECT + 1)
  {
  }

  lemma IsTruncated(fs: FileSystem, f: Fs, i: nat)
    requires Inv(f) && i in f.ino && fs.first == f.first && fs.blk == f.blk && fs.bits == Cleared(f, i, INDIRECT + 1)
    requires |f.ino[i].addrs| >= NDIRECT + 1 && fs.own == Disown(f.own, i)
    requires var ip := f.ino[i].(addrs := Zeroed(f.ino[i].addrs, NDIRECT + 1));
             fs.ino == f.ino[i := ip][i := ip.(size := 0)]
    ensures fs.Now() == Truncated(f, i) && fs.Valid()
  {
    TruncateKeepsInv(f, i);
    assert Shaped(f, i);
  }

  lemma Start(fs: FileSystem, i: nat)
    requires fs.Valid() && i in fs.ino
    ensures Truncating(fs, fs.Now(), i, 0, 0) && BitsLogged(fs.Now(), fs.bits, fs.bmapstart, LogNow(fs), LogNow(fs))
  {
    var f := fs.Now();
    SlotsThere(f, i);
    ClearedNone(f, i);
    ZeroedStep(f.ino[i].addrs, 0);
    assert f.ino[i := f.ino[i].(addrs := Zeroed(f.ino[i].addrs, 0))] == f.ino;
  }

  /** The indirect block and what is behind it. */
  method FreeIndirect(fs: FileSystem, i: nat, ghost f: Fs, ghost g: Mark)
    requires Inv(f) && i in f.ino && Truncating(fs, f, i, NDIRECT, NDIRECT)
    requires BitsLogged(f, fs.bits, fs.bmapstart, g, LogNow(fs))
    modifies fs`ino, fs`bits, fs`logged, fs`peak
    ensures Truncating(fs, f, i, NDIRECT + 1, INDIRECT + 1) && BitsLogged(f, fs.bits, fs.bmapstart, g, LogNow(fs))
  {
    SlotsThere(f, i);
    DirectSlot(f, i, INDIRECT);
    ZeroedStep(f.ino[i].addrs, NDIRECT);
    hide Cleared, Zeroed, Inv, SlotAt, BitsLogged;
    var ind := fs.ino[i].addrs[NDIRECT];
    if ind != 0 {
      FreeEntries(fs, i, ind, f, g);
      ClearedStep(f, i, INDIRECT);
      Free(fs, ind, f, g);
      fs.ino := fs.ino[i := fs.ino[i].(addrs := fs.ino[i].addrs[NDIRECT := 0])];
    } else {
      ClearedEmpty(f, i, INDIRECT + 1);
    }
  }

  ghost predicate Orphan(f: Fs, i: nat) { i in f.ino && f.ino[i].typ != 0 && f.ino[i].nlink == 0 }

  /** The state after iput() has freed an inode. */
  ghost function Released(f: Fs, i: nat): (f': Fs)
    requires i in f.ino
  {
    var f1 := Truncated(f, i);
    f1.(ino := f1.ino[i := f1.ino[i].(typ := 0)])
  }

  lemma ReleaseKeepsInv(f: Fs, i: nat)
    requires Inv(f) && i in f.ino
    ensures Inv(Released(f, i)) && forall j, pos: nat ::
                                     j in f.ino && j != i ==> ByteAt(Released(f, i), j, pos) == ByteAt(f, j, pos)
  {
    TruncateKeepsInv(f, i);
    TypeKeepsInv(Truncated(f, i), i, 0);
  }

  lemma TypeKeepsInv(f: Fs, i: nat, typ: nat)
    requires Inv(f) && i in f.ino
    ensures var f' := f.(ino := f.ino[i := f.ino[i].(typ := typ)]);
            Inv(f') && Unseen(f, f')
  {
    var f' := f.(ino := f.ino[i := f.ino[i].(typ := typ)]);
    assert forall j, k: nat :: j in f.ino ==> SlotAt(f', j, k) == SlotAt(f, j, k);
    hide Slot, SlotAt, BlocksOf, BlockNo;
    forall j | j in f.ino ensures Shaped(f', j) && Filled(f', j, BlocksOf(f'.ino[j].size)) {
      assert Shaped(f, j) && Filled(f, j, BlocksOf(f.ino[j].size));
    }
    forall j, k: nat | j in f.ino ensures SlotOk(f', j, k) {
      assert SlotOk(f, j, k);
    }
    forall b: nat ensures BlockOk(f', b) && BitOk(f', b) {
      assert BlockOk(f, b) && BitOk(f, b);
    }
  }

  /** iput() of a valid inode with `refs` references: the last reference to an inode without
      links frees it, and logs what that changes, with the inode as it is in the end. */
  method Iput(fs: FileSystem, i: nat, refs: nat) returns (refs': nat)
    requires fs.Valid() && i in fs.ino && refs > 0
    modifies fs
    ensures fs.Valid() && refs' == refs - 1
    ensures fs.Now() == if refs == 1 && old(fs.ino)[i].nlink == 0 then Released(old(fs.Now()), i) else old(fs.Now())
    ensures Frees(old(fs.Now()), fs.Now(), fs.bmapstart, fs.inodestart, i, old(LogNow(fs)), LogNow(fs))
    ensures old(fs.Synced()) ==> fs.Synced()
  {
    hide *;
    NothingFreed(fs.Now(), fs.bmapstart, fs.inodestart, i, LogNow(fs));
    if refs == 1 && fs.ino[i].nlink == 0 {
      FreeInode(fs, i);
    }
    refs' := refs - 1;
  }

  /** iput() of the last reference to an inode without links. */
  method FreeInode(fs: FileSystem, i: nat)
    requires fs.Valid() && i in fs.ino
    modifies fs
    ensures fs.Valid() && fs.Now() == Released(old(fs.Now()), i)
    ensures Frees(old(fs.Now()), fs.Now(), fs.bmapstart, fs.inodestart, i, old(LogNow(fs)), LogNow(fs))
    ensures old(fs.Synced()) ==> fs.Synced()
  {
    hide *;
    ghost var f, g := fs.Now(), LogNow(fs);
    IsNow(fs);
    IsSynced(fs);
    ReleaseKeepsInv(f, i);
    Itrunc(fs, i);
    IsReleased(f, i);
    ghost var g1 := LogNow(fs);
    fs.ino := fs.ino[i := fs.ino[i].(typ := 0)];
    fs.Iupdate(i);
    SameFs(fs, Released(f, i));
    ReleasedFrees(f, i, fs.bmapstart, fs.inodestart, g, g1, LogNow(fs));
    IsSynced(fs);
  }

  lemma NothingFreed(f: Fs, bmapstart: nat, inodestart: nat, i: nat, g: Mark)
    ensures Frees(f, f, bmapstart, inodestart, i, g, g)
  {
  }

  lemma IsReleased(f: Fs, i: nat)
    requires i in f.ino
    ensures var f1 := Truncated(f, i);
            && i in f1.ino && Released(f, i) == f1.(ino := f1.ino[i := f1.ino[i].(typ := 0)])
            && f.ino[i := f1.ino[i]][i := f1.ino[i].(typ := 0)] == Released(f, i).ino
  {
  }

  lemma ReleasedFrees(f: Fs, i: nat, bmapstart: nat, inodestart: nat, g: Mark, g1: Mark, g2: Mark)
    requires i in f.ino && Frees(f, Truncated(f, i), bmapstart, inodestart, i, g, g1)
    requires g2.l == g1.l + {InodeBlock(inodestart, i)} && LogGrew(g1.l, g1.p, g2.l, g2.p, 1)
    ensures Frees(f, Released(f, i), bmapstart, inodestart, i, g, g2)
  {
    Cardinality(g1.l, g2.l);
    hide Cleared, BitBlock, InodeBlock, Zeroed, Disown, Home;
  }

  /** The state of ireclaim() after the inodes below `m`: exactly the orphans among them are
      gone, with exactly their blocks. */
  ghost predicate Reclaimed(f: Fs, f': Fs, m: nat) { InodesReclaimed(f, f', m) && BlocksReclaimed(f, f', m) }

  ghost predicate InodesReclaimed(f: Fs, f': Fs, m: nat) {
    && f'.first == f.first && f'.blk == f.blk && f'.ino.Keys == f.ino.Keys
    && (forall i :: i in f.ino && Orphan(f, i) && 1 <= i < m ==> f'.ino[i].typ == 0 && f'.ino[i].size == 0)
    && (forall i :: i in f.ino && !(Orphan(f, i) && 1 <= i < m) ==> f'.ino[i] == f.ino[i])
  }

  /** The block belonged to one of the first inodes, and that was an orphan. */
  ghost predicate OrphansOwn(f: Fs, b: nat, m: nat) { b in f.own && Orphan(f, f.own[b].i) && 1 <= f.own[b].i < m }

  ghost predicate BlocksReclaimed(f: Fs, f': Fs, m: nat) {
    && |f'.bits| == |f.bits|
    && (forall b :: b in f'.own <==> b in f.own && !OrphansOwn(f, b, m))
    && (forall b :: b in f'.own ==> f'.own[b] == f.own[b])
    && (forall b: nat :: b < |f.bits| ==> f'.bits[b] == (f.bits[b] && !OrphansOwn(f, b, m)))
  }

  lemma ReclaimedSkip(f: Fs, f': Fs, i: nat)
    requires Reclaimed(f, f', i) && i in f'.ino && !(f'.ino[i].typ != 0 && f'.ino[i].nlink == 0) && i >= 1
    ensures Reclaimed(f, f', i + 1)
  {
  }

  lemma ReclaimedOne(f: Fs, f': Fs, i: nat)
    requires Reclaimed(f, f', i) && Inv(f') && i in f'.ino && f'.ino[i].typ != 0 && f'.ino[i].nlink == 0 && i >= 1
    ensures Reclaimed(f, Released(f', i), i + 1)
  {
    ReclaimedInode(f, f', i);
    hide Inv, Released, InodesReclaimed;
    ReclaimedBlocks(f, f', i);
  }

  lemma ReclaimedInode(f: Fs, f': Fs, i: nat)
    requires InodesReclaimed(f, f', i) && i in f'.ino && f'.ino[i].typ != 0 && f'.ino[i].nlink == 0 && i >= 1
    ensures InodesReclaimed(f, Released(f', i), i + 1) && Orphan(f, i)
  {
    hide Cleared, Disown;
  }

  lemma ReclaimedBlocks(f: Fs, f': Fs, i: nat)
    requires BlocksReclaimed(f, f', i) && Inv(f') && i in f'.ino && Orphan(f, i) && i >= 1
    ensures BlocksReclaimed(f, Released(f', i), i + 1)
  {
    var f2 := Released(f', i);
    assert f2.own == Disown(f'.own, i);
    ReleasedBit(f', i, 0);
    hide Inv, Released;
    forall b: nat | b < |f.bits| ensures f2.bits[b] == (f.bits[b] && !OrphansOwn(f, b, i + 1)) {
      ReleasedBit(f', i, b);
    }
  }

  lemma ReleasedBit(f: Fs, i: nat, b: nat)
    requires Inv(f) && i in f.ino && b < |f.bits|
    ensures |Released(f, i).bits| == |f.bits| &&
            Released(f, i).bits[b] == (f.bits[b] && !(b in f.own && f.own[b].i == i))
  {
    assert BlockOk(f, b);
  }

  /** The inodes of the disk. */
  ghost predicate Numbered(f: Fs, ninodes: nat) { forall i :: i in f.ino <==> 1 <= i < ninodes }

  /** An operation that frees inode `j` and does nothing else; it logs what that changes. */
  ghost predicate ReleaseOp(x: Op, j: nat, bmapstart: nat, inodestart: nat) {
    && j in x.before.ino && Orphan(x.before, j) && x.after == Released(x.before, j) && x.stray == {}
    && Frees(x.before, x.after, bmapstart, inodestart, j, Mark({}, 0), Mark(x.logged, x.peak))
    && Sound(x, bmapstart, inodestart)
  }

  ghost predicate Releases(x: Op, bmapstart: nat, inodestart: nat) {
    exists j :: ReleaseOp(x, j, bmapstart, inodestart)
  }

  ghost predicate ReleaseOps(ops: seq<Op>, bmapstart: nat, inodestart: nat) {
    forall k :: 0 <= k < |ops| ==> Releases(ops[k], bmapstart, inodestart)
  }

  /** One operation after the other takes the file system from `f` to `f'`. */
  ghost predicate Leads(ops: seq<Op>, f: Fs, f': Fs) {
    && (if ops == [] then f' == f else ops[0].before == f && f' == ops[|ops| - 1].after)
    && forall k :: 0 < k < |ops| ==> ops[k].before == ops[k - 1].after
  }

  lemma NoOps(f: Fs, bmapstart: nat, inodestart: nat)
    ensures ReleaseOps([], bmapstart, inodestart) && Leads([], f, f)
  {
  }

  lemma MoreOps(ops: seq<Op>, x: Op, j: nat, f: Fs, f': Fs, bmapstart: nat, inodestart: nat)
    requires ReleaseOps(ops, bmapstart, inodestart) && Leads(ops, f, x.before) && x.after == f'
    requires ReleaseOp(x, j, bmapstart, inodestart)
    ensures ReleaseOps(ops + [x], bmapstart, inodestart) && Leads(ops + [x], f, f')
  {
    hide ReleaseOp;
    assert Releases(x, bmapstart, inodestart);
    hide Releases;
  }

  /** Freeing an inode is an operation: it logs all that it changes. */
  lemma ReleaseIsSound(x: Op, i: nat, bmapstart: nat, inodestart: nat)
    requires Inv(x.before) && i in x.before.ino && x.after == Released(x.before, i) && x.stray == {}
    requires Frees(x.before, x.after, bmapstart, inodestart, i, Mark({}, 0), Mark(x.logged, x.peak))
    ensures Sound(x, bmapstart, inodestart)
  {
    ReleaseKeepsInv(x.before, i);
    hide Inv, Cleared, Recorded, Zeroed, Disown;
    RecordedIsSound(x, i, bmapstart, inodestart);
  }

  /** ... and so is itrunc(). */
  lemma TruncateIsSound(x: Op, i: nat, bmapstart: nat, inodestart: nat)
    requires Inv(x.before) && i in x.before.ino && x.after == Truncated(x.before, i) && x.stray == {}
    requires Frees(x.before, x.after, bmapstart, inodestart, i, Mark({}, 0), Mark(x.logged, x.peak))
    ensures Sound(x, bmapstart, inodestart)
  {
    TruncateKeepsInv(x.before, i);
    hide Inv, Cleared, Recorded, Zeroed, Disown;
    RecordedIsSound(x, i, bmapstart, inodestart);
  }

  /** The number of blocks of the bitmap. */
  function Bitmaps(nbits: nat): (n: nat)
    ensures nbits <= n * BPB < nbits + BPB
  {
    (nbits + BPB - 1) / BPB
  }

  /** Such an operation logs the inode's block and at most all blocks of the bitmap; with fewer than
      MAXOPBLOCKS - 1 of those it stays within its share of the log. */
  lemma FreesFit(f: Fs, f': Fs, bmapstart: nat, inodestart: nat, i: nat, g: Mark)
    requires Frees(f, f', bmapstart, inodestart, i, Mark({}, 0), g)
    ensures |g.l| <= Bitmaps(|f.bits|) + 1 && g.p <= |g.l|
  {
    var n := Bitmaps(|f.bits|);
    var all := Range(bmapstart, n) + {InodeBlock(inodestart, i)};
    forall x | x in g.l ensures x in all {
      if InBitmap(f, bmapstart, x) {
        RangeHas(bmapstart, n, x);
      }
    }
    Cardinality(g.l, all);
    RangeSize(bmapstart, n);
  }

  function Range(start: nat, n: nat): (s: set<nat>) { if n == 0 then {} else Range(start, n - 1) + {start + n - 1} }

  lemma {:induction false} RangeSize(start: nat, n: nat)
    ensures |Range(start, n)| <= n
  {
    if n > 0 {
      RangeSize(start, n - 1);
    }
  }

  lemma {:induction false} RangeHas(start: nat, n: nat, x: nat)
    requires start <= x < start + n
    ensures x in Range(start, n)
  {
    if x < start + n - 1 {
      RangeHas(start, n - 1, x);
    }
  }

  /** ireclaim(): afterwards no inode is in use without links, exactly the inodes that were have
      been freed, and exactly their blocks have been released: one after the other, in an operation each,
      which logs what it changes. */
  method Ireclaim(fs: FileSystem, ninodes: nat) returns (ghost ops: seq<Op>)
    requires fs.Valid() && Numbered(fs.Now(), ninodes)
    modifies fs
    ensures fs.Valid() && Reclaimed(old(fs.Now()), fs.Now(), ninodes) && (old(fs.Synced()) ==> fs.Synced())
    ensures forall i :: i in fs.ino ==> !Orphan(fs.Now(), i)
    ensures ReleaseOps(ops, fs.bmapstart, fs.inodestart) && Leads(ops, old(fs.Now()), fs.Now())
  {
    hide *;
    ghost var f := fs.Now();
    NoneReclaimed(f);
    ops := [];
    NoOps(f, fs.bmapstart, fs.inodestart);
    var inum := 1;
    while inum < ninodes
      invariant 1 <= inum && (inum <= ninodes || inum == 1) && fs.Valid() && Reclaimed(f, fs.Now(), inum)
      invariant old(fs.Synced()) ==> fs.Synced()
      invariant ReleaseOps(ops, fs.bmapstart, fs.inodestart) && Leads(ops, f, fs.Now())
    {
      ops := ReclaimOne(fs, inum, ninodes, f, ops);
      inum := inum + 1;
    }
    NoOrphans(f, fs.Now(), inum, ninodes);
  }

  /** One iteration of ireclaim()'s loop. */
  method ReclaimOne(fs: FileSystem, inum: nat, ghost ninodes: nat, ghost f: Fs, ghost ops: seq<Op>)
    returns (ghost ops': seq<Op>)
    requires fs.Valid() && Reclaimed(f, fs.Now(), inum) && 1 <= inum < ninodes && Numbered(f, ninodes)
    requires ReleaseOps(ops, fs.bmapstart, fs.inodestart) && Leads(ops, f, fs.Now())
    modifies fs
    ensures fs.Valid() && Reclaimed(f, fs.Now(), inum + 1) && (old(fs.Synced()) ==> fs.Synced())
    ensures ReleaseOps(ops', fs.bmapstart, fs.inodestart) && Leads(ops', f, fs.Now())
  {
    hide *;
    SameInodes(f, fs.Now(), inum, ninodes);
    ops' := ops;
    if fs.ino[inum].typ != 0 && fs.ino[inum].nlink == 0 {
      IsNow(fs);
      ReclaimedOne(f, fs.Now(), inum);
      BeginOp(fs);
      ghost var f1 := fs.Now();
      var refs := Iput(fs, inum, 1);
      ghost var x := Op(f1, fs.Now(), fs.logged, fs.peak, {});
      IsReleaseOp(x, inum, fs.bmapstart, fs.inodestart, LogNow(fs));
      MoreOps(ops, x, inum, f, fs.Now(), fs.bmapstart, fs.inodestart);
      ops' := ops + [x];
    } else {
      ReclaimedSkip(f, fs.Now(), inum);
    }
  }

  lemma IsReleaseOp(x: Op, i: nat, bmapstart: nat, inodestart: nat, g: Mark)
    requires Inv(x.before) && i in x.before.ino && x.before.ino[i].typ != 0 && x.before.ino[i].nlink == 0
    requires x.after == Released(x.before, i) && x.stray == {} && g == Mark(x.logged, x.peak)
    requires Frees(x.before, x.after, bmapstart, inodestart, i, Mark({}, 0), g)
    ensures ReleaseOp(x, i, bmapstart, inodestart)
  {
    ReleaseIsSound(x, i, bmapstart, inodestart);
    hide Sound, Inv, Frees, Released;
  }

  lemma SameInodes(f: Fs, f': Fs, m: nat, ninodes: nat)
    requires Reclaimed(f, f', m) && Numbered(f, ninodes)
    ensures forall i :: i in f'.ino <==> 1 <= i < ninodes
  {
  }

  lemma NoneReclaimed(f: Fs)
    ensures Reclaimed(f, f, 1)
  {
  }

  lemma NoOrphans(f: Fs, f': Fs, m: nat, ninodes: nat)
    requires Reclaimed(f, f', m) && Numbered(f, ninodes)
    requires m >= ninodes && (m == ninodes || m == 1)
    ensures Reclaimed(f, f', ninodes) && forall i :: i in f'.ino ==> !Orphan(f', i)
  {
  }
}
