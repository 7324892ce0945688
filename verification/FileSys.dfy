/** The part of kernel/fs.c that maps files to blocks: balloc(), bfree(), bmap() and writei(). Blocks
    are what the current operation sees through the buffer cache. */
module FileSys {
  import opened Params
  import opened Blocks
  import opened Inodes

  const BPB: nat := BSIZE * 8
  const IPB: nat := 16              // BSIZE / sizeof(struct dinode)

  /** The most that filewrite() writes in one operation. */
  const CHUNK: nat := (MAXOPBLOCKS - 1 - 1 - 2) / 2 * BSIZE

  ghost function Max(a: nat, b: nat): (m: nat) { if a < b then b else a }

  /** At most `n` more blocks have been logged, and no call of log_write() met more logged
      blocks than `peak`. */
  ghost predicate LogGrew(l: set<nat>, p: nat, l': set<nat>, p': nat, n: nat) {
    l <= l' && |l'| <= |l| + n && p' <= Max(p, |l'|)
  }

  lemma LogSame(l: set<nat>, p: nat, n: nat)
    ensures LogGrew(l, p, l, p, n)
  {
  }

  lemma LogTrans(l: set<nat>, p: nat, l1: set<nat>, p1: nat, l2: set<nat>, p2: nat, n: nat, n': nat)
    requires LogGrew(l, p, l1, p1, n) && LogGrew(l1, p1, l2, p2, n')
    ensures LogGrew(l, p, l2, p2, n + n')
  {
    Cardinality(l1, l2);
  }

  lemma LogMore(l: set<nat>, p: nat, l': set<nat>, p': nat, n: nat, n': nat)
    requires LogGrew(l, p, l', p', n) && n <= n'
    ensures LogGrew(l, p, l', p', n')
  {
  }

  lemma {:induction false} Cardinality(a: set<nat>, b: set<nat>)
    requires a <= b
    ensures |a| <= |b|
  {
    if a != {} {
      var x :| x in a;
      Cardinality(a - {x}, b - {x});
    }
  }

  lemma LogOne(l: set<nat>, p: nat, n: nat)
    ensures LogGrew(l, p, l + {n}, Max(p, |l|), if n in l then 0 else 1)
  {
    Cardinality(l, l + {n});
    if n in l {
      assert l + {n} == l;
    }
  }

  /** The block of the bitmap that has the bit of block `b`. */
  function BitBlock(bmapstart: nat, b: nat): (n: nat) { b / BPB + bmapstart }

  /** The block that has inode `i`. */
  function InodeBlock(inodestart: nat, i: nat): (n: nat) { i / IPB + inodestart }

  /** Every change from `f` to `f'`, apart from the inodes, is in a block that has been logged, or is in the
      contents of one of the blocks `s`. A block with a new owner has been logged. */
  ghost predicate Covered(f: Fs, f': Fs, bmapstart: nat, l: set<nat>, s: set<nat>) {
    && |f'.bits| == |f.bits| && f'.first == f.first
    && (forall b: nat :: b < |f.bits| && f'.bits[b] != f.bits[b] ==> BitBlock(bmapstart, b) in l)
    && (forall b :: b in f.blk ==> b in f'.blk)
    && (forall b :: b in f'.blk && b !in l ==> b in f.blk && (b in s || f'.blk[b] == f.blk[b]))
    && (forall b :: b in f'.blk && b !in f.blk ==> f.first <= b < |f.bits|)
    && (forall b :: b in f'.own && b !in l ==> b in f.own && f'.own[b] == f.own[b])
  }

  /** A data block, or a block of the bitmap. */
  ghost predicate Home(f: Fs, bmapstart: nat, n: nat) {
    f.first <= n < |f.bits| || (bmapstart <= n && (n - bmapstart) * BPB < |f.bits|)
  }

  /** ... and nothing else has been logged besides `l0`. */
  ghost predicate Logs(f: Fs, f': Fs, bmapstart: nat, l0: set<nat>, l: set<nat>) {
    Covered(f, f', bmapstart, l, {}) && forall n :: n in l && n !in l0 ==> Home(f, bmapstart, n)
  }

  lemma LogsSelf(f: Fs, bmapstart: nat, l: set<nat>)
    ensures Logs(f, f, bmapstart, l, l)
  {
  }

  lemma LogsMore(f: Fs, f1: Fs, f2: Fs, bmapstart: nat, l0: set<nat>, l1: set<nat>, p1: nat, l2: set<nat>, p2: nat,
                 n: nat)
    requires Logs(f, f1, bmapstart, l0, l1) && Logs(f1, f2, bmapstart, l1, l2) && LogGrew(l1, p1, l2, p2, n)
    ensures Logs(f, f2, bmapstart, l0, l2)
  {
    assert forall x :: Home(f1, bmapstart, x) == Home(f, bmapstart, x);
  }

  lemma CoveredInode(f: Fs, f1: Fs, f2: Fs, bmapstart: nat, l: set<nat>, l': set<nat>)
    requires Covered(f, f1, bmapstart, l, {}) && l <= l'
    requires f2.first == f1.first && f2.bits == f1.bits && f2.blk == f1.blk && f2.own == f1.own
    ensures Covered(f, f2, bmapstart, l', {})
  {
  }

  /** balloc() logs the bitmap block and the new block. */
  lemma LogsNew(f: Fs, f': Fs, bmapstart: nat, b: nat, l: set<nat>)
    requires f.first <= b < |f.bits| && f'.first == f.first && f'.bits == f.bits[b := true] &&
             f'.blk == f.blk[b := ZeroBlock()]
    requires forall c :: c in f'.own && c != b ==> c in f.own && f'.own[c] == f.own[c]
    ensures Logs(f, f', bmapstart, l, l + {BitBlock(bmapstart, b)} + {b})
  {
    BitBlockHome(f, bmapstart, b);
  }

  lemma BitBlockHome(f: Fs, bmapstart: nat, b: nat)
    requires b < |f.bits|
    ensures Home(f, bmapstart, BitBlock(bmapstart, b))
  {
    assert b / BPB * BPB <= b;
  }

  lemma LogsBlock(f: Fs, f': Fs, bmapstart: nat, b: nat, x: Block, l: set<nat>)
    requires b in f.blk && f.first <= b < |f.bits|
    requires f'.first == f.first && f'.bits == f.bits && f'.blk == f.blk[b := x] && f'.own == f.own
    ensures Logs(f, f', bmapstart, l, l + {b})
  {
  }

  class FileSystem {
    const first: nat
    const bmapstart: nat
    const inodestart: nat

    var ino: map<nat, Inode>
    var dino: map<nat, Inode>     // the inodes as the buffers of their blocks have them
    var blk: map<nat, Block>
    var bits: seq<bool>
    ghost var own: map<nat, Loc>

    ghost var logged: set<nat>    // the blocks that the current operation has logged
    ghost var peak: nat           // the most that were logged when log_write() was called

    ghost function Now(): (f: Fs)
      reads this
      ensures f.first == first && f.ino == ino && f.blk == blk && f.bits == bits && f.own == own
    {
      Fs(first, ino, blk, bits, own)
    }

    ghost predicate Valid()
      reads this
    {
      Inv(Now())
    }

    /** iupdate() has been called for every inode that has changed. */
    ghost predicate Synced()
      reads this
    {
      dino == ino
    }

    function BBlock(b: nat): (n: nat) { BitBlock(bmapstart, b) }
    function IBlock(i: nat): (n: nat) { InodeBlock(inodestart, i) }

    /** log_write(), as far as the log's bound is concerned. */
    ghost method LogWrite(n: nat)
      modifies this`logged, this`peak
      ensures logged == old(logged) + {n} &&
              LogGrew(old(logged), old(peak), logged, peak, if n in old(logged) then 0 else 1)
    {
      LogOne(logged, peak, n);
      peak, logged := Max(peak, |logged|), logged + {n};
    }

    /** balloc(): the first free block, zeroed; 0 if there is none. */
    method Balloc() returns (b: nat)
      requires Valid()
      modifies this`bits, this`blk, this`logged, this`peak
      ensures b == 0 ==> bits == old(bits) && blk == old(blk) && logged == old(logged) && peak == old(peak) &&
                         forall c :: 0 <= c < |bits| ==> bits[c]
      ensures b != 0 ==>
                && first <= b < |bits| == |old(bits)| && !old(bits)[b] && bits == old(bits)[b := true] &&
                   blk == old(blk)[b := ZeroBlock()]
                && (forall c :: 0 <= c < b ==> old(bits)[c]) && logged == old(logged) + {BitBlock(bmapstart, b)} + {b}
      ensures LogGrew(old(logged), old(peak), logged, peak, 2)
    {
      FirstBits(Now());
      hide *;
      LogSame(logged, peak, 2);
      b := 0;
      while b < |bits|
        invariant b <= |bits| && forall c :: 0 <= c < b ==> bits[c]
      {
        if !bits[b] {
          bits := bits[b := true];
          LogWrite(BBlock(b));
          ghost var l, p := logged, peak;
          IsBBlock(this, b);
          blk := blk[b := ZeroBlock()];
          LogWrite(b);
          LogTwice(old(logged), old(peak), BBlock(b), l, p, b, logged, peak);
          return;
        }
        b := b + 1;
      }
      b := 0;
    }

    /** bfree(): its panic is the precondition. */
    method Bfree(b: nat)
      requires b < |bits| && bits[b]
      modifies this`bits, this`logged, this`peak
      ensures bits == old(bits)[b := false] && logged == old(logged) + {BitBlock(bmapstart, b)}
      ensures Logs(old(Now()), Now(), bmapstart, old(logged), logged)
      ensures LogGrew(old(logged), old(peak), logged, peak, 1)
    {
      BitBlockHome(Now(), bmapstart, b);
      bits := bits[b := false];
      LogWrite(BBlock(b));
    }

    /** Fill an empty address of an inode: a direct block or the indirect block. */
    method AllocDirect(i: nat, k: nat) returns (addr: nat)
      requires Valid() && i in ino && (k < NDIRECT || k == INDIRECT) && SlotAt(Now(), i, k) == 0
      modifies this`ino, this`blk, this`bits, this`own, this`logged, this`peak
      ensures Valid() && Touches(old(Now()), Now(), i) && Unseen(old(Now()), Now()) && addr == SlotAt(Now(), i, k)
      ensures addr == 0 ==> Now() == old(Now()) && logged == old(logged) && peak == old(peak) &&
                            forall c :: 0 <= c < |bits| ==> bits[c]
      ensures Logs(old(Now()), Now(), bmapstart, old(logged), logged)
      ensures addr != 0 ==> Attached(old(Now()), Now(), i, k, addr) && addr in logged
      ensures LogGrew(old(logged), old(peak), logged, peak, 2)
    {
      ghost var f := Now();
      SlotsThere(f, i);
      var at := if k == INDIRECT then NDIRECT else k;
      hide *;
      Nothing(f, i);
      addr := Balloc();
      if addr == 0 {
        SameFs(this, f);
        LogsSelf(f, bmapstart, logged);
        return;
      }
      AttachDirectly(f, i, k, addr);
      ino := ino[i := ino[i].(addrs := ino[i].addrs[at := addr])];
      own := own[addr := Loc(i, k)];
      IsAttachDirect(this, f, i, k, addr, at);
      LogsNew(f, Now(), bmapstart, addr, old(logged));
      AttachKeepsInv(f, Now(), i, k, addr);
      AttachUnseen(f, Now(), i, k, addr);
    }

    /** Fill an empty entry of the indirect block. */
    method AllocEntry(i: nat, k: nat, ind: nat) returns (addr: nat)
      requires Valid() && i in ino && NDIRECT <= k < MAXFILE && SlotAt(Now(), i, k) == 0
      requires ind == SlotAt(Now(), i, INDIRECT) != 0
      modifies this`ino, this`blk, this`bits, this`own, this`logged, this`peak
      ensures Valid() && Touches(old(Now()), Now(), i) && Unseen(old(Now()), Now()) && addr == SlotAt(Now(), i, k)
      ensures addr == 0 ==> Now() == old(Now()) && logged == old(logged) && peak == old(peak) &&
                            forall c :: 0 <= c < |bits| ==> bits[c]
      ensures Logs(old(Now()), Now(), bmapstart, old(logged), logged)
      ensures addr != 0 ==> Attached(old(Now()), Now(), i, k, addr) && addr in logged && ind in logged
      ensures LogGrew(old(logged), old(peak), logged, peak, if ind in old(logged) then 2 else 3)
    {
      ghost var f := Now();
      SlotsThere(f, i);
      var at := k - NDIRECT;
      hide *;
      Nothing(f, i);
      addr := Balloc();
      ghost var l, p := logged, peak;
      LogMore(old(logged), old(peak), l, p, 2, if ind in old(logged) then 2 else 3);
      if addr == 0 {
        SameFs(this, f);
        LogsSelf(f, bmapstart, logged);
        return;
      }
      LogsNew(f, Now(), bmapstart, addr, old(logged));
      EntryRoom(f, i, k, at, addr, ind);
      PutEntry(i, k, ind, addr, at, f);
      LogEntry(old(logged), old(peak), l, p, ind, logged, peak);
      LogsAfter(f, old(logged), l, p, Now(), logged, peak, ind, bmapstart, addr);
    }

    /** The new block's address goes into the indirect block. */
    method PutEntry(i: nat, k: nat, ind: nat, addr: nat, at: nat, ghost f: Fs)
      requires Inv(f) && i in f.ino && NDIRECT <= k < MAXFILE && SlotAt(f, i, k) == 0 &&
               ind == SlotAt(f, i, INDIRECT) != 0
      requires f.first <= addr < |f.bits| && !f.bits[addr] && at == k - NDIRECT && at < WORDS && addr < 0x1_0000_0000
      requires first == f.first && ino == f.ino && own == f.own && bits == f.bits[addr := true] &&
               blk == f.blk[addr := ZeroBlock()]
      requires ind in f.blk && ind != addr && ind == f.ino[i].addrs[NDIRECT]
      modifies this`blk, this`own, this`logged, this`peak
      ensures Valid() && Attached(f, Now(), i, k, addr) && Touches(f, Now(), i) && Unseen(f, Now()) &&
              addr == SlotAt(Now(), i, k)
      ensures logged == old(logged) + {ind} &&
              LogGrew(old(logged), old(peak), logged, peak, if ind in old(logged) then 0 else 1)
      ensures ind in blk && Now().blk == old(blk)[ind := blk[ind]] && Now().bits == bits
      ensures own == old(own)[addr := Loc(i, k)]
    {
      SlotsThere(f, i);
      hide *;
      AttachIndirectly(f, i, k, addr);
      BitsInWords(f);
      blk := blk[ind := SetWord(blk[ind], at, addr)];
      own := own[addr := Loc(i, k)];
      LogWrite(ind);
      IsAttachIndirect(this, f, i, k, addr, at, ind);
      AttachKeepsInv(f, Now(), i, k, addr);
      AttachUnseen(f, Now(), i, k, addr);
      AttachedSlot(f, Now(), i, k, addr);
      IsNow(this);
    }

    /** The inode's indirect block is there and has been logged. */
    ghost predicate Touched(i: nat)
      reads this
    {
      SlotAt(Now(), i, INDIRECT) != 0 && SlotAt(Now(), i, INDIRECT) in logged
    }

    /** bmap(): the block of a file, made if it is not there yet. Its panic is the
        precondition. It returns 0 only when the disk is full. No file's content changes. */
    method Bmap(i: nat, k: nat) returns (addr: nat)
      requires Valid() && i in ino && k < MAXFILE
      modifies this`ino, this`blk, this`bits, this`own, this`logged, this`peak
      ensures Valid() && Touches(old(Now()), Now(), i) && Unseen(old(Now()), Now()) && addr == SlotAt(Now(), i, k)
      ensures old(SlotAt(Now(), i, k)) != 0 ==> Now() == old(Now()) && logged == old(logged) && peak == old(peak)
      ensures old(SlotAt(Now(), i, k)) == 0 && addr != 0 ==> addr in logged
      ensures addr == 0 ==> forall c :: 0 <= c < |bits| ==> bits[c]
      ensures Logs(old(Now()), Now(), bmapstart, old(logged), logged)
      ensures LogGrew(old(logged), old(peak), logged, peak, if Touched(i) && !old(Touched(i)) then 4 else 2)
      ensures old(Touched(i)) ==> Touched(i)
    {
      ghost var f := Now();
      SlotsThere(f, i);
      Nothing(f, i);
      LogsSelf(f, bmapstart, logged);
      LogSame(logged, peak, 2);
      if k < NDIRECT {
        addr := ino[i].addrs[k];
        DirectSlot(f, i, k);
        hide *;
        if addr == 0 {
          addr := AllocDirect(i, k);
          StillTouched(f, Now(), i, INDIRECT);
          LogMore(old(logged), old(peak), logged, peak, 2, if Touched(i) && !old(Touched(i)) then 4 else 2);
        }
      } else {
        hide *;
        addr := BmapIndirect(i, k);
      }
    }

    /** The indirect block, made if it is not there yet. */
    method GetIndirect(i: nat) returns (ind: nat)
      requires Valid() && i in ino
      modifies this`ino, this`blk, this`bits, this`own, this`logged, this`peak
      ensures Valid() && Touches(old(Now()), Now(), i) && Unseen(old(Now()), Now()) && ind == SlotAt(Now(), i, INDIRECT)
      ensures forall k: nat :: k != INDIRECT ==> SlotAt(Now(), i, k) == old(SlotAt(Now(), i, k))
      ensures old(SlotAt(Now(), i, INDIRECT)) != 0 || ind == 0 ==>
                Now() == old(Now()) && logged == old(logged) && peak == old(peak)
      ensures old(SlotAt(Now(), i, INDIRECT)) == 0 && ind != 0 ==> ind in logged
      ensures ind == 0 ==> forall c :: 0 <= c < |bits| ==> bits[c]
      ensures Logs(old(Now()), Now(), bmapstart, old(logged), logged)
      ensures LogGrew(old(logged), old(peak), logged, peak, 2)
    {
      ghost var f := Now();
      SlotsThere(f, i);
      Nothing(f, i);
      LogsSelf(f, bmapstart, logged);
      LogSame(logged, peak, 2);
      ind := ino[i].addrs[NDIRECT];
      DirectSlot(f, i, INDIRECT);
      hide *;
      if ind == 0 {
        ind := AllocDirect(i, INDIRECT);
        if ind != 0 {
          OtherSlots(f, Now(), i, INDIRECT, ind);
        }
      }
    }

    /** bmap() for a block behind the indirect block. */
    method BmapIndirect(i: nat, k: nat) returns (addr: nat)
      requires Valid() && i in ino && NDIRECT <= k < MAXFILE
      modifies this`ino, this`blk, this`bits, this`own, this`logged, this`peak
      ensures Valid() && Touches(old(Now()), Now(), i) && Unseen(old(Now()), Now()) && addr == SlotAt(Now(), i, k)
      ensures old(SlotAt(Now(), i, k)) != 0 ==> Now() == old(Now()) && logged == old(logged) && peak == old(peak)
      ensures old(SlotAt(Now(), i, k)) == 0 && addr != 0 ==> addr in logged
      ensures addr == 0 ==> forall c :: 0 <= c < |bits| ==> bits[c]
      ensures Logs(old(Now()), Now(), bmapstart, old(logged), logged)
      ensures LogGrew(old(logged), old(peak), logged, peak, if Touched(i) && !old(Touched(i)) then 4 else 2)
      ensures old(Touched(i)) ==> Touched(i)
    {
      ghost var f := Now();
      var at := k - NDIRECT;
      NotIndirect(f, i, k);
      hide Inv, Touches, Unseen, Attached, SlotAt, Slot, LogGrew, GetWord, SetWord, Valid, ZeroBlock, Logs;
      LogSame(logged, peak, 2);
      var ind := GetIndirect(i);
      ghost var f1, l1, p1 := Now(), logged, peak;
      if ind == 0 {
        EmptyEntry(f, i, k);
        return 0;
      }
      EntrySlot(f1, i, k, ind, at);
      addr := GetWord(blk[ind], at);
      if addr == 0 {
        addr := AllocEntry(i, k, ind);
        LogsMore(f, f1, Now(), bmapstart, old(logged), l1, p1, logged, peak, if ind in l1 then 2 else 3);
        TouchesTrans(f, f1, Now(), i);
        UnseenTrans(f, f1, Now());
      }
      StillTouched(f, f1, i, INDIRECT);
      StillTouched(f1, Now(), i, INDIRECT);
      IndirectCost(old(logged), old(peak), l1, p1, logged, peak, SlotAt(f, i, INDIRECT), ind);
    }

    /** The disk is full, and the file has no block at a position. */
    ghost predicate NoBlock(i: nat, pos: nat)
      reads this
    {
      (forall c :: 0 <= c < |bits| ==> bits[c]) && SlotAt(Now(), i, BlockNo(pos)) == 0
    }

    /** Why writei() of src[lo..hi] stops at `d`: the user's memory ends within the next chunk, or there
        is no block for it. That is at the end of a block, unless nothing was written. It is `torn` if
        the memory ends in the middle of the chunk. */
    ghost predicate Stopped(i: nat, off: nat, lo: nat, d: nat, hi: nat, avail: nat, torn: bool)
      reads this
    {
      && lo <= d < hi && (CutShort(off, d, hi, avail) || NoBlock(i, off + d)) && (d > lo ==> Offset(off + d) == 0)
      && if torn then d < avail && CutShort(off, d, hi, avail) && SlotAt(Now(), i, BlockNo(off + d)) != 0
         else avail <= d || NoBlock(i, off + d)
    }

    /** One iteration of writei()'s loop: `hi` is how far it gets. It stops when there is no
        block, or when the user's memory ends (either_copyin() fails). */
    method WriteChunk(i: nat, off: nat, src: seq<Byte>, lo: nat, end: nat, avail: nat)
      returns (ok: bool, hi: nat, torn: bool)
      requires Valid() && i in ino && lo < end <= |src| && BlockNo(off + lo) < MAXFILE
      modifies this`ino, this`blk, this`bits, this`own, this`logged, this`peak
      ensures Valid() && Touches(old(Now()), Now(), i) && hi == lo + ChunkSize(off + lo, end - lo)
      ensures ok ==> Stored(old(Now()), Now(), i, off, src, lo, hi) && SlotAt(Now(), i, BlockNo(off + lo)) != 0
      ensures ok ==> SlotLogged(Now(), i, off + lo, logged)
      ensures !ok ==> Unseen(old(Now()), Now()) && (avail < hi || NoBlock(i, off + lo))
      ensures torn ==> !ok && lo < avail < hi && SlotAt(Now(), i, BlockNo(off + lo)) != 0
      ensures !ok && !torn ==> avail <= lo || NoBlock(i, off + lo)
      ensures Logs(old(Now()), Now(), bmapstart, old(logged), logged)
      ensures LogGrew(old(logged), old(peak), logged, peak,
                      if old(SlotAt(Now(), i, BlockNo(off + lo))) != 0 then 1
                      else if Touched(i) && !old(Touched(i)) then 4 else 2)
      ensures old(Touched(i)) ==> Touched(i)
    {
      hide Inv, Touches, Unseen, Stored, SlotAt, Slot, LogGrew, BlockNo, Offset, ChunkSize, Overwrite, MAXFILE, BSIZE,
           Fits, Logs, Home;
      ghost var f := Now();
      hi := lo + ChunkSize(off + lo, end - lo);
      var addr := Bmap(i, BlockNo(off + lo));
      ghost var f1, l, p := Now(), logged, peak;
      ghost var n := if SlotAt(f, i, BlockNo(off + lo)) != 0 then 0
                     else if Touched(i) && !old(Touched(i)) then 4 else 2;
      LogSame(logged, peak, 0);
      TouchesKeys(f, f1, i);
      ok, torn := addr != 0 && hi <= avail, addr != 0 && lo < avail < hi;
      if ok {
        FitsAt(off + lo, hi - lo);
        PutStored(f1, i, off, src, lo, hi);
        blk := blk[addr := Overwrite(blk[addr], Offset(off + lo), src, lo, hi)];
        LogWrite(addr);
        BlockPlaced(f1, i, BlockNo(off + lo));
        LogsBlock(f1, Now(), bmapstart, addr, blk[addr], l);
        LogsMore(f, f1, Now(), bmapstart, old(logged), l, p, logged, peak, if addr in l then 0 else 1);
        TouchesTrans(f, f1, Now(), i);
        StoredUnseen(f, f1, Now(), i, off, src, lo, hi);
        LogTrans(old(logged), old(peak), l, p, logged, peak, n, if addr in l then 0 else 1);
        StillTouched(f1, Now(), i, INDIRECT);
        StillTouched(f1, Now(), i, BlockNo(off + lo));
        n := n + if addr in l then 0 else 1;
      }
      LogMore(old(logged), old(peak), logged, peak, n,
              if SlotAt(f, i, BlockNo(off + lo)) != 0 then 1 else if Touched(i) && !old(Touched(i)) then 4 else 2);
    }

    /** One iteration of writei()'s loop, in terms of the whole call that started in `f0` at
        `lo`. `it` counts the iterations. */
    method WriteStep(i: nat, off: nat, src: seq<Byte>, ghost lo: nat, d: nat, end: nat, avail: nat, ghost f0: Fs,
                     ghost l0: set<nat>, ghost it: nat, ghost counted: bool)
      returns (ok: bool, d': nat, torn: bool)
      requires Writing(this, f0, l0, i, off, src, lo, d) && lo <= d < end <= |src| && off + end <= MAXBYTES
      requires Steps(Offset(off + lo), d - lo, end - lo, it) &&
               (it == 0 && Offset(off + lo) != 0 ==> SlotAt(Now(), i, BlockNo(off + lo)) != 0)
      requires counted ==> LogBound(|logged|, peak, it, Offset(off + lo), Touched(i))
      modifies this`ino, this`blk, this`bits, this`own, this`logged, this`peak
      ensures d <= d' <= end && Writing(this, f0, l0, i, off, src, lo, d')
      ensures ok ==> d < d' && Steps(Offset(off + lo), d' - lo, end - lo, it + 1)
      ensures !ok ==> d' == d && Stopped(i, off, lo, d, end, avail, torn)
      ensures ok ==> !torn
      ensures counted ==> LogBound(|logged|, peak, it + 1, Offset(off + lo), Touched(i)) && peak <= |logged|
      ensures counted && end - lo <= CHUNK ==> |logged| < MAXOPBLOCKS
    {
      hide Inv, Touches, Unseen, Stored, SlotAt, Slot, LogGrew, BlockNo, Offset, ChunkSize, MAXFILE, BSIZE, Fits, Steps,
           LogBound, Filled, BlocksOf, Logs;
      InRange(off + d, off + end);
      EndsBlock(off, lo, d, end, it);
      StepSize(off, lo, d, end, it);
      ghost var f1, l, p, t := Now(), logged, peak, Touched(i);
      ok, d', torn := WriteChunk(i, off, src, d, end, avail);
      TouchesKeys(f0, f1, i);
      TouchesTrans(f0, f1, Now(), i);
      ghost var n := if SlotAt(f1, i, BlockNo(off + d)) != 0 then 1 else if Touched(i) && !t then 4 else 2;
      LogsMore(f0, f1, Now(), bmapstart, l0, l, p, logged, peak, n);
      BoundStep(l, p, logged, peak, it, Offset(off + lo), t, Touched(i), SlotAt(f1, i, BlockNo(off + d)) != 0, counted);
      if counted && end - lo <= CHUNK {
        ChunkBound(Offset(off + lo), d - lo, end - lo, it, |logged|, peak, Touched(i));
      }
      if ok {
        StoredMore(f0, f1, Now(), i, off, src, lo, d, d');
        FilledMore(f1, Now(), i, off + d, off + d');
        PutMore(f1, Now(), i, off, lo, d, d', l, p, logged, peak, n);
      } else {
        PutStill(f1, Now(), i, off, lo, d, l, p, logged, peak, n);
        UnseenStored(f0, f1, Now(), i, off, src, lo, d);
        FilledStill(f1, Now(), i, BlocksOf(off + d));
        d' := d;
      }
    }

    /** iupdate(): the inode goes into the buffer of its block, which is logged. */
    method Iupdate(i: nat)
      requires i in ino
      modifies this`dino, this`logged, this`peak
      ensures dino == old(dino)[i := ino[i]]
      ensures LogGrew(old(logged), old(peak), logged, peak, 1) && peak <= Max(old(peak), |old(logged)|)
      ensures logged == old(logged) + {InodeBlock(inodestart, i)}
    {
      LogOne(logged, peak, IBlock(i));
      dino := dino[i := ino[i]];
      peak, logged := Max(peak, |logged|), logged + {IBlock(i)};
    }

    /** writei()'s loop. */
    method WriteLoop(i: nat, off: nat, src: seq<Byte>, lo: nat, hi: nat, avail: nat) returns (d: nat, torn: bool)
      requires Valid() && i in ino && lo <= hi <= |src| && off + lo <= ino[i].size && off + hi <= MAXBYTES
      modifies this`ino, this`blk, this`bits, this`own, this`logged, this`peak
      ensures lo <= d <= hi && Writing(this, old(Now()), old(logged), i, off, src, lo, d)
      ensures if d < hi then Stopped(i, off, lo, d, hi, avail, torn) else !torn
      ensures old(logged) == {} && old(peak) == 0 && hi - lo <= CHUNK ==> |logged| < MAXOPBLOCKS && peak <= |logged|
    {
      ghost var f0, l0, counted, it := Now(), logged, logged == {} && peak == 0, 0;
      BeginWriting(this, i, off, src, lo, hi);
      hide *;
      d := lo;
      var ok := true;
      torn := false;
      while ok && d < hi
        invariant lo <= d <= hi && Writing(this, f0, l0, i, off, src, lo, d)
        invariant ok ==> Steps(Offset(off + lo), d - lo, hi - lo, it)
        invariant it == 0 ==> d == lo && Now() == f0
        invariant if ok then !torn else d < hi && Stopped(i, off, lo, d, hi, avail, torn)
        invariant counted ==> peak <= |logged| && LogBound(|logged|, peak, it, Offset(off + lo), Touched(i))
        invariant counted && hi - lo <= CHUNK ==> |logged| < MAXOPBLOCKS
        decreases ok, hi - d
      {
        ok, d, torn := WriteStep(i, off, src, lo, d, hi, avail, f0, l0, it, counted);
        it := it + 1;
      }
    }

    /** What either_copyin() has copied to the buffer when it fails. The buffer is released without a
        log_write(). */
    method Spill(i: nat, off: nat, src: seq<Byte>, lo: nat, hi: nat)
      requires Valid() && i in ino && lo < hi <= |src| && Fits(off + lo, hi - lo)
      requires BlockNo(off + lo) < MAXFILE && SlotAt(Now(), i, BlockNo(off + lo)) != 0
      modifies this`ino, this`blk, this`bits, this`own, this`logged, this`peak
      ensures Valid() && Leftover(old(Now()), Now(), i, off, src, lo, hi)
      ensures logged == old(logged) && peak == old(peak) && ino == old(ino)
    {
      ghost var f := Now();
      PutStored(f, i, off, src, lo, hi);
      FitsAt(off + lo, hi - lo);
      hide *;
      var addr := Bmap(i, BlockNo(off + lo));
      BlockPlaced(f, i, BlockNo(off + lo));
      blk := blk[addr := Overwrite(blk[addr], Offset(off + lo), src, lo, hi)];
      IsNow(this);
      IsLeftover(f, Now(), i, off, src, lo, hi, blk[addr]);
    }

    /** writei() of src[lo..hi] with src[0] belonging at position `off`: splices the bytes that
        were written into the file, extends it if need be, and touches no other file. Every block that
        changes is logged, and so is every block with bytes that were written. A chunk of filewrite()'s
        size stays within the operation's share of the log. All this is so of `kept`. A call that stops
        because the user's memory ends within a chunk is `torn`: it has also put the bytes up to there
        in a block, but neither are they counted, nor is the block logged for them. */
    method Writei(i: nat, off: nat, src: seq<Byte>, lo: nat, hi: nat, avail: nat)
      returns (tot: int, torn: bool, ghost kept: Fs)
      requires Valid() && i in ino && lo <= hi <= |src| && off + lo < 0x1_0000_0000 && hi - lo < 0x1_0000_0000
      modifies this
      ensures Valid()
      ensures tot == -1 <==> off + lo > old(ino)[i].size || off + hi > MAXBYTES
      ensures tot == -1 ==> Now() == old(Now()) && logged == old(logged) && peak == old(peak)
      ensures old(Synced()) ==> Synced()
      ensures tot == -1 ==> !torn && kept == Now()
      ensures tot != -1 ==> 0 <= tot <= hi - lo && Written(old(Now()), kept, i, off, src, lo, lo + tot)
      ensures if torn then Leftover(kept, Now(), i, off, src, lo + tot, avail) else Now() == kept
      ensures tot != -1 ==> Covered(old(Now()), kept, bmapstart, logged, {}) && InodeBlock(inodestart, i) in logged
      ensures tot != -1 ==> PutLogged(kept, i, off, lo, lo + tot, logged)
      ensures tot != -1 ==> OnlyHome(old(Now()), bmapstart, inodestart, i, old(logged), logged)
      ensures if 0 <= tot < hi - lo then Stopped(i, off, lo, lo + tot, hi, avail, torn) else !torn
      ensures old(logged) == {} && old(peak) == 0 && hi - lo <= CHUNK ==> |logged| <= MAXOPBLOCKS && peak < MAXOPBLOCKS
    {
      var pos, n := off + lo, hi - lo;
      hide *;
      SomeShare();
      RangeIs(pos, n, ino[i].size);
      if BadRange(pos, n, ino[i].size) {
        return -1, false, Now();
      }
      tot, torn, kept := WriteAll(i, off, src, lo, hi, avail);
    }

    /** writei() when nothing is wrong with its arguments. */
    method WriteAll(i: nat, off: nat, src: seq<Byte>, lo: nat, hi: nat, avail: nat)
      returns (tot: nat, torn: bool, ghost kept: Fs)
      requires Valid() && i in ino && lo <= hi <= |src| && off + lo <= ino[i].size && off + hi <= MAXBYTES
      modifies this
      ensures Valid() && tot <= hi - lo && Written(old(Now()), kept, i, off, src, lo, lo + tot)
      ensures old(Synced()) ==> Synced()
      ensures if torn then Leftover(kept, Now(), i, off, src, lo + tot, avail) else Now() == kept
      ensures Covered(old(Now()), kept, bmapstart, logged, {}) && InodeBlock(inodestart, i) in logged
      ensures PutLogged(kept, i, off, lo, lo + tot, logged)
      ensures OnlyHome(old(Now()), bmapstart, inodestart, i, old(logged), logged)
      ensures if tot < hi - lo then Stopped(i, off, lo, lo + tot, hi, avail, torn) else !torn
      ensures old(logged) == {} && old(peak) == 0 && hi - lo <= CHUNK ==> |logged| <= MAXOPBLOCKS && peak < MAXOPBLOCKS
    {
      IsSynced(this);
      ghost var f0, l0 := Now(), logged;
      hide *;
      var d;
      d, torn := WriteLoop(i, off, src, lo, hi, avail);
      tot := d - lo;
      WritingParts(this, f0, l0, i, off, src, lo, d);
      EndWriting(f0, Now(), i, off, src, lo, d);
      ghost var f1 := Now();
      StoppedIs(this, i, off, lo, d, hi, avail, torn);
      if off + d > ino[i].size {
        ino := ino[i := ino[i].(size := off + d)];
      }
      ghost var l, p := logged, peak;
      Iupdate(i);
      IsNow(this);
      SameSlots(f1, Now(), i, BlockNo(off + d));
      StoppedIs(this, i, off, lo, d, hi, avail, torn);
      LogsInode(f0, f1, Now(), bmapstart, inodestart, i, l0, l);
      InodeLast(l, p, logged, peak);
      PutSame(f1, Now(), i, off, lo, d, l, logged);
      kept := Now();
      UpdatedInode(f0, Now(), old(dino), i, off, src, lo, d);
      IsSynced(this);
      if torn {
        TornChunk(off, d, hi, avail);
        Spill(i, off, src, d, avail);
        LeftoverSlots(kept, Now(), i, off, src, d, avail);
        IsSynced(this);
        StoppedIs(this, i, off, lo, d, hi, avail, torn);
      }
    }
  }

  lemma IsSynced(fs: FileSystem)
    ensures fs.Synced() <==> fs.dino == fs.ino
  {
  }

  lemma UpdatedInode(f: Fs, f': Fs, dino: map<nat, Inode>, i: nat, off: nat, src: seq<Byte>, lo: nat, hi: nat)
    requires Written(f, f', i, off, src, lo, hi)
    ensures i in f'.ino && (dino == f.ino ==> dino[i := f'.ino[i]] == f'.ino)
  {
    hide Stored;
  }

  lemma LogTwice(l: set<nat>, p: nat, m: nat, l1: set<nat>, p1: nat, n: nat, l2: set<nat>, p2: nat)
    requires l1 == l + {m} && LogGrew(l, p, l1, p1, if m in l then 0 else 1)
    requires l2 == l1 + {n} && LogGrew(l1, p1, l2, p2, if n in l1 then 0 else 1)
    ensures LogGrew(l, p, l2, p2, 2)
  {
    Cardinality(l1, l2);
  }

  /** What an operation on inode `i` logs besides `l0`. */
  ghost predicate OnlyHome(f: Fs, bmapstart: nat, inodestart: nat, i: nat, l0: set<nat>, l: set<nat>) {
    forall n :: n in l && n !in l0 ==> Home(f, bmapstart, n) || n == InodeBlock(inodestart, i)
  }

  /** What has changed from `f` to `f'` is in blocks that have been logged, and besides `l0` only blocks of
      the file system have been. */
  ghost predicate Recorded(f: Fs, f': Fs, bmapstart: nat, inodestart: nat, i: nat, l0: set<nat>, l: set<nat>) {
    && Covered(f, f', bmapstart, l, {}) && OnlyHome(f, bmapstart, inodestart, i, l0, l) && f'.ino.Keys == f.ino.Keys
    && forall j :: j in f.ino && f'.ino[j] != f.ino[j] ==> InodeBlock(inodestart, j) in l
  }

  lemma RecordedSelf(f: Fs, bmapstart: nat, inodestart: nat, i: nat, l: set<nat>)
    ensures Recorded(f, f, bmapstart, inodestart, i, l, l)
  {
  }

  lemma WrittenRecorded(f: Fs, f': Fs, i: nat, off: nat, src: seq<Byte>, lo: nat, hi: nat, bmapstart: nat,
                        inodestart: nat, l0: set<nat>, l: set<nat>)
    requires Written(f, f', i, off, src, lo, hi) && InodeBlock(inodestart, i) in l
    requires Covered(f, f', bmapstart, l, {}) && OnlyHome(f, bmapstart, inodestart, i, l0, l)
    ensures Recorded(f, f', bmapstart, inodestart, i, l0, l)
  {
    hide Stored, Covered, OnlyHome;
  }

  lemma LogsInode(f: Fs, f1: Fs, f2: Fs, bmapstart: nat, inodestart: nat, i: nat, l0: set<nat>, l: set<nat>)
    requires Logs(f, f1, bmapstart, l0, l) && f2.first == f1.first && f2.bits == f1.bits && f2.blk == f1.blk
    requires f2.own == f1.own
    ensures Covered(f, f2, bmapstart, l + {InodeBlock(inodestart, i)}, {})
    ensures OnlyHome(f, bmapstart, inodestart, i, l0, l + {InodeBlock(inodestart, i)})
  {
    CoveredInode(f, f1, f2, bmapstart, l, l + {InodeBlock(inodestart, i)});
  }

  lemma BlockPlaced(f: Fs, i: nat, k: nat)
    requires Inv(f) && i in f.ino && k < MAXFILE && SlotAt(f, i, k) != 0
    ensures var b := SlotAt(f, i, k); b in f.blk && f.first <= b < |f.bits|
  {
    assert SlotOk(f, i, k) && BlockOk(f, SlotAt(f, i, k));
  }

  lemma BitsInWords(f: Fs)
    requires Inv(f)
    ensures |f.bits| <= 0x1_0000_0000
  {
  }

  lemma AttachedSlot(f: Fs, f': Fs, i: nat, k: nat, b: nat)
    requires Attached(f, f', i, k, b)
    ensures SlotAt(f', i, k) == b
  {
  }

  lemma LogsAfter(f: Fs, l0: set<nat>, l: set<nat>, p: nat, f': Fs, l': set<nat>, p': nat, ind: nat, bmapstart: nat,
                  b: nat)
    requires f.first <= b < |f.bits| && l == l0 + {BitBlock(bmapstart, b)} + {b} && l' == l + {ind}
    requires ind in f.blk && f.first <= ind < |f.bits| && ind in f'.blk
    requires f'.first == f.first && f'.bits == f.bits[b := true] &&
             f'.blk == f.blk[b := ZeroBlock()][ind := f'.blk[ind]]
    requires forall c :: c in f'.own && c != b ==> c in f.own && f'.own[c] == f.own[c]
    ensures Logs(f, f', bmapstart, l0, l')
  {
    BitBlockHome(f, bmapstart, b);
  }

  lemma StoppedIs(fs: FileSystem, i: nat, off: nat, lo: nat, d: nat, hi: nat, avail: nat, torn: bool)
    ensures fs.Stopped(i, off, lo, d, hi, avail, torn) <==>
              var none := (forall c :: 0 <= c < |fs.bits| ==> fs.bits[c]) && SlotAt(fs.Now(), i, BlockNo(off + d)) == 0;
              && lo <= d < hi && (CutShort(off, d, hi, avail) || none) && (d > lo ==> Offset(off + d) == 0)
              && if torn then d < avail && CutShort(off, d, hi, avail) && SlotAt(fs.Now(), i, BlockNo(off + d)) != 0
                 else avail <= d || none
  {
  }

  lemma SameSlots(f: Fs, f': Fs, i: nat, k: nat)
    requires i in f.ino && i in f'.ino && f'.blk == f.blk && f'.ino[i].addrs == f.ino[i].addrs
    ensures SlotAt(f', i, k) == SlotAt(f, i, k)
  {
  }

  lemma IsBBlock(fs: FileSystem, b: nat)
    ensures fs.BBlock(b) == BitBlock(fs.bmapstart, b)
  {
  }

  lemma FirstBits(f: Fs)
    requires Inv(f)
    ensures 0 < f.first <= |f.bits| && forall b :: 0 <= b < f.first ==> f.bits[b]
  {
  }

  lemma SlotsThere(f: Fs, i: nat)
    requires Inv(f) && i in f.ino
    ensures |f.ino[i].addrs| == NDIRECT + 1
  {
    assert Shaped(f, i);
  }

  lemma Nothing(f: Fs, i: nat)
    ensures Touches(f, f, i) && Unseen(f, f)
  {
  }

  lemma SameFs(fs: FileSystem, f: Fs)
    requires fs.first == f.first && fs.ino == f.ino && fs.blk == f.blk && fs.bits == f.bits && fs.own == f.own && Inv(f)
    ensures fs.Now() == f && fs.Valid()
  {
  }

  lemma IsAttachDirect(fs: FileSystem, f: Fs, i: nat, k: nat, b: nat, at: nat)
    requires Shaped(f, i) && (k < NDIRECT || k == INDIRECT) && b < |f.bits| &&
             at == if k == INDIRECT then NDIRECT else k
    requires fs.first == f.first && fs.ino == f.ino[i := f.ino[i].(addrs := f.ino[i].addrs[at := b])] &&
             fs.blk == f.blk[b := ZeroBlock()]
    requires fs.bits == f.bits[b := true] && fs.own == f.own[b := Loc(i, k)]
    ensures fs.Now() == AttachDirect(f, i, k, b)
  {
  }

  lemma IsAttachIndirect(fs: FileSystem, f: Fs, i: nat, k: nat, b: nat, at: nat, ind: nat)
    requires Shaped(f, i) && NDIRECT <= k < MAXFILE && b < |f.bits| <= 0x1_0000_0000 && at == k - NDIRECT
    requires ind == f.ino[i].addrs[NDIRECT] && ind in f.blk && ind != b
    requires fs.first == f.first && fs.ino == f.ino &&
             fs.blk == f.blk[b := ZeroBlock()][ind := SetWord(f.blk[ind], at, b)]
    requires fs.bits == f.bits[b := true] && fs.own == f.own[b := Loc(i, k)]
    ensures fs.Now() == AttachIndirect(f, i, k, b)
  {
  }

  /** The indirect block is memory of its own, with room for the address. */
  lemma EntryRoom(f: Fs, i: nat, k: nat, at: nat, b: nat, ind: nat)
    requires Inv(f) && i in f.ino && NDIRECT <= k < MAXFILE && at == k - NDIRECT && ind == SlotAt(f, i, INDIRECT) != 0
    requires f.first <= b < |f.bits| && !f.bits[b]
    ensures at < WORDS && ind in f.blk && ind != b && b < 0x1_0000_0000 && ind == f.ino[i].addrs[NDIRECT]
    ensures f.first <= ind < |f.bits|
  {
    assert Shaped(f, i) && SlotOk(f, i, INDIRECT) && BlockOk(f, ind);
  }

  lemma EntrySlot(f: Fs, i: nat, k: nat, ind: nat, at: nat)
    requires Inv(f) && i in f.ino && NDIRECT <= k < MAXFILE && at == k - NDIRECT && ind == SlotAt(f, i, INDIRECT) != 0
    ensures at < WORDS && ind in f.blk && GetWord(f.blk[ind], at) == SlotAt(f, i, k)
  {
    assert Shaped(f, i) && SlotOk(f, i, INDIRECT) && BlockOk(f, ind);
  }

  lemma EmptyEntry(f: Fs, i: nat, k: nat)
    requires NDIRECT <= k < MAXFILE && SlotAt(f, i, INDIRECT) == 0
    ensures SlotAt(f, i, k) == 0
  {
  }

  lemma DirectSlot(f: Fs, i: nat, k: nat)
    requires Inv(f) && i in f.ino && (k < NDIRECT || k == INDIRECT)
    ensures Shaped(f, i) && SlotAt(f, i, k) == f.ino[i].addrs[if k == INDIRECT then NDIRECT else k]
  {
    assert Shaped(f, i);
  }

  lemma NotIndirect(f: Fs, i: nat, k: nat)
    requires k < MAXFILE
    ensures k != INDIRECT
  {
  }

  lemma OtherSlots(f: Fs, f': Fs, i: nat, k: nat, b: nat)
    requires Attached(f, f', i, k, b)
    ensures forall l: nat :: l != k ==> SlotAt(f', i, l) == SlotAt(f, i, l)
  {
  }

  lemma StillTouched(f: Fs, f': Fs, i: nat, k: nat)
    requires Touches(f, f', i) && i in f.ino
    ensures SlotAt(f, i, k) != 0 ==> SlotAt(f', i, k) == SlotAt(f, i, k)
  {
  }

  lemma LogEntry(l: set<nat>, p: nat, l1: set<nat>, p1: nat, ind: nat, l2: set<nat>, p2: nat)
    requires LogGrew(l, p, l1, p1, 2) && l2 == l1 + {ind} && LogGrew(l1, p1, l2, p2, if ind in l1 then 0 else 1)
    ensures LogGrew(l, p, l2, p2, if ind in l then 2 else 3)
  {
    Cardinality(l1, l2);
  }

  /** What bmap() may add to the log for a block behind the indirect block. */
  lemma IndirectCost(l0: set<nat>, p0: nat, l1: set<nat>, p1: nat, l2: set<nat>, p2: nat, ind0: nat, ind: nat)
    requires ind != 0 && (ind0 != 0 ==> ind0 == ind && l1 == l0 && p1 == p0)
    requires ind0 == 0 ==> ind in l1 && LogGrew(l0, p0, l1, p1, 2)
    requires (l2 == l1 && p2 == p1) || (ind in l2 && LogGrew(l1, p1, l2, p2, if ind in l1 then 2 else 3))
    ensures LogGrew(l0, p0, l2, p2, if ind in l2 && !(ind0 != 0 && ind0 in l0) then 4 else 2)
    ensures ind0 != 0 && ind0 in l0 ==> ind in l2
  {
    Cardinality(l1, l2);
  }

  /** How much of `n` bytes at `pos` lies in the block of `pos`. */
  function ChunkSize(pos: nat, n: nat): (m: nat)
    requires n > 0
    ensures 0 < m <= n && Fits(pos, m)
  {
    var rest := BSIZE - pos % BSIZE;
    if n < rest then n else rest
  }

  /** The user's memory ends before the next chunk does. */
  predicate CutShort(off: nat, d: nat, end: nat, avail: nat) { d < end && avail < d + ChunkSize(off + d, end - d) }

  lemma FitsAt(pos: nat, n: nat)
    requires Fits(pos, n)
    ensures Offset(pos) + n <= BSIZE
  {
  }

  lemma TouchesKeys(f: Fs, f': Fs, i: nat)
    requires Touches(f, f', i)
    ensures f'.ino.Keys == f.ino.Keys
  {
  }

  /** The state in writei()'s loop: the bytes from `lo` up to `d` are written, and the blocks up
      to there are in place. */
  ghost predicate Writing(fs: FileSystem, f0: Fs, l0: set<nat>, i: nat, off: nat, src: seq<Byte>, lo: nat, d: nat)
    reads fs
  {
    && Inv(fs.Now()) && i in fs.ino && Touches(f0, fs.Now(), i)
    && Stored(f0, fs.Now(), i, off, src, lo, d) && Filled(fs.Now(), i, BlocksOf(off + d))
    && Logs(f0, fs.Now(), fs.bmapstart, l0, fs.logged) && PutLogged(fs.Now(), i, off, lo, d, fs.logged)
  }

  /** The blocks of the bytes from `lo` up to `d` have been logged. */
  ghost predicate PutLogged(f: Fs, i: nat, off: nat, lo: nat, d: nat, l: set<nat>) {
    forall pos: nat :: off + lo <= pos < off + d ==> SlotLogged(f, i, pos, l)
  }

  ghost predicate SlotLogged(f: Fs, i: nat, pos: nat, l: set<nat>) {
    var b := SlotAt(f, i, BlockNo(pos));
    b != 0 && b in l
  }

  lemma PutMore(f: Fs, f': Fs, i: nat, off: nat, lo: nat, d: nat, d': nat, l: set<nat>, p: nat, l': set<nat>, p': nat,
                n: nat)
    requires PutLogged(f, i, off, lo, d, l) && Touches(f, f', i) && i in f.ino && LogGrew(l, p, l', p', n)
    requires lo <= d < d' && Fits(off + d, d' - d) && SlotLogged(f', i, off + d, l')
    ensures PutLogged(f', i, off, lo, d', l')
  {
    hide SlotAt, BlockNo, Offset, Fits;
    forall pos: nat | off + lo <= pos < off + d' ensures SlotLogged(f', i, pos, l') {
      if pos >= off + d {
        SameBlock(off + d, pos, d' - d);
      } else {
        assert SlotLogged(f, i, pos, l);
      }
    }
  }

  lemma PutStill(f: Fs, f': Fs, i: nat, off: nat, lo: nat, d: nat, l: set<nat>, p: nat, l': set<nat>, p': nat, n: nat)
    requires PutLogged(f, i, off, lo, d, l) && Touches(f, f', i) && i in f.ino && LogGrew(l, p, l', p', n)
    ensures PutLogged(f', i, off, lo, d, l')
  {
    hide SlotAt, BlockNo;
    forall pos: nat | off + lo <= pos < off + d ensures SlotLogged(f', i, pos, l') {
      assert SlotLogged(f, i, pos, l);
    }
  }

  lemma PutSame(f: Fs, f': Fs, i: nat, off: nat, lo: nat, d: nat, l: set<nat>, l': set<nat>)
    requires PutLogged(f, i, off, lo, d, l) && l <= l'
    requires i in f.ino && i in f'.ino && f'.blk == f.blk && f'.ino[i].addrs == f.ino[i].addrs
    ensures PutLogged(f', i, off, lo, d, l')
  {
    forall pos: nat | off + lo <= pos < off + d ensures SlotLogged(f', i, pos, l') {
      assert SlotLogged(f, i, pos, l);
      SameSlots(f, f', i, BlockNo(pos));
    }
  }

  /** `f'` is `f` with the bytes of `src` from `lo` up to `hi` put in one block of file `i`. */
  ghost predicate Leftover(f: Fs, f': Fs, i: nat, off: nat, src: seq<Byte>, lo: nat, hi: nat) {
    var b := SlotAt(f, i, BlockNo(off + lo));
    && lo < hi && Fits(off + lo, hi - lo) && BlockNo(off + lo) < MAXFILE && b != 0 && b in f.blk && b in f'.blk
    && f' == f.(blk := f.blk[b := f'.blk[b]]) && Stored(f, f', i, off, src, lo, hi)
    && forall j, l: nat :: j in f.ino ==> SlotAt(f', j, l) == SlotAt(f, j, l)
  }

  /** Until the last iteration, each one ends at a block boundary. */
  ghost predicate Steps(o: nat, t: nat, n: nat, it: nat) {
    (it == 0 <==> t == 0) && (0 < t < n ==> o + t == it * BSIZE)
  }

  /** What `it` iterations of writei() can have logged: two blocks each, a data block and a
      bitmap block, but only one for a first block that was there; and two for the indirect
      block. */
  ghost predicate LogBound(n: nat, p: nat, it: nat, o: nat, touched: bool) {
    n + (if it > 0 && o > 0 then 1 else 0) <= 2 * it + (if touched then 2 else 0) && p <= n
  }

  lemma InRange(pos: nat, end: nat)
    requires pos < end <= MAXBYTES
    ensures BlockNo(pos) < MAXFILE
  {
  }

  /** One more iteration ends at a block boundary or at the end. */
  lemma StepSize(off: nat, lo: nat, d: nat, end: nat, it: nat)
    requires lo <= d < end && Steps(Offset(off + lo), d - lo, end - lo, it)
    ensures d + ChunkSize(off + d, end - d) <= end
    ensures Steps(Offset(off + lo), d + ChunkSize(off + d, end - d) - lo, end - lo, it + 1)
    ensures it == 0 <==> d == lo
  {
    var o := Offset(off + lo);
    if it > 0 {
      Boundary(off + lo, d - lo, it);
    }
  }

  lemma EndsBlock(off: nat, lo: nat, d: nat, hi: nat, it: nat)
    requires lo <= d < hi && Steps(Offset(off + lo), d - lo, hi - lo, it)
    ensures d > lo ==> Offset(off + d) == 0
  {
    if d > lo {
      Boundary(off + lo, d - lo, it);
    }
  }

  lemma Boundary(pos: nat, t: nat, it: nat)
    requires Offset(pos) + t == it * BSIZE
    ensures Offset(pos + t) == 0
  {
    var q := BlockNo(pos);
    assert pos == q * BSIZE + Offset(pos);
    assert pos + t == (q + it) * BSIZE;
  }

  lemma BoundStep(l: set<nat>, p: nat, l': set<nat>, p': nat, it: nat, o: nat, t: bool, t': bool, existed: bool,
                  counted: bool)
    requires LogGrew(l, p, l', p', if existed then 1 else if t' && !t then 4 else 2) && (t ==> t')
    requires it == 0 && o != 0 ==> existed
    requires counted ==> LogBound(|l|, p, it, o, t)
    ensures counted ==> LogBound(|l'|, p', it + 1, o, t') && p' <= |l'|
  {
    Cardinality(l, l');
  }

  lemma FilledStill(f: Fs, f': Fs, i: nat, n: nat)
    requires Filled(f, i, n) && Touches(f, f', i) && i in f.ino
    ensures Filled(f', i, n)
  {
  }

  /** Once the block of a chunk is there, the file can reach to the end of the chunk. */
  lemma FilledMore(f: Fs, f': Fs, i: nat, pos: nat, end: nat)
    requires Filled(f, i, BlocksOf(pos)) && Touches(f, f', i) && i in f.ino && pos < end && Fits(pos, end - pos)
    requires BlockNo(pos) < MAXFILE && SlotAt(f', i, BlockNo(pos)) != 0
    ensures Filled(f', i, BlocksOf(end))
  {
    hide SlotAt;
    ChunkBlocks(pos, end);
  }

  lemma ChunkBlocks(pos: nat, end: nat)
    requires pos < end && Fits(pos, end - pos)
    ensures BlocksOf(end) == BlockNo(pos) + 1 && BlocksOf(pos) >= BlockNo(pos)
  {
  }

  /** What writei() does to the files: `size` becomes max(size, end of the bytes written). */
  ghost predicate Written(f: Fs, f': Fs, i: nat, off: nat, src: seq<Byte>, lo: nat, hi: nat) {
    && f'.first == f.first && f'.ino.Keys == f.ino.Keys && i in f.ino
    && (forall j :: j in f.ino && j != i ==> f'.ino[j] == f.ino[j])
    && f'.ino[i] == f.ino[i].(size := Max(f.ino[i].size, off + hi), addrs := f'.ino[i].addrs)
    && Stored(f, f', i, off, src, lo, hi)
  }

  lemma BeginWriting(fs: FileSystem, i: nat, off: nat, src: seq<Byte>, lo: nat, hi: nat)
    requires Inv(fs.Now()) && i in fs.ino && lo <= hi <= |src| && off + lo <= fs.ino[i].size
    ensures Writing(fs, fs.Now(), fs.logged, i, off, src, lo, lo) && Steps(Offset(off + lo), 0, hi - lo, 0)
    ensures Offset(off + lo) != 0 ==> SlotAt(fs.Now(), i, BlockNo(off + lo)) != 0
    ensures fs.logged == {} && fs.peak == 0 ==> LogBound(|fs.logged|, fs.peak, 0, Offset(off + lo), fs.Touched(i))
  {
    hide SlotAt;
    var f, pos := fs.Now(), off + lo;
    assert Filled(f, i, BlocksOf(f.ino[i].size));
    assert BlocksOf(pos) <= BlocksOf(f.ino[i].size);
    assert Offset(pos) != 0 ==> BlockNo(pos) < BlocksOf(pos);
  }

  /** The iterations of one chunk leave room in the operation's share of the log for the inode. */
  lemma ChunkBound(o: nat, t: nat, n: nat, it: nat, cnt: nat, p: nat, touched: bool)
    requires t < n <= CHUNK && o < BSIZE && Steps(o, t, n, it) && LogBound(cnt, p, it + 1, o, touched)
    ensures cnt < MAXOPBLOCKS
  {
    if it > 0 {
      assert it * BSIZE == o + t < BSIZE + 3 * BSIZE;
      assert it <= 3;
    }
  }

  lemma EndWriting(f0: Fs, f1: Fs, i: nat, off: nat, src: seq<Byte>, lo: nat, d: nat)
    requires Inv(f1) && i in f1.ino && Touches(f0, f1, i) && Stored(f0, f1, i, off, src, lo, d) &&
             Filled(f1, i, BlocksOf(off + d))
    ensures off + d <= f1.ino[i].size ==> Written(f0, f1, i, off, src, lo, d)
    ensures off + d > f1.ino[i].size ==>
              var f' := f1.(ino := f1.ino[i := f1.ino[i].(size := off + d)]);
              Inv(f') && Written(f0, f', i, off, src, lo, d)
  {
    hide Inv, SlotAt, BlocksOf, BlockNo;
    if off + d > f1.ino[i].size {
      var f' := f1.(ino := f1.ino[i := f1.ino[i].(size := off + d)]);
      SizeKeepsInv(f1, i, off + d);
      UnseenStored(f0, f1, f', i, off, src, lo, d);
    }
  }

  /** writei()'s two tests, with 32-bit addition. */
  predicate BadRange(pos: nat, n: nat, size: nat) {
    pos > size || (pos + n) % 0x1_0000_0000 < pos || (pos + n) % 0x1_0000_0000 > MAXBYTES
  }

  lemma NoWrap(pos: nat, n: nat)
    requires pos < 0x1_0000_0000 && n < 0x1_0000_0000 && (pos + n) % 0x1_0000_0000 >= pos
    ensures (pos + n) % 0x1_0000_0000 == pos + n
  {
  }

  lemma SomeShare()
    ensures 0 < MAXOPBLOCKS
  {
  }

  lemma RangeIs(pos: nat, n: nat, size: nat)
    requires pos < 0x1_0000_0000 && n < 0x1_0000_0000
    ensures BadRange(pos, n, size) <==> pos > size || pos + n > MAXBYTES
  {
  }

  lemma WritingParts(fs: FileSystem, f0: Fs, l0: set<nat>, i: nat, off: nat, src: seq<Byte>, lo: nat, d: nat)
    requires Writing(fs, f0, l0, i, off, src, lo, d)
    ensures Inv(fs.Now()) && i in fs.ino && Touches(f0, fs.Now(), i)
    ensures Stored(f0, fs.Now(), i, off, src, lo, d) && Filled(fs.Now(), i, BlocksOf(off + d)) && fs.Valid()
    ensures Logs(f0, fs.Now(), fs.bmapstart, l0, fs.logged) && PutLogged(fs.Now(), i, off, lo, d, fs.logged)
  {
  }

  lemma TornChunk(off: nat, d: nat, hi: nat, avail: nat)
    requires d < hi && CutShort(off, d, hi, avail) && d < avail && off + hi <= MAXBYTES
    ensures Fits(off + d, avail - d) && avail < hi && BlockNo(off + d) < MAXFILE
  {
    InRange(off + d, off + hi);
  }

  lemma IsLeftover(f: Fs, f': Fs, i: nat, off: nat, src: seq<Byte>, lo: nat, hi: nat, x: Block)
    requires Inv(f) && i in f.ino && lo < hi && Fits(off + lo, hi - lo) && BlockNo(off + lo) < MAXFILE
    requires var b := SlotAt(f, i, BlockNo(off + lo)); b != 0 && b in f.blk && f' == f.(blk := f.blk[b := x])
    requires Stored(f, f', i, off, src, lo, hi)
    ensures Leftover(f, f', i, off, src, lo, hi)
  {
    hide Inv, SlotAt, BlockNo, Stored, Fits;
    DataKeepsInv(f, i, BlockNo(off + lo), x);
  }

  lemma LeftoverSlots(f: Fs, f': Fs, i: nat, off: nat, src: seq<Byte>, lo: nat, hi: nat)
    requires Leftover(f, f', i, off, src, lo, hi) && i in f.ino
    ensures f'.ino == f.ino && f'.bits == f.bits
    ensures SlotAt(f', i, BlockNo(off + lo)) == SlotAt(f, i, BlockNo(off + lo))
  {
    hide SlotAt, BlockNo;
  }

  lemma IsNow(fs: FileSystem)
    ensures fs.Now() == Fs(fs.first, fs.ino, fs.blk, fs.bits, fs.own) && (Inv(fs.Now()) <==> fs.Valid())
  {
  }

  lemma InodeLast(l: set<nat>, p: nat, l': set<nat>, p': nat)
    requires LogGrew(l, p, l', p', 1) && p' <= Max(p, |l|)
    ensures p <= |l| < MAXOPBLOCKS ==> |l'| <= MAXOPBLOCKS && p' < MAXOPBLOCKS
  {
  }
}
