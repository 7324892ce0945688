/** readi() of kernel/fs.c and filewrite() of kernel/file.c. */
module FileOps {
  import opened Params
  import opened Blocks
  import opened Inodes
  import opened FileSys

  /** The bytes `dst` are those of file `i` at position `pos`. */
  ghost predicate Loaded(f: Fs, i: nat, pos: nat, dst: seq<Byte>) {
    forall x :: 0 <= x < |dst| ==> dst[x] == ByteAt(f, i, pos + x)
  }

  /** How much of a read is inside the file. A read whose end does not fit in 32 bits gets nothing. */
  function Readable(size: nat, off: nat, n: nat): (m: nat)
    ensures m <= n && (m > 0 ==> off + m <= size)
    ensures off + n < 0x1_0000_0000 ==> m == n || off + m >= size
    ensures off + n >= 0x1_0000_0000 ==> m == 0
  {
    if off > size || off + n >= 0x1_0000_0000 then 0 else if off + n > size then size - off else n
  }

  function Slice(b: Block, o: nat, c: nat): (dst: seq<Byte>)
    requires o + c <= BSIZE
    ensures |dst| == c && forall x :: 0 <= x < c ==> dst[x] == b[o + x]
  {
    b[o..o + c]
  }

  /** One iteration of readi()'s loop; the block is there, so bmap() does not allocate. */
  method ReadChunk(fs: FileSystem, i: nat, pos: nat, c: nat) returns (dst: seq<Byte>)
    requires fs.Valid() && i in fs.ino && pos < fs.ino[i].size && 0 < c && Fits(pos, c)
    modifies fs`ino, fs`blk, fs`bits, fs`own, fs`logged, fs`peak
    ensures fs.Valid() && fs.Now() == old(fs.Now()) && fs.logged == old(fs.logged) && fs.peak == old(fs.peak)
    ensures |dst| == c && Loaded(fs.Now(), i, pos, dst)
  {
    BlockIsThere(fs, i, pos);
    hide *;
    var addr := fs.Bmap(i, BlockNo(pos));
    FitsAt(pos, c);
    ReadLoaded(fs, i, pos, c, addr);
    dst := Slice(fs.blk[addr], Offset(pos), c);
  }

  lemma BlockIsThere(fs: FileSystem, i: nat, pos: nat)
    requires fs.Valid() && i in fs.ino && pos < fs.ino[i].size
    ensures BlockNo(pos) < MAXFILE && SlotAt(fs.Now(), i, BlockNo(pos)) != 0
  {
    hide SlotAt;
    var f := fs.Now();
    assert Filled(f, i, BlocksOf(f.ino[i].size));
    assert BlockNo(pos) < BlocksOf(f.ino[i].size);
  }

  lemma ReadLoaded(fs: FileSystem, i: nat, pos: nat, c: nat, addr: nat)
    requires fs.Valid() && i in fs.ino && Fits(pos, c) && BlockNo(pos) < MAXFILE &&
             addr == SlotAt(fs.Now(), i, BlockNo(pos)) != 0
    ensures addr in fs.blk && Loaded(fs.Now(), i, pos, Slice(fs.blk[addr], Offset(pos), c))
  {
    var f := fs.Now();
    assert SlotOk(f, i, BlockNo(pos)) && BlockOk(f, addr);
    var dst := Slice(f.blk[addr], Offset(pos), c);
    forall x | 0 <= x < c ensures dst[x] == ByteAt(f, i, pos + x) {
      SameBlock(pos, pos + x, c);
    }
  }

  /** readi(): the bytes of the file that the range covers; -1 if the destination has no room for
      them (either_copyout() fails). Nothing is changed. */
  method Readi(fs: FileSystem, i: nat, off: nat, n: nat, room: nat) returns (tot: int, dst: seq<Byte>)
    requires fs.Valid() && i in fs.ino && off < 0x1_0000_0000 && n < 0x1_0000_0000
    modifies fs`ino, fs`blk, fs`bits, fs`own, fs`logged, fs`peak
    ensures fs.Valid() && fs.Now() == old(fs.Now()) && fs.logged == old(fs.logged)
    ensures Loaded(fs.Now(), i, off, dst)
    ensures var m := Readable(fs.ino[i].size, off, n);
            if room >= m then tot == m == |dst| else tot == -1
  {
    var m := n;
    if off > fs.ino[i].size || (off + n) % 0x1_0000_0000 < off {
      return 0, [];
    }
    if (off + n) % 0x1_0000_0000 > fs.ino[i].size {
      m := fs.ino[i].size - off;
    }
    NoWrap(off, n);
    assert m == Readable(fs.ino[i].size, off, n);
    hide *;
    tot, dst := ReadLoop(fs, i, off, m, room);
  }

  method ReadLoop(fs: FileSystem, i: nat, off: nat, m: nat, room: nat) returns (tot: int, dst: seq<Byte>)
    requires fs.Valid() && i in fs.ino && off + m <= fs.ino[i].size
    modifies fs`ino, fs`blk, fs`bits, fs`own, fs`logged, fs`peak
    ensures fs.Valid() && fs.Now() == old(fs.Now()) && fs.logged == old(fs.logged)
    ensures Loaded(fs.Now(), i, off, dst)
    ensures if room >= m then tot == m == |dst| else tot == -1
  {
    hide *;
    dst := [];
    ghost var f := fs.Now();
    NoneLoaded(f, i, off);
    while |dst| < m
      invariant fs.Valid() && fs.Now() == f && fs.logged == old(fs.logged)
      invariant |dst| <= m && |dst| <= room && Loaded(f, i, off, dst)
      decreases m - |dst|
    {
      var c := ChunkSize(off + |dst|, m - |dst|);
      var chunk := ReadChunk(fs, i, off + |dst|, c);
      if |dst| + c > room {
        return -1, dst;
      }
      LoadedMore(f, i, off, dst, chunk);
      dst := dst + chunk;
    }
    tot := m;
  }

  lemma NoneLoaded(f: Fs, i: nat, pos: nat)
    ensures Loaded(f, i, pos, [])
  {
  }

  lemma LoadedMore(f: Fs, i: nat, pos: nat, dst: seq<Byte>, chunk: seq<Byte>)
    requires Loaded(f, i, pos, dst) && Loaded(f, i, pos + |dst|, chunk)
    ensures Loaded(f, i, pos, dst + chunk) && |dst + chunk| == |dst| + |chunk|
  {
    hide ByteAt;
    forall x | 0 <= x < |dst + chunk| ensures (dst + chunk)[x] == ByteAt(f, i, pos + x) {
      assert x >= |dst| ==> chunk[x - |dst|] == ByteAt(f, i, pos + |dst| + (x - |dst|));
    }
  }

  /** A read after a write returns the bytes written, wherever the range lies. */
  method WriteThenRead(fs: FileSystem, i: nat, off: nat, src: seq<Byte>) returns (tot: int, dst: seq<Byte>)
    requires fs.Valid() && i in fs.ino && off < 0x1_0000_0000 && |src| < 0x1_0000_0000
    modifies fs
    ensures tot == -1 <==> off > old(fs.ino)[i].size || off + |src| > MAXBYTES
    ensures tot != -1 ==> 0 <= tot <= |src| && dst == src[..tot] &&
                          (tot < |src| ==> forall c :: 0 <= c < |fs.bits| ==> fs.bits[c])
  {
    hide *;
    ghost var f := fs.Now();
    var torn;
    ghost var kept;
    tot, torn, kept := fs.Writei(i, off, src, 0, |src|, |src|);
    dst := [];
    if tot != -1 {
      NotCut(off, tot, |src|);
      StoppedIs(fs, i, off, 0, tot, |src|, |src|, torn);
      ghost var f1 := fs.Now();
      WrittenParts(f, f1, i, off, src, 0, tot);
      ReadableAll(f1.ino[i].size, off, tot);
      var got;
      got, dst := Readi(fs, i, off, tot, tot);
      ReadBack(f, f1, i, off, src, tot, dst);
    }
  }

  lemma NotCut(off: nat, d: nat, end: nat)
    ensures !CutShort(off, d, end, end)
  {
  }

  lemma ReadableAll(size: nat, off: nat, n: nat)
    requires off + n <= size && off + n <= MAXBYTES
    ensures Readable(size, off, n) == n
  {
  }

  lemma WrittenParts(f: Fs, f': Fs, i: nat, off: nat, src: seq<Byte>, lo: nat, hi: nat)
    requires Written(f, f', i, off, src, lo, hi)
    ensures f'.ino.Keys == f.ino.Keys && i in f.ino && f'.ino[i].size == Max(f.ino[i].size, off + hi) >= off + hi
  {
  }

  lemma ReadBack(f: Fs, f1: Fs, i: nat, off: nat, src: seq<Byte>, tot: nat, dst: seq<Byte>)
    requires Written(f, f1, i, off, src, 0, tot) && Loaded(f1, i, off, dst) && |dst| == tot
    ensures tot <= |src| && dst == src[..tot]
  {
    forall x | 0 <= x < tot ensures dst[x] == src[x] {
      assert ByteAt(f1, i, off + x) == src[x];
    }
  }

  /** The size of a file after filewrite() of `w` bytes at `off`. */
  ghost function NewSize(size: nat, off: nat, w: nat): (s: nat) { if w == 0 then size else Max(size, off + w) }

  /** The part of filewrite() that has run, after `w` bytes: splice and size. The bytes up to `seen` are in
      the file, but those after `w` are not counted. */
  ghost predicate Appended(f: Fs, f': Fs, i: nat, off: nat, src: seq<Byte>, w: nat, seen: nat) {
    && f'.ino.Keys == f.ino.Keys && i in f.ino && w <= seen
    && (forall j :: j in f.ino && j != i ==> f'.ino[j] == f.ino[j])
    && f'.ino[i] == f.ino[i].(size := NewSize(f.ino[i].size, off, w), addrs := f'.ino[i].addrs)
    && Stored(f, f', i, off, src, 0, seen)
  }

  /** begin_op(): the operation has logged nothing yet. */
  ghost method BeginOp(fs: FileSystem)
    requires fs.Valid()
    modifies fs`logged, fs`peak
    ensures fs.logged == {} && fs.peak == 0 && fs.Valid() && fs.Now() == old(fs.Now())
    ensures fs.Synced() == old(fs.Synced())
  {
    fs.logged, fs.peak := {}, 0;
  }

  /** One operation: what it started from and what it left, as the buffer cache has it; the blocks that it
      logged; and those that it changed without logging them. */
  datatype Op = Op(before: Fs, after: Fs, logged: set<nat>, peak: nat, stray: set<nat>)

  ghost predicate HoldsInode(f: Fs, inodestart: nat,
                             n: nat) { exists j :: j in f.ino && n == InodeBlock(inodestart, j) }

  predicate SmallFields(ip: Inode) { ip.typ < 0x1_0000 && ip.nlink < 0x1_0000 && ip.size < 0x1_0000_0000 }

  /** Not an indirect block. */
  ghost predicate DataBlock(f: Fs, b: nat) { b in f.own ==> f.own[b].k != INDIRECT }

  /** Any operation on the file system: it logged every block that it changed, but for the contents of some
      data blocks, and only blocks of the file system. */
  ghost predicate Sound(x: Op, bmapstart: nat, inodestart: nat) {
    && Inv(x.before) && Inv(x.after) && x.after.ino.Keys == x.before.ino.Keys
    && Covered(x.before, x.after, bmapstart, x.logged, x.stray)
    && (forall n :: n in x.logged ==> Home(x.before, bmapstart, n) || HoldsInode(x.before, inodestart, n))
    && (forall j :: j in x.before.ino ==> InodeLogged(x, inodestart, j))
    && (forall b :: b in x.stray ==> DataBlock(x.after, b))
  }

  ghost predicate InodeLogged(x: Op, inodestart: nat, j: nat) {
    && j in x.before.ino && j in x.after.ino && (SmallFields(x.before.ino[j]) ==> SmallFields(x.after.ino[j]))
    && (x.after.ino[j] != x.before.ino[j] ==> InodeBlock(inodestart, j) in x.logged)
  }

  /** ... and stayed within its share of the log whenever it called log_write(). */
  ghost predicate OpOk(x: Op, bmapstart: nat, inodestart: nat) {
    Sound(x, bmapstart, inodestart) && |x.logged| <= MAXOPBLOCKS && x.peak < MAXOPBLOCKS
  }

  /** Operation `k` of filewrite() started with a prefix of `k` whole chunks in the file, and ended with
      `w` bytes. It logged the blocks of the bytes in between. */
  ghost predicate ChunkOp(x: Op, f: Fs, i: nat, off: nat, src: seq<Byte>, k: nat, w: nat, seen: nat) {
    && k * CHUNK <= w && Appended(f, x.before, i, off, src, k * CHUNK, k * CHUNK)
    && Appended(f, x.after, i, off, src, w, seen) && PutLogged(x.after, i, off, k * CHUNK, w, x.logged)
  }

  /** filewrite() to an inode at file offset `off`, when no other process writes to it. The bytes written
      are a prefix of `src`, all of it exactly when the call succeeds; the file offset moves by that
      much. Each operation but the last writes a whole chunk, and none outgrows its share of the log. If the
      call is `torn` then the file has more bytes of `src`, all that there are. */
  method Filewrite(fs: FileSystem, i: nat, off: nat, src: seq<Byte>, avail: nat)
    returns (ret: int, off': nat, torn: bool, ghost ops: seq<Op>)
    requires fs.Valid() && i in fs.ino && off <= MAXBYTES
    modifies fs
    ensures fs.Valid() && (old(fs.Synced()) ==> fs.Synced()) && off <= off' <= off + |src|
    ensures Appended(old(fs.Now()), fs.Now(), i, off, src, off' - off, if torn then avail else off' - off)
    ensures ret == if off' == off + |src| then |src| else -1
    ensures ret == -1 ==> i in fs.ino && Hindered(fs.ino[i].size, fs.bits, off, off' - off, |src|, avail)
    ensures torn ==> ret == -1 && off' - off < avail < |src|
    ensures forall k :: 0 <= k < |ops| ==> OpOk(ops[k], fs.bmapstart, fs.inodestart)
    ensures forall k :: 0 <= k < |ops| ==>
              ChunkOp(ops[k], old(fs.Now()), i, off, src, k, Reached(k, |ops|, off' - off),
                      if torn && k + 1 == |ops| then avail else Reached(k, |ops|, off' - off))
    ensures |ops| > 0 ==> ops[0].before == old(fs.Now()) && ops[|ops| - 1].after == fs.Now()
    ensures forall k :: 0 < k < |ops| ==> ops[k].before == ops[k - 1].after
  {
    hide *;
    ghost var f := fs.Now();
    NothingAppended(f, i, off, src);
    ops, torn := [], false;
    var done, more := 0, true;
    while more && done < |src|
      invariant 0 <= done <= |src| && fs.Valid() && i in fs.ino && off + done <= MAXBYTES
      invariant old(fs.Synced()) ==> fs.Synced()
      invariant Appended(f, fs.Now(), i, off, src, done, if torn then avail else done)
      invariant !more ==> done < |src| && Hindered(fs.ino[i].size, fs.bits, off, done, |src|, avail)
      invariant torn ==> !more && done < avail < |src|
      invariant more && done < |src| ==> done == |ops| * CHUNK
      invariant forall k :: 0 <= k < |ops| ==> OpOk(ops[k], fs.bmapstart, fs.inodestart)
      invariant forall k :: 0 <= k < |ops| ==>
                              ChunkOp(ops[k], f, i, off, src, k, Reached(k, |ops|, done),
                                      if torn && k + 1 == |ops| then avail else Reached(k, |ops|, done))
      invariant (if |ops| > 0 then ops[|ops| - 1].after else f) == fs.Now() && (|ops| > 0 ==> ops[0].before == f)
      invariant forall k :: 0 < k < |ops| ==> ops[k].before == ops[k - 1].after
      decreases more, |src| - done
    {
      ghost var d, x := done, Op(fs.Now(), fs.Now(), {}, 0, {});
      more, done, torn, x := WriteOp(fs, i, off, src, done, avail, f);
      NextOp(x, f, i, off, src, |ops|, d, done, if torn then avail else done);
      NextMultiple(|ops|, d, done, |src|, more);
      ReachedMore(|ops|, d, done);
      ops := ops + [x];
    }
    off' := off + done;
    ret := if done == |src| then |src| else -1;
  }

  /** How many bytes are in the file after operation `k` of `n`, if there are `w` in the end. */
  function Reached(k: nat, n: nat, w: nat): (d: nat) { if k + 1 < n then (k + 1) * CHUNK else w }

  lemma ReachedMore(n: nat, d: nat, w: nat)
    requires d == n * CHUNK
    ensures forall k: nat :: k < n ==> Reached(k, n + 1, w) == Reached(k, n, d)
    ensures Reached(n, n + 1, w) == w
  {
  }

  lemma NextOp(x: Op, f: Fs, i: nat, off: nat, src: seq<Byte>, k: nat, d: nat, w: nat, seen: nat)
    requires Appended(f, x.before, i, off, src, d, d) && Appended(f, x.after, i, off, src, w, seen) && d == k * CHUNK
    requires d <= w && PutLogged(x.after, i, off, d, w, x.logged)
    ensures ChunkOp(x, f, i, off, src, k, w, seen)
  {
  }

  lemma NextMultiple(k: nat, d: nat, w: nat, n: nat, more: bool)
    requires d == k * CHUNK && (more ==> w == d + NextChunk(n - d)) && d <= n
    ensures more && w < n ==> w == (k + 1) * CHUNK
  {
  }

  /** One iteration of filewrite()'s loop: an operation of its own. */
  method WriteOp(fs: FileSystem, i: nat, off: nat, src: seq<Byte>, done: nat, avail: nat, ghost f: Fs)
    returns (more: bool, done': nat, torn: bool, ghost x: Op)
    requires fs.Valid() && i in fs.ino && done < |src| && off + done <= MAXBYTES &&
             Appended(f, fs.Now(), i, off, src, done, done)
    modifies fs
    ensures old(fs.Synced()) ==> fs.Synced()
    ensures fs.Valid() && i in fs.ino && done <= done' <= |src| && off + done' <= MAXBYTES &&
            Appended(f, fs.Now(), i, off, src, done', if torn then avail else done')
    ensures more ==> done < done' == done + NextChunk(|src| - done)
    ensures !more ==> done' < |src| && Hindered(fs.ino[i].size, fs.bits, off, done', |src|, avail)
    ensures torn ==> !more && done' < avail < |src|
    ensures OpOk(x, fs.bmapstart, fs.inodestart) && x.before == old(fs.Now()) && x.after == fs.Now()
    ensures PutLogged(x.after, i, off, done, done', x.logged)
  {
    hide *;
    SmallEnough(off + done);
    var n1: nat := NextChunk(|src| - done);
    BeginOp(fs);
    ghost var f1 := fs.Now();
    var r;
    ghost var kept;
    r, torn, kept := fs.Writei(i, off, src, done, done + n1, avail);
    done' := done;
    if r > 0 {
      done' := done + r;
    }
    more := r == n1;
    if r != -1 {
      WrittenParts(f1, kept, i, off, src, done, done + r);
      AppendedMore(f, f1, kept, i, off, src, done, done + r);
      x := WrittenOp(fs, f1, kept, i, off, src, done, done + r, torn, avail);
      if torn {
        LeftoverSlots(kept, fs.Now(), i, off, src, done + r, avail);
        AppendedTorn(f, kept, fs.Now(), i, off, src, done + r, avail);
      }
    } else {
      x := Op(f1, f1, {}, 0, {});
      NoOp(fs, f1, x);
      PutNone(f1, i, off, done);
    }
    if !more {
      StoppedIs(fs, i, off, done, done', done + n1, avail, torn);
      NotMore(fs.ino[i].size, fs.bits, off, done, done', n1, |src|, avail);
    }
    if torn {
      CutBefore(off, done', done + n1, avail);
    }
  }

  lemma CutBefore(off: nat, d: nat, end: nat, avail: nat)
    requires CutShort(off, d, end, avail)
    ensures avail < end
  {
  }

  lemma NoOp(fs: FileSystem, f: Fs, x: Op)
    requires fs.Valid() && fs.Now() == f && x == Op(f, f, {}, 0, {})
    ensures OpOk(x, fs.bmapstart, fs.inodestart)
  {
  }

  lemma PutNone(f: Fs, i: nat, off: nat, d: nat)
    ensures PutLogged(f, i, off, d, d, {})
  {
  }

  /** The operation around a writei() that left `kept`, and what it has spilt if it is `torn`. */
  lemma WrittenOp(fs: FileSystem, f: Fs, kept: Fs, i: nat, off: nat, src: seq<Byte>, lo: nat, hi: nat, torn: bool,
                  avail: nat)
    returns (x: Op)
    requires fs.Valid() && Inv(f) && Written(f, kept, i, off, src, lo, hi) && off + hi <= MAXBYTES
    requires if torn then Leftover(kept, fs.Now(), i, off, src, hi, avail) else fs.Now() == kept
    requires |fs.logged| <= MAXOPBLOCKS && fs.peak < MAXOPBLOCKS && InodeBlock(fs.inodestart, i) in fs.logged
    requires Covered(f, kept, fs.bmapstart, fs.logged, {}) && OnlyHome(f, fs.bmapstart, fs.inodestart, i, {}, fs.logged)
    requires PutLogged(kept, i, off, lo, hi, fs.logged)
    ensures OpOk(x, fs.bmapstart, fs.inodestart) && x.before == f && x.after == fs.Now() && x.logged == fs.logged
    ensures PutLogged(x.after, i, off, lo, hi, x.logged)
  {
    var b := SlotAt(kept, i, BlockNo(off + hi));
    x := Op(f, fs.Now(), fs.logged, fs.peak, if torn then {b} else {});
    assert Inv(fs.Now());
    hide *;
    WrittenInodes(x, kept, i, off, src, lo, hi, fs.inodestart, torn, avail);
    OnlyHomeIs(x, i, fs.bmapstart, fs.inodestart);
    if torn {
      LeftoverCovered(f, kept, fs.Now(), i, off, src, hi, avail, fs.bmapstart, fs.logged, b);
      LeftoverPut(kept, fs.Now(), i, off, src, lo, hi, avail, fs.logged);
    }
    IsOpOk(x, fs.bmapstart, fs.inodestart);
  }

  lemma WrittenInodes(x: Op, kept: Fs, i: nat, off: nat, src: seq<Byte>, lo: nat, hi: nat, inodestart: nat, torn: bool,
                      avail: nat)
    requires Written(x.before, kept, i, off, src, lo, hi) && off + hi <= MAXBYTES &&
             InodeBlock(inodestart, i) in x.logged
    requires if torn then Leftover(kept, x.after, i, off, src, hi, avail) else x.after == kept
    ensures x.after.ino.Keys == kept.ino.Keys == x.before.ino.Keys && i in x.before.ino
    ensures forall j :: j in x.before.ino ==> InodeLogged(x, inodestart, j)
  {
    hide Stored, InodeBlock, SlotAt, BlockNo, Fits;
    assert MAXBYTES < 0x1_0000_0000;
  }

  lemma OnlyHomeIs(x: Op, i: nat, bmapstart: nat, inodestart: nat)
    requires OnlyHome(x.before, bmapstart, inodestart, i, {}, x.logged) && i in x.before.ino
    ensures forall n :: n in x.logged ==> Home(x.before, bmapstart, n) || HoldsInode(x.before, inodestart, n)
  {
    hide Home, InodeBlock;
  }

  lemma LeftoverCovered(f: Fs, kept: Fs, f': Fs, i: nat, off: nat, src: seq<Byte>, lo: nat, hi: nat, bmapstart: nat,
                        l: set<nat>, b: nat)
    requires Covered(f, kept, bmapstart, l, {}) && Leftover(kept, f', i, off, src, lo, hi) && i in kept.ino && Inv(f')
    requires b == SlotAt(kept, i, BlockNo(off + lo))
    ensures Covered(f, f', bmapstart, l, {b}) && DataBlock(f', b)
  {
    hide Stored, BitBlock, Fits, Slot, BlockNo;
    assert SlotOk(f', i, BlockNo(off + lo));
  }

  lemma LeftoverPut(kept: Fs, f': Fs, i: nat, off: nat, src: seq<Byte>, lo: nat, hi: nat, avail: nat, l: set<nat>)
    requires PutLogged(kept, i, off, lo, hi, l) && Leftover(kept, f', i, off, src, hi, avail) && i in kept.ino
    ensures PutLogged(f', i, off, lo, hi, l)
  {
    hide SlotAt, BlockNo, Fits, Stored;
    forall pos: nat | off + lo <= pos < off + hi ensures SlotLogged(f', i, pos, l) {
      assert SlotLogged(kept, i, pos, l);
    }
  }

  /** Whatever records what it changes is an operation. */
  lemma RecordedIsSound(x: Op, i: nat, bmapstart: nat, inodestart: nat)
    requires Inv(x.before) && Inv(x.after) && i in x.before.ino && x.stray == {}
    requires Recorded(x.before, x.after, bmapstart, inodestart, i, {}, x.logged)
    requires forall j :: j in x.before.ino && j in x.after.ino && SmallFields(x.before.ino[j]) ==>
                           SmallFields(x.after.ino[j])
    ensures Sound(x, bmapstart, inodestart)
  {
    hide Inv, Covered, Home, InodeBlock;
  }

  lemma IsOpOk(x: Op, bmapstart: nat, inodestart: nat)
    requires Inv(x.before) && Inv(x.after) && x.after.ino.Keys == x.before.ino.Keys
    requires Covered(x.before, x.after, bmapstart, x.logged, x.stray)
    requires forall n :: n in x.logged ==> Home(x.before, bmapstart, n) || HoldsInode(x.before, inodestart, n)
    requires forall j :: j in x.before.ino ==> InodeLogged(x, inodestart, j)
    requires forall b :: b in x.stray ==> DataBlock(x.after, b)
    requires |x.logged| <= MAXOPBLOCKS && x.peak < MAXOPBLOCKS
    ensures OpOk(x, bmapstart, inodestart)
  {
  }

  lemma AppendedTorn(f: Fs, kept: Fs, f': Fs, i: nat, off: nat, src: seq<Byte>, w: nat, seen: nat)
    requires Appended(f, kept, i, off, src, w, w) && Leftover(kept, f', i, off, src, w, seen)
    ensures Appended(f, f', i, off, src, w, seen)
  {
    hide ByteAt, SlotAt, BlockNo, Fits;
    StoredMore(f, kept, f', i, off, src, 0, w, seen);
  }

  // ---- With other processes ----------------------------------------------------------------------

  /** What other processes have made of the file system and of the shared file offset, before an
      operation of filewrite() starts. */
  datatype Turn = Turn(f: Fs, off: nat)

  ghost predicate TurnOk(t: Turn, first: nat, i: nat) {
    Inv(t.f) && t.f.first == first && i in t.f.ino && t.off < 0x1_0000_0000
  }

  /** An operation that wrote src[lo..hi] at position `pos`, in one piece: it is all that the operation
      changed. */
  ghost predicate Spliced(f: Fs, f': Fs, i: nat, pos: nat, src: seq<Byte>, lo: nat, hi: nat) {
    lo <= hi <= |src| && if lo < hi then Written(f, f', i, pos, src[lo..], 0, hi - lo) else Unseen(f, f')
  }

  /** A piece of `src`, the operation that wrote it, and the file system that it logged. */
  datatype Piece = Piece(op: Op, kept: Fs, lo: nat, hi: nat, seen: nat)

  /** ... but for what a torn one leaves in a block behind the piece. */
  ghost predicate PieceOk(x: Piece, t: Turn, i: nat, src: seq<Byte>, bmapstart: nat, inodestart: nat) {
    && x.op.before == t.f && OpOk(x.op, bmapstart, inodestart) && Spliced(t.f, x.kept, i, t.off, src, x.lo, x.hi)
    && x.hi <= x.seen <= |src|
    && if x.hi < x.seen then Leftover(x.kept, x.op.after, i, t.off, src[x.lo..], x.hi - x.lo, x.seen - x.lo)
       else x.op.after == x.kept
  }

  /** The pieces follow each other, up to `done`. */
  ghost predicate Following(xs: seq<Piece>, done: nat) {
    (forall k: nat :: k < |xs| ==> xs[k].lo == EndOf(xs, k)) && done == EndOf(xs, |xs|)
  }

  /** Where the first `k` pieces end. */
  ghost function EndOf(xs: seq<Piece>, k: nat): (e: nat)
    requires k <= |xs|
  {
    if k == 0 then 0 else xs[k - 1].hi
  }

  ghost predicate AllPieces(xs: seq<Piece>, turns: seq<Turn>, i: nat, src: seq<Byte>, bmapstart: nat, inodestart: nat) {
    |xs| <= |turns| && forall k :: 0 <= k < |xs| ==> PieceOk(xs[k], turns[k], i, src, bmapstart, inodestart)
  }

  lemma PieceMore(xs: seq<Piece>, x: Piece, turns: seq<Turn>, i: nat, src: seq<Byte>, bmapstart: nat, inodestart: nat,
                  done: nat)
    requires AllPieces(xs, turns, i, src, bmapstart, inodestart) && Following(xs, done)
    requires |xs| < |turns| && PieceOk(x, turns[|xs|], i, src, bmapstart, inodestart) && x.lo == done
    ensures AllPieces(xs + [x], turns, i, src, bmapstart, inodestart) && Following(xs + [x], x.hi)
  {
    hide PieceOk;
    var ys := xs + [x];
    assert forall k :: 0 <= k < |xs| ==> ys[k] == xs[k];
    forall k: nat | k < |ys| ensures ys[k].lo == EndOf(ys, k) {
      assert EndOf(ys, k) == EndOf(xs, k);
    }
  }

  lemma NoPieces(turns: seq<Turn>, i: nat, src: seq<Byte>, bmapstart: nat, inodestart: nat)
    ensures AllPieces([], turns, i, src, bmapstart, inodestart) && Following([], 0)
  {
  }

  /** filewrite() while other processes go on between its operations: `turns` is what they do. Each
      operation writes the next piece of `src` where the file offset then is, and nothing else; the
      pieces follow each other, and are all of `src` exactly when the call succeeds. */
  method FilewriteShared(fs: FileSystem, i: nat, src: seq<Byte>, avail: nat, turns: seq<Turn>)
    returns (ret: int, ghost done: nat, ghost xs: seq<Piece>)
    requires fs.Valid() && |turns| > |src| && forall k :: 0 <= k < |turns| ==> TurnOk(turns[k], fs.first, i)
    modifies fs
    ensures fs.Valid() && AllPieces(xs, turns, i, src, fs.bmapstart, fs.inodestart) && Following(xs, done)
    ensures done <= |src| && ret == if done == |src| then |src| else -1
  {
    hide *;
    xs := [];
    NoPieces(turns, i, src, fs.bmapstart, fs.inodestart);
    var d, more, turn := 0, true, 0;
    while more && d < |src|
      invariant 0 <= d <= |src| && fs.Valid() && turn == |xs| && (more ==> turn <= d) && (!more ==> d < |src|)
      invariant AllPieces(xs, turns, i, src, fs.bmapstart, fs.inodestart) && Following(xs, d)
      decreases more, |src| - d
    {
      ghost var x, lo := Piece(Op(fs.Now(), fs.Now(), {}, 0, {}), fs.Now(), d, d, d), d;
      assert TurnOk(turns[turn], fs.first, i);
      more, d, x := SharedOp(fs, i, src, d, avail, turns[turn]);
      PieceMore(xs, x, turns, i, src, fs.bmapstart, fs.inodestart, lo);
      xs, turn := xs + [x], turn + 1;
    }
    done := d;
    ret := if d == |src| then |src| else -1;
  }

  method SharedOp(fs: FileSystem, i: nat, src: seq<Byte>, done: nat, avail: nat, t: Turn)
    returns (more: bool, done': nat, ghost x: Piece)
    requires TurnOk(t, fs.first, i) && done < |src|
    modifies fs
    ensures fs.Valid() && fs.Synced() && x.op.after == fs.Now() && PieceOk(x, t, i, src, fs.bmapstart, fs.inodestart)
    ensures done <= done' <= |src| && (more ==> done < done') && (!more ==> done' < |src|)
    ensures x.lo == done && x.hi == done'
  {
    hide *;
    TurnParts(t, fs.first, i);
    fs.ino, fs.dino, fs.blk, fs.bits, fs.own := t.f.ino, t.f.ino, t.f.blk, t.f.bits, t.f.own;
    IsSynced(fs);
    SameFs(fs, t.f);
    SmallEnough(0);
    var n1: nat := NextChunk(|src| - done);
    BeginOp(fs);
    var rest := src[done..];
    var r, torn;
    ghost var kept, left: nat := t.f, if avail > done then avail - done else 0;
    r, torn, kept := fs.Writei(i, t.off, rest, 0, n1, if avail > done then avail - done else 0);
    done' := if r > 0 then done + r else done;
    more := r == n1;
    ghost var op := Op(t.f, t.f, {}, 0, {});
    if r != -1 {
      op := WrittenOp(fs, t.f, kept, i, t.off, rest, 0, r, torn, left);
      IsSpliced(t.f, kept, i, t.off, src, done, r);
    } else {
      NoOp(fs, t.f, op);
      NotSpliced(t.f, i, t.off, src, done);
    }
    x := Piece(op, kept, done, done', if torn then done + left else done');
    IsPiece(x, t, i, src, fs.bmapstart, fs.inodestart, torn, left);
  }

  lemma IsPiece(x: Piece, t: Turn, i: nat, src: seq<Byte>, bmapstart: nat, inodestart: nat, torn: bool, left: nat)
    requires x.op.before == t.f && OpOk(x.op, bmapstart, inodestart) && Spliced(t.f, x.kept, i, t.off, src, x.lo, x.hi)
    requires if torn then Leftover(x.kept, x.op.after, i, t.off, src[x.lo..], x.hi - x.lo, left) &&
                          x.seen == x.lo + left
             else x.op.after == x.kept && x.seen == x.hi
    ensures PieceOk(x, t, i, src, bmapstart, inodestart)
  {
    hide OpOk, Written, SlotAt, BlockNo, Fits, ByteAt;
  }

  lemma TurnParts(t: Turn, first: nat, i: nat)
    requires TurnOk(t, first, i)
    ensures Inv(t.f) && t.f.first == first && i in t.f.ino && t.off < 0x1_0000_0000
  {
  }

  lemma IsSpliced(f: Fs, f': Fs, i: nat, pos: nat, src: seq<Byte>, lo: nat, r: nat)
    requires lo + r <= |src| && Written(f, f', i, pos, src[lo..], 0, r)
    ensures Spliced(f, f', i, pos, src, lo, lo + r)
  {
    assert r == 0 ==> Unseen(f, f');
  }

  lemma NotSpliced(f: Fs, i: nat, pos: nat, src: seq<Byte>, lo: nat)
    requires lo <= |src|
    ensures Spliced(f, f, i, pos, src, lo, lo)
  {
  }

  /** Why filewrite() stops before the end: the offset is beyond the end of the file, the file would
      get too large, the user's memory ends, or the disk is full. */
  ghost predicate Hindered(size: nat, bits: seq<bool>, off: nat, done: nat, n: nat, avail: nat) {
    off + done > size || off + n > MAXBYTES || avail < n || forall c :: 0 <= c < |bits| ==> bits[c]
  }

  lemma NotMore(size: nat, bits: seq<bool>, off: nat, done: nat, done': nat, n1: nat, n: nat, avail: nat)
    requires done <= done' <= done + n1 <= n
    requires off + done' > size || off + (done + n1) > MAXBYTES || CutShort(off, done', done + n1, avail) ||
             forall c :: 0 <= c < |bits| ==> bits[c]
    ensures Hindered(size, bits, off, done', n, avail)
  {
  }

  lemma NothingAppended(f: Fs, i: nat, off: nat, src: seq<Byte>)
    requires i in f.ino
    ensures Appended(f, f, i, off, src, 0, 0)
  {
  }

  function NextChunk(n: int): (n1: int)
    ensures n > 0 ==> 0 < n1 <= n && n1 <= CHUNK
  {
    if n > CHUNK then CHUNK else n
  }

  lemma SmallEnough(pos: nat)
    requires pos <= MAXBYTES
    ensures pos < 0x1_0000_0000 && 0 < CHUNK < 0x1_0000_0000
  {
  }

  lemma AppendedMore(f: Fs, f1: Fs, f2: Fs, i: nat, off: nat, src: seq<Byte>, w: nat, w': nat)
    requires Appended(f, f1, i, off, src, w, w) && Written(f1, f2, i, off, src, w, w') && w <= w' &&
             off + w <= f1.ino[i].size
    ensures Appended(f, f2, i, off, src, w', w')
  {
    hide ByteAt;
    StoredMore(f, f1, f2, i, off, src, 0, w, w');
  }
}
