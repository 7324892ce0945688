/** A crash in the middle of filewrite(): the file system on the disk, the log and the recovery put
    together, with any operations of other processes in the same transaction. */
module FsCrash {
  import opened Params
  import opened Blocks
  import opened Inodes
  import opened FileSys
  import opened FileOps
  import opened FsDisk
  import Truncate
  import LogDisk
  import LogCrash
  import LogHeader

  // ---- One transaction -----------------------------------------------------------------------------

  /** commit() of blocks `bl` with contents `data` crashes after `k` of its block writes, and then any number
      of recoveries crash, leaving the disks `cs`. `prior` is what was in the header's buffer. */
  datatype Crash = Crash(prior: Block, bl: seq<nat>, data: seq<Block>, k: nat, cs: seq<map<nat, Block>>)

  /** The blocks and contents are what commit() writes for the transaction: its logged blocks, as they are
      in the buffers. */
  ghost predicate Commits(z: Crash, x: Op, y: Layout, disk: map<nat, Block>) {
    && AllStorable(x.after) && |x.logged| <= LOGBLOCKS
    && LogCrash.Distinct(z.bl) && (forall n :: n in z.bl <==> n in x.logged) && |z.data| == |z.bl|
    && forall j :: 0 <= j < |z.bl| ==> z.bl[j] in disk && z.data[j] == NewBlock(disk[z.bl[j]], z.bl[j], x.after, y)
  }

  /** ... and it happened on `disk`, whose log was empty. */
  ghost predicate Happened(z: Crash, disk: map<nat, Block>, start: nat) {
    && LogDisk.Formatted(disk, start) && LogHeader.HeadBlocks(disk[start]) == [] && LogHeader.Storable(z.bl) &&
       |z.bl| == |z.data|
    && var ws := LogDisk.CommitWrites(start, z.prior, z.bl, z.data);
       && z.k <= |ws| && |z.cs| > 0 && LogDisk.DiskImage(disk, start, ws, z.k, z.cs[0])
       && LogDisk.CrashedRecoveries(start, z.cs)
  }

  /** A recovery that completes leaves the file system `f`. */
  ghost predicate RecoversTo(z: Crash, f: Fs, y: Layout) {
    && |z.cs| > 0 && LogDisk.Recoverable(z.cs[|z.cs| - 1], y.start)
    && var ws := LogDisk.RecoverWrites(z.cs[|z.cs| - 1], y.start);
       Represents(LogDisk.WrittenTo(z.cs[|z.cs| - 1], ws, |ws|), f, y)
  }

  /** The header had been written when the crash came. */
  ghost predicate Committed(z: Crash) { z.k > |z.bl| }

  /** What a transaction leaves of the file system that was on the disk. */
  ghost function Outcome(f0: Fs, x: Op, z: Crash): (f: Fs) { if Committed(z) then Kept(f0, x) else f0 }

  /** Only blocks outside the log matter. */
  lemma SameOutsideLog(c: map<nat, Block>, r: map<nat, Block>, f: Fs, y: Layout)
    requires Represents(c, f, y) && Placed(f, y) && r.Keys == c.Keys
    requires forall n :: n in c && !LogDisk.InLog(y.start, n) ==> r[n] == c[n]
    ensures Represents(r, f, y)
  {
    hide FsImage.InodeAt, FsImage.BitAt, BitPos, BitBlock, InodeBlock, Super;
    forall i | i in f.ino ensures InodeStored(r, f, y, i) {
      assert InodeStored(c, f, y, i);
      InodeBlockAt(y.inodestart, i);
    }
    forall b: nat | b < |f.bits| ensures BitStored(r, f, y, b) {
      assert BitStored(c, f, y, b);
      BitBlockAt(y.bmapstart, b);
    }
  }

  /** The blocks of a transaction are on the disk, outside the log. */
  lemma LoggedPlaced(x: Op, f0: Fs, s: set<nat>, y: Layout, n: nat)
    requires Sound(x, y.bmapstart, y.inodestart) && Placed(f0, y) && SameBut(f0, x.before, s) && n in x.logged
    ensures n < |f0.bits| <= 0x1_0000_0000 && !LogDisk.InLog(y.start, n)
  {
    assert Home(x.before, y.bmapstart, n) || HoldsInode(x.before, y.inodestart, n);
    hide Covered, InodeBlock, BitBlock, InodeLogged, DataBlock;
    if HoldsInode(x.before, y.inodestart, n) {
      var j :| j in x.before.ino && n == InodeBlock(y.inodestart, j);
      InodeBlockAt(y.inodestart, j);
    } else if !(x.before.first <= n < |x.before.bits|) {
      BitBlockOf(y.bmapstart, n);
      assert BitBlock(y.bmapstart, FirstBit(y.bmapstart, n)) < x.before.first;
    }
  }

  lemma BitBlockOf(bmapstart: nat, n: nat)
    requires bmapstart <= n
    ensures BitBlock(bmapstart, FirstBit(bmapstart, n)) == n
  {
  }

  lemma {:induction false} AsMany(bl: seq<nat>, l: set<nat>)
    requires LogCrash.Distinct(bl) && forall n :: n in bl <==> n in l
    ensures |bl| == |l|
    decreases |bl|
  {
    if bl != [] {
      var k := |bl| - 1;
      assert bl == bl[..k] + [bl[k]];
      AsMany(bl[..k], l - {bl[k]});
    }
  }

  lemma CommitsLaid(z: Crash, x: Op, f0: Fs, s: set<nat>, y: Layout, disk: map<nat, Block>)
    requires Sound(x, y.bmapstart, y.inodestart) && SameBut(f0, x.before, s) && Placed(f0, y) && Represents(disk, f0, y)
    requires Commits(z, x, y, disk)
    ensures LogDisk.Laid(disk.Keys, y.start, z.bl)
  {
    AsMany(z.bl, x.logged);
    hide Sound, Placed, SameBut;
    forall n | n in z.bl ensures n in disk && !LogDisk.InLog(y.start, n) && n < 0x1_0000_0000 {
      LoggedPlaced(x, f0, s, y, n);
    }
  }

  /** A crash at any point of the commit of a transaction, any number of crashed recoveries and one that
      completes leave the file system that was on the disk, or the one that the transaction made of it. */
  lemma TransactionIsAtomic(x: Op, f0: Fs, s: set<nat>, y: Layout, disk: map<nat, Block>, z: Crash)
    requires Sound(x, y.bmapstart, y.inodestart) && SameBut(f0, x.before, s) && Placed(f0, y) && Represents(disk, f0, y)
    requires Commits(z, x, y, disk) && Happened(z, disk, y.start)
    ensures RecoversTo(z, Outcome(f0, x, z), y)
  {
    hide *;
    var r := Recovered(x, f0, s, y, disk, z);
    OpRepresents(x, f0, s, y, disk);
    if z.k <= |z.bl| {
      OldOutside(disk, r, z.bl, y);
      SameOutsideLog(disk, r, f0, y);
    } else {
      NewOutside(disk, r, z, x, y);
      SameOutsideLog(NewBlocks(disk, x.after, y, x.logged), r, Kept(f0, x), y);
    }
    IsOutcome(f0, x, z, y);
  }

  lemma Recovered(x: Op, f0: Fs, s: set<nat>, y: Layout, disk: map<nat, Block>, z: Crash) returns (r: map<nat, Block>)
    requires Sound(x, y.bmapstart, y.inodestart) && SameBut(f0, x.before, s) && Placed(f0, y) && Represents(disk, f0, y)
    requires Commits(z, x, y, disk) && Happened(z, disk, y.start)
    ensures |z.cs| > 0 && LogDisk.Recoverable(z.cs[|z.cs| - 1], y.start)
    ensures var ws := LogDisk.RecoverWrites(z.cs[|z.cs| - 1], y.start);
            r == LogDisk.WrittenTo(z.cs[|z.cs| - 1], ws, |ws|)
    ensures r.Keys == disk.Keys && (forall n :: n in z.bl ==> n in disk) && |z.bl| == |z.data|
    ensures forall i :: 0 <= i < |z.bl| ==> r[z.bl[i]] == if z.k <= |z.bl| then disk[z.bl[i]] else z.data[i]
    ensures forall n :: n in disk && !LogDisk.InLog(y.start, n) && n !in z.bl ==> r[n] == disk[n]
  {
    CommitsLaid(z, x, f0, s, y, disk);
    LaidThere(disk.Keys, y.start, z.bl);
    HappenedIs(z, disk, y.start);
    hide *;
    LogDisk.CommitSurvivesCrashes(disk, y.start, z.prior, z.bl, z.data, z.k, z.cs);
    var ws := LogDisk.RecoverWrites(z.cs[|z.cs| - 1], y.start);
    r := LogDisk.WrittenTo(z.cs[|z.cs| - 1], ws, |ws|);
  }

  lemma HappenedIs(z: Crash, disk: map<nat, Block>, start: nat)
    requires Happened(z, disk, start)
    ensures LogDisk.Formatted(disk, start) && LogHeader.HeadBlocks(disk[start]) == [] && LogHeader.Storable(z.bl)
    ensures |z.bl| == |z.data| && |z.cs| > 0 && LogDisk.CrashedRecoveries(start, z.cs)
    ensures var ws := LogDisk.CommitWrites(start, z.prior, z.bl, z.data);
            z.k <= |ws| && LogDisk.DiskImage(disk, start, ws, z.k, z.cs[0])
  {
  }

  lemma LaidThere(keys: set<nat>, start: nat, bl: seq<nat>)
    requires LogDisk.Laid(keys, start, bl)
    ensures forall n :: n in bl ==> n in keys
  {
  }

  lemma IsOutcome(f0: Fs, x: Op, z: Crash, y: Layout)
    requires |z.cs| > 0 && LogDisk.Recoverable(z.cs[|z.cs| - 1], y.start)
    requires var ws := LogDisk.RecoverWrites(z.cs[|z.cs| - 1], y.start);
             Represents(LogDisk.WrittenTo(z.cs[|z.cs| - 1], ws, |ws|), if z.k <= |z.bl| then f0 else Kept(f0, x), y)
    ensures RecoversTo(z, Outcome(f0, x, z), y)
  {
    hide Represents, LogDisk.WrittenTo, LogDisk.RecoverWrites, Kept;
  }

  lemma OldOutside(disk: map<nat, Block>, r: map<nat, Block>, bl: seq<nat>, y: Layout)
    requires r.Keys == disk.Keys && forall j :: 0 <= j < |bl| ==> bl[j] in r && bl[j] in disk && r[bl[j]] == disk[bl[j]]
    requires forall n :: n in disk && !LogDisk.InLog(y.start, n) && n !in bl ==> r[n] == disk[n]
    ensures forall n :: n in disk && !LogDisk.InLog(y.start, n) ==> r[n] == disk[n]
  {
  }

  lemma NewOutside(disk: map<nat, Block>, r: map<nat, Block>, z: Crash, x: Op, y: Layout)
    requires Commits(z, x, y, disk)
    requires r.Keys == disk.Keys && forall j :: 0 <= j < |z.bl| ==> z.bl[j] in r && r[z.bl[j]] == z.data[j]
    requires forall n :: n in disk && !LogDisk.InLog(y.start, n) && n !in z.bl ==> r[n] == disk[n]
    ensures var c := NewBlocks(disk, x.after, y, x.logged);
            r.Keys == c.Keys && forall n :: n in c && !LogDisk.InLog(y.start, n) ==> r[n] == c[n]
  {
    hide NewBlock;
  }

  // ---- Freeing a file ------------------------------------------------------------------------------

  /** A crash in the middle of the commit of an itrunc(): the disk has the file system before it or the
      truncated one. */
  lemma TruncateSurvivesCrashes(x: Op, i: nat, y: Layout, disk: map<nat, Block>, z: Crash)
    requires Inv(x.before) && i in x.before.ino && x.after == Truncate.Truncated(x.before, i) && x.stray == {}
    requires Truncate.Frees(x.before, x.after, y.bmapstart, y.inodestart, i, Truncate.Mark({}, 0),
                            Truncate.Mark(x.logged, x.peak))
    requires Placed(x.before, y) && Represents(disk, x.before, y)
    requires Commits(z, x, y, disk) && Happened(z, disk, y.start)
    ensures RecoversTo(z, if Committed(z) then Truncate.Truncated(x.before, i) else x.before, y)
  {
    hide *;
    Truncate.TruncateIsSound(x, i, y.bmapstart, y.inodestart);
    AllOrNothing(x, y, disk, z);
  }

  /** ... and of an iput() that frees an inode: the inode with its blocks is there, or all of it is free. */
  lemma ReleaseSurvivesCrashes(x: Op, i: nat, y: Layout, disk: map<nat, Block>, z: Crash)
    requires Inv(x.before) && i in x.before.ino && x.after == Truncate.Released(x.before, i) && x.stray == {}
    requires Truncate.Frees(x.before, x.after, y.bmapstart, y.inodestart, i, Truncate.Mark({}, 0),
                            Truncate.Mark(x.logged, x.peak))
    requires Placed(x.before, y) && Represents(disk, x.before, y)
    requires Commits(z, x, y, disk) && Happened(z, disk, y.start)
    ensures RecoversTo(z, if Committed(z) then Truncate.Released(x.before, i) else x.before, y)
  {
    hide *;
    Truncate.ReleaseIsSound(x, i, y.bmapstart, y.inodestart);
    AllOrNothing(x, y, disk, z);
  }

  /** An operation alone in its transaction, that changes nothing without logging it. */
  lemma AllOrNothing(x: Op, y: Layout, disk: map<nat, Block>, z: Crash)
    requires Sound(x, y.bmapstart, y.inodestart) && x.stray == {} && Placed(x.before, y) &&
             Represents(disk, x.before, y)
    requires Commits(z, x, y, disk) && Happened(z, disk, y.start)
    ensures RecoversTo(z, if Committed(z) then x.after else x.before, y)
  {
    hide *;
    SameAsIs(x.before);
    TransactionIsAtomic(x, x.before, {}, y, disk, z);
    NothingElse(x, y);
    OutcomeIs(x.before, x, z);
  }

  lemma SameAsIs(f: Fs)
    ensures SameBut(f, f, {})
  {
  }

  lemma NothingElse(x: Op, y: Layout)
    requires Sound(x, y.bmapstart, y.inodestart) && x.stray == {}
    ensures Kept(x.before, x) == x.after
  {
    CoveredBlocks(x, y);
    hide Sound;
    assert Kept(x.before, x).blk == x.after.blk;
  }

  lemma CoveredBlocks(x: Op, y: Layout)
    requires Sound(x, y.bmapstart, y.inodestart) && x.stray == {}
    ensures forall b :: b in x.after.blk && b !in x.logged ==> b in x.before.blk && x.after.blk[b] == x.before.blk[b]
  {
    hide Inv, Home, HoldsInode, InodeLogged, BitBlock;
  }

  // ---- Many operations in a transaction ------------------------------------------------------------

  /** The blocks whose buffers are not what the disk has or will have: those in `s` before operation `a`,
      and those that operations from `a` up to `b` changed, unless they were logged later. */
  ghost function Strays(ops: seq<Op>, s: set<nat>, a: nat, b: nat): (t: set<nat>)
    requires a <= b <= |ops|
    decreases b
  {
    if b == a then s else Strays(ops, s, a, b - 1) - ops[b - 1].logged + ops[b - 1].stray
  }

  ghost function Logged(ops: seq<Op>, a: nat, b: nat): (l: set<nat>)
    requires a <= b <= |ops|
    decreases b
  {
    if b == a then {} else Logged(ops, a, b - 1) + ops[b - 1].logged
  }

  /** Operations that follow each other and are committed together. */
  ghost function Group(ops: seq<Op>, s: set<nat>, a: nat, b: nat): (x: Op)
    requires a < b <= |ops|
  {
    Op(ops[a].before, ops[b - 1].after, Logged(ops, a, b), 0, Strays(ops, s, a, b))
  }

  /** Operation `k` starts from what the one before it left. The buffer of a block that was changed and not
      logged may have been recycled in between. */
  ghost predicate Follows(ops: seq<Op>, s: set<nat>, a: nat, k: nat) {
    a < k < |ops| ==> SameBut(ops[k - 1].after, ops[k].before, Strays(ops, s, a, k))
  }

  ghost predicate AllFollow(ops: seq<Op>, s: set<nat>, a: nat, b: nat) {
    forall k: nat :: k < b ==> Follows(ops, s, a, k)
  }

  ghost predicate AllData(f: Fs, s: set<nat>) { forall t :: t in s ==> DataBlock(f, t) }

  /** A transaction of the operations from `a` up to `b`, begun when the buffers were as on the disk, except
      for `s`. */
  ghost predicate Transaction(ops: seq<Op>, f0: Fs, s: set<nat>, a: nat, b: nat) {
    && a < b <= |ops| && SameBut(f0, ops[a].before, s) && AllData(f0, s) && AllFollow(ops, s, a, b)
  }

  lemma {:induction false} GroupIsSound(ops: seq<Op>, f0: Fs, s: set<nat>, a: nat, b: nat, y: Layout)
    requires Transaction(ops, f0, s, a, b) && forall k :: a <= k < b ==> Sound(ops[k], y.bmapstart, y.inodestart)
    ensures Sound(Group(ops, s, a, b), y.bmapstart, y.inodestart)
    decreases b
  {
    if b == a + 1 {
      hide Sound, SameBut, AllData, AllFollow;
      assert Strays(ops, s, a, a) == s && Logged(ops, a, a) == {};
      assert Logged(ops, a, b) == ops[a].logged && Strays(ops, s, a, b) == s - ops[a].logged + ops[a].stray;
      First(ops[a], f0, s, Group(ops, s, a, b), y);
    } else {
      hide Sound, SameBut, AllData;
      assert Follows(ops, s, a, b - 1);
      GroupIsSound(ops, f0, s, a, b - 1, y);
      Both(Group(ops, s, a, b - 1), ops[b - 1], Group(ops, s, a, b), y);
    }
  }

  lemma First(x: Op, f0: Fs, s: set<nat>, z: Op, y: Layout)
    requires Sound(x, y.bmapstart, y.inodestart) && SameBut(f0, x.before, s) && AllData(f0, s)
    requires z == Op(x.before, x.after, x.logged, 0, s - x.logged + x.stray)
    ensures Sound(z, y.bmapstart, y.inodestart)
  {
    hide Inv, BitBlock, InodeBlock, Home, HoldsInode;
    forall j | j in z.before.ino ensures InodeLogged(z, y.inodestart, j) {
      assert InodeLogged(x, y.inodestart, j);
    }
  }

  lemma Both(x: Op, x': Op, z: Op, y: Layout)
    requires Sound(x, y.bmapstart, y.inodestart) && Sound(x', y.bmapstart, y.inodestart)
    requires SameBut(x.after, x'.before, x.stray)
    requires z == Op(x.before, x'.after, x.logged + x'.logged, 0, x.stray - x'.logged + x'.stray)
    ensures Sound(z, y.bmapstart, y.inodestart)
  {
    BothCovered(x, x', z, y.bmapstart);
    BothPlaced(x, x', z, y);
    hide Inv, Covered, Home, HoldsInode, InodeBlock;
    forall j | j in z.before.ino ensures InodeLogged(z, y.inodestart, j) {
      assert InodeLogged(x, y.inodestart, j) && InodeLogged(x', y.inodestart, j);
    }
  }

  lemma BothCovered(x: Op, x': Op, z: Op, bmapstart: nat)
    requires Covered(x.before, x.after, bmapstart, x.logged, x.stray)
    requires Covered(x'.before, x'.after, bmapstart, x'.logged, x'.stray) && SameBut(x.after, x'.before, x.stray)
    requires forall b :: b in x.stray ==> DataBlock(x.after, b)
    requires forall b :: b in x'.stray ==> DataBlock(x'.after, b)
    requires z == Op(x.before, x'.after, x.logged + x'.logged, 0, x.stray - x'.logged + x'.stray)
    ensures Covered(z.before, z.after, bmapstart, z.logged, z.stray)
    ensures forall b :: b in z.stray ==> DataBlock(z.after, b)
  {
    hide BitBlock;
  }

  lemma BothPlaced(x: Op, x': Op, z: Op, y: Layout)
    requires Sound(x, y.bmapstart, y.inodestart) && Sound(x', y.bmapstart, y.inodestart)
    requires SameBut(x.after, x'.before, x.stray) && z.before == x.before && z.logged == x.logged + x'.logged
    ensures forall n :: n in z.logged ==> Home(z.before, y.bmapstart, n) || HoldsInode(z.before, y.inodestart, n)
  {
    CoveredSizes(x, y);
    hide Inv, Covered, InodeLogged, DataBlock;
    assert forall n :: Home(x'.before, y.bmapstart, n) == Home(x.before, y.bmapstart, n);
  }

  // ---- filewrite() -----------------------------------------------------------------------------------

  /** A call of filewrite() on file `i` at offset `off`, when the file system was `f`. */
  datatype Call = Call(f: Fs, i: nat, off: nat, src: seq<Byte>)

  /** What a byte of the file may be, when `w` bytes of `src` are written: those up to `seen` may also be
      there. */
  ghost predicate ByteOk(c: Call, w: nat, seen: nat, pos: nat, x: Byte) {
    if c.off <= pos < c.off + w then pos - c.off < |c.src| && x == c.src[pos - c.off]
    else
      || x == ByteAt(c.f, c.i, pos)
      || (c.off + w <= pos < c.off + seen && pos - c.off < |c.src| && x == c.src[pos - c.off])
  }

  /** The file has exactly the first `w` bytes of `src` spliced in, and its size says so. */
  ghost predicate Has(c: Call, f: Fs, w: nat, seen: nat) {
    && c.i in c.f.ino && c.i in f.ino && w <= seen
    && f.ino[c.i] == c.f.ino[c.i].(size := NewSize(c.f.ino[c.i].size, c.off, w), addrs := f.ino[c.i].addrs)
    && forall pos: nat :: ByteOk(c, w, seen, pos, ByteAt(f, c.i, pos))
  }

  /** An operation, of any process, in the course of the call: it takes the file from `w` bytes to `w'`, and
      logs the blocks of what is new. */
  ghost predicate Advances(c: Call, x: Op, w: nat, seen: nat, w': nat, seen': nat) {
    && Has(c, x.before, w, seen) && Has(c, x.after, w', seen') && w <= w' && seen <= seen'
    && PutLogged(x.after, c.i, c.off, w, w', x.logged)
  }

  /** The operations of all processes during the call: before operation `k` the file has `done[k]` bytes of
      it, a number of whole chunks or all that there are in the end. */
  ghost predicate History(c: Call, ops: seq<Op>, done: seq<nat>, seen: seq<nat>, y: Layout) {
    && |done| == |seen| == |ops| + 1
    && (forall k :: 0 <= k < |ops| ==>
          Sound(ops[k], y.bmapstart, y.inodestart) && Advances(c, ops[k], done[k], seen[k], done[k + 1], seen[k + 1]))
    && (forall k :: 0 <= k < |done| ==> done[k] % CHUNK == 0 || done[k] == done[|ops|])
  }

  /** A crash in the middle of filewrite(), however its operations and those of other processes were grouped
      into transactions. The disk has the file system `f0`, with `done[a]` bytes of the call in the file,
      and the operations from `a` up to `b` are being committed. After the crash, any number of crashed
      recoveries and one that completes, the file has exactly `done[a]` bytes of the call, or exactly
      `done[b]`. Only a call whose copy from user memory fails within a block has `seen` beyond `done`:
      what it copied before may be there as well. */
  lemma FilewriteSurvivesCrashes(c: Call, ops: seq<Op>, done: seq<nat>, seen: seq<nat>, y: Layout, f0: Fs, s: set<nat>,
                                 a: nat, b: nat, disk: map<nat, Block>, z: Crash)
    requires History(c, ops, done, seen, y) && Transaction(ops, f0, s, a, b)
    requires Has(c, f0, done[a], seen[a]) && Placed(f0, y) && Represents(disk, f0, y) && Inv(f0)
    requires Commits(z, Group(ops, s, a, b), y, disk) && Happened(z, disk, y.start)
    ensures var m := if Committed(z) then b else a;
            var f' := Outcome(f0, Group(ops, s, a, b), z);
            && RecoversTo(z, f', y) && Has(c, f', done[m], seen[m])
            && (done[m] % CHUNK == 0 || done[m] == done[|ops|])
  {
    HistoryParts(c, ops, done, seen, y, a, b);
    GroupIsSound(ops, f0, s, a, b, y);
    TransactionParts(ops, f0, s, a, b);
    hide *;
    TransactionIsAtomic(Group(ops, s, a, b), f0, s, y, disk, z);
    KeptHas(c, ops, done, seen, y, f0, s, a, b);
    OutcomeIs(f0, Group(ops, s, a, b), z);
  }

  lemma OutcomeIs(f0: Fs, x: Op, z: Crash)
    ensures Outcome(f0, x, z) == if Committed(z) then Kept(f0, x) else f0
  {
  }

  lemma TransactionParts(ops: seq<Op>, f0: Fs, s: set<nat>, a: nat, b: nat)
    requires Transaction(ops, f0, s, a, b)
    ensures a < b <= |ops| && SameBut(f0, Group(ops, s, a, b).before, s) && SameBut(f0, ops[a].before, s)
    ensures AllData(f0, s) && AllFollow(ops, s, a, b)
  {
    hide SameBut, AllData, AllFollow;
  }

  lemma HistoryParts(c: Call, ops: seq<Op>, done: seq<nat>, seen: seq<nat>, y: Layout, a: nat, b: nat)
    requires History(c, ops, done, seen, y) && a < b <= |ops|
    ensures forall k :: a <= k < b ==> Sound(ops[k], y.bmapstart, y.inodestart)
    ensures done[a] % CHUNK == 0 || done[a] == done[|ops|]
    ensures done[b] % CHUNK == 0 || done[b] == done[|ops|]
  {
    hide Sound, Advances;
  }

  /** The file on the disk after the commit. */
  lemma KeptHas(c: Call, ops: seq<Op>, done: seq<nat>, seen: seq<nat>, y: Layout, f0: Fs, s: set<nat>, a: nat, b: nat)
    requires History(c, ops, done, seen, y) && Transaction(ops, f0, s, a, b) && Has(c, f0, done[a], seen[a]) && Inv(f0)
    requires Sound(Group(ops, s, a, b), y.bmapstart, y.inodestart)
    ensures Has(c, Kept(f0, Group(ops, s, a, b)), done[b], seen[b])
  {
    var x := Group(ops, s, a, b);
    var f := Kept(f0, x);
    assert Advances(c, ops[b - 1], done[b - 1], seen[b - 1], done[b], seen[b]);
    hide Sound, History, Transaction, ByteAt, ByteOk, PutLogged, SameBut;
    forall pos: nat ensures ByteOk(c, done[b], seen[b], pos, ByteAt(f, c.i, pos)) {
      KeptByte(c, ops, done, seen, y, f0, s, a, b, pos);
    }
  }

  lemma KeptByte(c: Call, ops: seq<Op>, done: seq<nat>, seen: seq<nat>, y: Layout, f0: Fs, s: set<nat>, a: nat, b: nat,
                 pos: nat)
    requires History(c, ops, done, seen, y) && Transaction(ops, f0, s, a, b) && Has(c, f0, done[a], seen[a]) && Inv(f0)
    requires Sound(Group(ops, s, a, b), y.bmapstart, y.inodestart)
    ensures ByteOk(c, done[b], seen[b], pos, ByteAt(Kept(f0, Group(ops, s, a, b)), c.i, pos))
  {
    var x := Group(ops, s, a, b);
    assert x.after == ops[b - 1].after == StateAt(ops, a, b) && x.logged == Logged(ops, a, b);
    TransactionParts(ops, f0, s, a, b);
    LastByte(c, ops, done, seen, y, b, pos);
    hide *;
    StillStray(ops, s, a, b);
    KeptSlot(x, f0, s, y, c.i, BlockNo(pos));
    if BlockNo(pos) < MAXFILE {
      OnDisk(c, ops, done, seen, y, f0, s, a, b, pos);
    }
    ByteKept(c, x, f0, done[b], seen[b], pos);
  }

  lemma LastByte(c: Call, ops: seq<Op>, done: seq<nat>, seen: seq<nat>, y: Layout, b: nat, pos: nat)
    requires History(c, ops, done, seen, y) && 0 < b <= |ops|
    ensures c.i in ops[b - 1].after.ino && ByteOk(c, done[b], seen[b], pos, ByteAt(ops[b - 1].after, c.i, pos))
  {
    assert Advances(c, ops[b - 1], done[b - 1], seen[b - 1], done[b], seen[b]);
    hide ByteAt, ByteOk, Sound;
  }

  lemma {:induction false} StillStray(ops: seq<Op>, s: set<nat>, a: nat, b: nat)
    requires a <= b <= |ops|
    ensures s - Logged(ops, a, b) <= Strays(ops, s, a, b)
    decreases b
  {
    if a < b {
      StillStray(ops, s, a, b - 1);
    }
  }

  lemma ByteKept(c: Call, x: Op, f0: Fs, w: nat, seen: nat, pos: nat)
    requires SlotAt(Kept(f0, x), c.i, BlockNo(pos)) == SlotAt(x.after, c.i, BlockNo(pos))
    requires ByteOk(c, w, seen, pos, ByteAt(x.after, c.i, pos))
    requires BlockNo(pos) < MAXFILE ==> DiskOk(c, x.after, f0, x.logged, w, seen, pos)
    ensures ByteOk(c, w, seen, pos, ByteAt(Kept(f0, x), c.i, pos))
  {
    hide SlotAt, BlockNo, ByteOk;
  }

  /** What is not logged and not stray has not changed; so the block map is that of the transaction. */
  lemma KeptSlot(x: Op, f0: Fs, s: set<nat>, y: Layout, i: nat, k: nat)
    requires Sound(x, y.bmapstart, y.inodestart) && SameBut(f0, x.before, s) && s - x.logged <= x.stray &&
             i in x.after.ino
    ensures SlotAt(Kept(f0, x), i, k) == SlotAt(x.after, i, k)
  {
    var ind := SlotAt(x.after, i, INDIRECT);
    assert SlotOk(x.after, i, INDIRECT) && Shaped(x.after, i);
    if ind != 0 && ind in x.after.blk {
      KeptBlock(x, f0, s, y, ind);
    }
    hide GetWord, Sound, SameBut, Inv;
  }

  lemma KeptBlock(x: Op, f0: Fs, s: set<nat>, y: Layout, b: nat)
    requires Sound(x, y.bmapstart, y.inodestart) && SameBut(f0, x.before, s) && s - x.logged <= x.stray
    requires b in x.after.blk && !DataBlock(x.after, b)
    ensures Kept(f0, x).blk[b] == x.after.blk[b]
  {
    assert b !in x.stray;
    hide BitBlock, InodeBlock, Home, HoldsInode, InodeLogged, Inv;
  }

  ghost function StateAt(ops: seq<Op>, a: nat, k: nat): (f: Fs)
    requires a <= k <= |ops| && a < |ops|
  {
    if k == a then ops[a].before else ops[k - 1].after
  }

  /** The block at a position of the file, if it is not one of `l`, has on the disk what it should have. */
  ghost predicate DiskOk(c: Call, f: Fs, f0: Fs, l: set<nat>, w: nat, seen: nat, pos: nat) {
    var t := SlotAt(f, c.i, BlockNo(pos));
    t != 0 && t !in l ==> t in f0.blk && ByteOk(c, w, seen, pos, f0.blk[t][Offset(pos)])
  }

  /** A block of the file that has not been logged since operation `a` still has on the disk what it should
      have. */
  lemma {:induction false} OnDisk(c: Call, ops: seq<Op>, done: seq<nat>, seen: seq<nat>, y: Layout, f0: Fs, s: set<nat>,
                                  a: nat, k: nat, pos: nat)
    requires History(c, ops, done, seen, y) && a <= k <= |ops| && a < |ops| && Has(c, f0, done[a], seen[a]) && Inv(f0)
    requires SameBut(f0, ops[a].before, s) && AllData(f0, s) && AllFollow(ops, s, a, k)
    requires BlockNo(pos) < MAXFILE
    ensures DiskOk(c, StateAt(ops, a, k), f0, Logged(ops, a, k), done[k], seen[k], pos)
    decreases k
  {
    hide *;
    if k == a {
      DoneAt(c, ops, done, seen, y, a);
      LogsUp(ops, a, k);
      FirstOnDisk(c, ops[a], f0, s, done[a], seen[a], pos);
    } else {
      FollowsLess(ops, s, a, k);
      OnDisk(c, ops, done, seen, y, f0, s, a, k - 1, pos);
      OnDiskNext(c, ops, done, seen, y, f0, s, a, k, pos);
    }
  }

  lemma OnDiskNext(c: Call, ops: seq<Op>, done: seq<nat>, seen: seq<nat>, y: Layout, f0: Fs, s: set<nat>, a: nat,
                   k: nat, pos: nat)
    requires History(c, ops, done, seen, y) && a < k <= |ops| && Follows(ops, s, a, k - 1)
    requires DiskOk(c, StateAt(ops, a, k - 1), f0, Logged(ops, a, k - 1), done[k - 1], seen[k - 1], pos)
    ensures DiskOk(c, StateAt(ops, a, k), f0, Logged(ops, a, k), done[k], seen[k], pos)
  {
    hide *;
    HistoryStep(c, ops, done, seen, y, a, k);
    LogsUp(ops, a, k);
    OldSlot(ops, s, y, a, k, c.i, BlockNo(pos));
    NextOnDisk(c, ops[k - 1], StateAt(ops, a, k - 1), f0, Logged(ops, a, k - 1), done[k - 1], seen[k - 1], done[k],
               seen[k], pos);
  }

  lemma DoneAt(c: Call, ops: seq<Op>, done: seq<nat>, seen: seq<nat>, y: Layout, a: nat)
    requires History(c, ops, done, seen, y) && a <= |ops|
    ensures a < |done| && a < |seen|
  {
  }

  lemma LogsUp(ops: seq<Op>, a: nat, k: nat)
    requires a <= k <= |ops| && a < |ops|
    ensures if k == a then Logged(ops, a, k) == {} && StateAt(ops, a, k) == ops[a].before
            else Logged(ops, a, k) == Logged(ops, a, k - 1) + ops[k - 1].logged &&
                 StateAt(ops, a, k) == ops[k - 1].after
  {
  }

  lemma FollowsLess(ops: seq<Op>, s: set<nat>, a: nat, k: nat)
    requires AllFollow(ops, s, a, k) && k > 0
    ensures AllFollow(ops, s, a, k - 1) && Follows(ops, s, a, k - 1)
  {
    hide Follows;
  }

  lemma HistoryStep(c: Call, ops: seq<Op>, done: seq<nat>, seen: seq<nat>, y: Layout, a: nat, k: nat)
    requires History(c, ops, done, seen, y) && a < k <= |ops|
    ensures Sound(ops[k - 1], y.bmapstart, y.inodestart) && (k - 1 > a ==> Sound(ops[k - 2], y.bmapstart, y.inodestart))
    ensures |done| == |seen| == |ops| + 1 && c.i in ops[k - 1].after.ino
    ensures Advances(c, ops[k - 1], done[k - 1], seen[k - 1], done[k], seen[k])
  {
    assert Advances(c, ops[k - 1], done[k - 1], seen[k - 1], done[k], seen[k]);
    hide Sound, ByteOk;
  }

  lemma FirstOnDisk(c: Call, x: Op, f0: Fs, s: set<nat>, w: nat, seen: nat, pos: nat)
    requires Has(c, f0, w, seen) && Inv(f0) && SameBut(f0, x.before, s) && AllData(f0, s)
    requires BlockNo(pos) < MAXFILE
    ensures DiskOk(c, x.before, f0, {}, w, seen, pos)
  {
    SameSlot(f0, x.before, s, c.i, BlockNo(pos));
    assert ByteOk(c, w, seen, pos, ByteAt(f0, c.i, pos));
    assert SlotOk(f0, c.i, BlockNo(pos)) && BlockOk(f0, SlotAt(f0, c.i, BlockNo(pos)));
    hide SlotAt, BlockNo, ByteOk;
  }

  lemma SameSlot(f: Fs, f': Fs, s: set<nat>, i: nat, k: nat)
    requires Inv(f) && SameBut(f, f', s) && AllData(f, s) && i in f.ino
    ensures SlotAt(f', i, k) == SlotAt(f, i, k)
  {
    hide GetWord;
    assert SlotOk(f, i, INDIRECT);
  }

  /** A slot with a block that an operation has not logged was there before. */
  lemma OldSlot(ops: seq<Op>, s: set<nat>, y: Layout, a: nat, k: nat, i: nat, l: nat)
    requires a < k <= |ops| && Follows(ops, s, a, k - 1) && Sound(ops[k - 1], y.bmapstart, y.inodestart)
    requires k - 1 > a ==> Sound(ops[k - 2], y.bmapstart, y.inodestart)
    requires i in ops[k - 1].after.ino
    ensures var t := SlotAt(ops[k - 1].after, i, l);
            t != 0 && t !in ops[k - 1].logged ==> SlotAt(StateAt(ops, a, k - 1), i, l) == t
  {
    var x, t := ops[k - 1], SlotAt(ops[k - 1].after, i, l);
    hide SlotAt, BitBlock, InodeBlock, Home, HoldsInode, InodeLogged, DataBlock;
    if t != 0 && t !in x.logged {
      assert SlotOk(x.after, i, l) && BlockOk(x.before, t);
      if k - 1 > a {
        assert BlockOk(ops[k - 2].after, t);
      }
    }
  }

  /** The bytes that an operation writes are in blocks that it logs. */
  lemma NextOnDisk(c: Call, x: Op, f: Fs, f0: Fs, l: set<nat>, w: nat, seen: nat, w': nat, seen': nat, pos: nat)
    requires Advances(c, x, w, seen, w', seen') && DiskOk(c, f, f0, l, w, seen, pos)
    requires var t := SlotAt(x.after, c.i, BlockNo(pos));
             t != 0 && t !in x.logged ==> SlotAt(f, c.i, BlockNo(pos)) == t
    ensures DiskOk(c, x.after, f0, l + x.logged, w', seen', pos)
  {
    hide SlotAt, BlockNo, Has;
    assert c.off + w <= pos < c.off + w' ==> SlotLogged(x.after, c.i, pos, x.logged);
  }

  /** The bytes that filewrite() by itself has written before each of its `n` operations, and in the end. */
  ghost function Marks(n: nat, w: nat): (d: seq<nat>)
    ensures |d| == n + 1 && d[n] == w && forall k :: 0 <= k < n ==> d[k] == Chunks(k)
  {
    seq(n + 1, (k: nat) => if k < n then Chunks(k) else w)
  }

  function Chunks(k: nat): (d: nat) { k * CHUNK }

  /** filewrite() by itself is such a history. */
  lemma OwnHistory(c: Call, ops: seq<Op>, w: nat, seen: nat, y: Layout)
    requires |ops| > 0 && forall k :: 0 <= k < |ops| ==> OpOk(ops[k], y.bmapstart, y.inodestart)
    requires forall k :: 0 <= k < |ops| ==>
               ChunkOp(ops[k], c.f, c.i, c.off, c.src, k, Reached(k, |ops|, w),
                       if k + 1 == |ops| then seen else Reached(k, |ops|, w))
    ensures History(c, ops, Marks(|ops|, w), Marks(|ops|, seen), y)
  {
    var done, seens := Marks(|ops|, w), Marks(|ops|, seen);
    forall k | 0 <= k < |ops|
      ensures Sound(ops[k], y.bmapstart, y.inodestart) &&
              Advances(c, ops[k], done[k], seens[k], done[k + 1], seens[k + 1])
    {
      assert OpOk(ops[k], y.bmapstart, y.inodestart);
      hide Sound, ChunkOp, Advances, Marks, OpOk;
      OwnAdvance(c, ops[k], k, Reached(k, |ops|, w), if k + 1 == |ops| then seen else Reached(k, |ops|, w));
    }
    hide Sound, Advances, ChunkOp, OpOk, Marks;
    forall k | 0 <= k < |done| ensures done[k] % CHUNK == 0 || done[k] == w {
      Multiple(k);
    }
  }

  lemma Multiple(k: nat)
    ensures Chunks(k) % CHUNK == 0
  {
  }

  lemma OwnAdvance(c: Call, x: Op, k: nat, w: nat, seen: nat)
    requires ChunkOp(x, c.f, c.i, c.off, c.src, k, w, seen)
    ensures Advances(c, x, Chunks(k), Chunks(k), w, seen)
  {
    AppendedHas(c, x.before, k * CHUNK, k * CHUNK);
    AppendedHas(c, x.after, w, seen);
  }

  lemma AppendedHas(c: Call, f: Fs, w: nat, seen: nat)
    requires Appended(c.f, f, c.i, c.off, c.src, w, seen)
    ensures Has(c, f, w, seen)
  {
    hide ByteAt;
  }
}
