/** The write-ahead log of kernel/log.c on top of the buffer cache. */
module Log {
  import opened Params
  import opened Blocks
  import opened Bio
  import opened LogHeader
  import opened LogDisk
  import LogCrash
  import GroupCommit

  datatype Snapshot = Snapshot(contents: map<nat, Block>, disk: map<nat, Block>, writes: seq<BlockWrite>)

  lemma CopiedNone(base: Snapshot, bl: seq<nat>, data: seq<Block>)
    requires |bl| == |data|
    ensures Copied(base.contents, bl, data, 0) == base.contents && Copied(base.disk, bl, data, 0) == base.disk
    ensures base.writes + Copies(bl, data, 0) == base.writes
  {
  }

  /** One more block copied. */
  lemma CopiedOneMore(base: Snapshot, bl: seq<nat>, data: seq<Block>, k: nat)
    requires k < |bl| == |data|
    ensures Copied(base.contents, bl, data, k + 1) == Copied(base.contents, bl, data, k)[bl[k] := data[k]]
    ensures Copied(base.disk, bl, data, k + 1) == Copied(base.disk, bl, data, k)[bl[k] := data[k]]
    ensures base.writes + Copies(bl, data, k + 1) == base.writes + Copies(bl, data, k) + [(bl[k], data[k])]
  {
  }

  /** The blocks `bl[k]`, `bl[k + 1]`, ... */
  ghost function From(bl: seq<nat>, k: nat): (s: set<nat>)
    requires k <= |bl|
    ensures forall n :: n in s ==> n in bl
    ensures forall i :: k <= i < |bl| ==> bl[i] in s
    decreases |bl| - k
  {
    if k == |bl| then {} else {bl[k]} + From(bl, k + 1)
  }

  lemma FromStep(bl: seq<nat>, k: nat)
    requires k < |bl| && LogCrash.Distinct(bl)
    ensures bl[k] in From(bl, k) && From(bl, k) - {bl[k]} == From(bl, k + 1)
  {
    NotFurther(bl, k, k + 1);
  }

  lemma NoneInstalled(log: Log, recovering: bool)
    requires log.Valid() && log.bc.Idle() && log.bc.v.pins == if recovering then {} else From(log.lh, 0)
    ensures log.Installed(log.Now(), log.InLogData(), 0, recovering)
  {
    hide Table, ListOfAll, Laid;
    CopiedNone(log.Now(), log.lh, log.InLogData());
  }

  lemma AllInstalled(log: Log, base: Snapshot, data: seq<Block>, recovering: bool)
    requires log.Installed(base, data, |log.lh|, recovering)
    ensures log.Valid() && log.bc.Idle() && log.bc.v.pins == {} && |data| == |log.lh|
    ensures log.Progress(base, log.lh, data, |log.lh|)
  {
    hide Table, ListOfAll, Copied, Copies, Laid;
  }

  /** The log blocks have `data`. */
  ghost predicate FromSlots(base: Snapshot, start: nat, data: seq<Block>) {
    forall i :: 0 <= i < |data| ==> start + 1 + i in base.contents && data[i] == base.contents[start + 1 + i]
  }

  lemma InLogIs(log: Log)
    requires log.Valid()
    ensures FromSlots(log.Now(), log.start, log.InLogData())
  {
    hide Table, ListOfAll;
    assert forall i :: 0 <= i < |log.lh| ==> InLog(log.start, Slots(log.start, |log.lh|)[i]);
  }

  lemma FromIsPart(bl: seq<nat>, k: nat)
    requires k <= |bl|
    ensures forall n :: n in From(bl, k) ==> n in bl
  {
  }

  lemma {:induction false} NotFurther(bl: seq<nat>, k: nat, j: nat)
    requires k < j <= |bl| && LogCrash.Distinct(bl)
    ensures bl[k] !in From(bl, j)
    decreases |bl| - j
  {
    if j < |bl| {
      NotFurther(bl, k, j + 1);
    }
  }

  class Log {
    const bc: BCache
    const start: nat
    var lh: seq<nat>          // log.lh.n block numbers
    var outstanding: nat
    var committing: bool

    constructor (bc: BCache, start: nat)
      ensures this.bc == bc && this.start == start && lh == [] && outstanding == 0 && !committing
    {
      this.bc, this.start, lh, outstanding, committing := bc, start, [], 0, false;
    }

    ghost predicate Valid()
      reads this, bc
    {
      bc.Valid() && Laid(bc.blocks, start, lh)
    }

    /** The header block on the disk names nothing. */
    ghost predicate Erased()
      reads this, bc
    {
      start in bc.disk && HasHead(bc.disk[start]) && HeadBlocks(bc.disk[start]) == []
    }

    /** The contents of the blocks that the header names. */
    ghost function LoggedData(): (s: seq<Block>)
      requires Valid()
      reads this, bc
      ensures |s| == |lh|
    {
      Pick(bc.v.contents, lh)
    }

    ghost function HeadBlock(): Block
      requires Valid()
      reads this, bc
    {
      assert InLog(start, start);
      bc.v.contents[start]
    }

    /** The contents of the log blocks that go with them. */
    ghost function InLogData(): (s: seq<Block>)
      requires Valid()
      reads this, bc
      ensures |s| == |lh|
    {
      assert forall n :: n in Slots(start, |lh|) ==> InLog(start, n);
      Pick(bc.v.contents, Slots(start, |lh|))
    }

    /** `k` blocks of `data` have been copied to `bl` since the cache and the disk were
        as in `base`. */
    ghost predicate Progress(base: Snapshot, bl: seq<nat>, data: seq<Block>, k: nat)
      requires k <= |bl| == |data|
      reads this, bc
    {
      && bc.v.contents == Copied(base.contents, bl, data, k)
      && bc.disk == Copied(base.disk, bl, data, k)
      && bc.writes == base.writes + Copies(bl, data, k)
    }

    ghost function Now(): Snapshot
      reads this, bc
    {
      Snapshot(bc.v.contents, bc.disk, bc.writes)
    }

    /** One iteration of write_log(). */
    method WriteLogOne(tail: nat, ghost base: Snapshot, ghost slots: seq<nat>, ghost data: seq<Block>)
      requires Valid() && bc.Idle() && tail < |lh| == |slots| == |data| && lh[tail] in bc.v.pins
      requires slots[tail] == start + 1 + tail && lh[tail] !in slots
      requires lh[tail] in base.contents && data[tail] == base.contents[lh[tail]]
      requires Progress(base, slots, data, tail)
      modifies bc
      ensures Valid() && bc.Idle() && bc.v.pins == old(bc.v.pins)
      ensures Progress(base, slots, data, tail + 1)
    {
      hide Table, ListOfAll, Copied, Copies;
      assert lh[tail] in lh && InLog(start, start + 1 + tail);
      CopiedElsewhere(base.contents, slots, data, tail, lh[tail]);
      CopiedOneMore(base, slots, data, tail);
      bc.CopyToLog(start + 1 + tail, lh[tail]);
    }

    /** write_log(): copy the modified blocks from the cache to the log. */
    method WriteLog()
      requires Valid() && bc.Idle() && forall i :: 0 <= i < |lh| ==> lh[i] in bc.v.pins
      modifies bc
      ensures Valid() && bc.Idle() && bc.v.pins == old(bc.v.pins)
      ensures Progress(old(Now()), Slots(start, |lh|), old(LoggedData()), |lh|)
    {
      hide Table, ListOfAll, Copied, Copies;
      ghost var base, slots, data := Now(), Slots(start, |lh|), Pick(bc.v.contents, lh);
      CopiedNone(base, slots, data);
      for tail := 0 to |lh|
        invariant Valid() && bc.Idle() && bc.v.pins == old(bc.v.pins)
        invariant Progress(base, slots, data, tail)
      {
        assert lh[tail] in lh;
        WriteLogOne(tail, base, slots, data);
      }
    }

    /** install_trans() has copied `k` blocks. */
    ghost predicate Installed(base: Snapshot, data: seq<Block>, k: nat, recovering: bool)
      reads this, bc
    {
      && k <= |lh| == |data| && Valid() && bc.Idle() && Progress(base, lh, data, k)
      && bc.v.pins == if recovering then {} else From(lh, k)
    }

    /** One iteration of install_trans(). */
    method InstallOne(tail: nat, recovering: bool, ghost base: Snapshot, ghost data: seq<Block>)
      requires Installed(base, data, tail, recovering) && tail < |lh| && FromSlots(base, start, data)
      modifies bc
      ensures Installed(base, data, tail + 1, recovering)
    {
      hide Table, ListOfAll, Copied, Copies, From;
      ghost var x := data[tail];
      assert lh[tail] in lh && InLog(start, start + 1 + tail) && start + 1 + tail !in lh;
      CopiedElsewhere(base.contents, lh, data, tail, start + 1 + tail);
      CopiedOneMore(base, lh, data, tail);
      FromStep(lh, tail);
      FromIsPart(lh, tail);
      bc.CopyHome(start + 1 + tail, lh[tail], recovering);
    }

    /** install_trans(): copy the log to the home blocks; unless recovering, unpin them. */
    method InstallTrans(recovering: bool)
      requires Valid() && bc.Idle() && bc.v.pins == if recovering then {} else From(lh, 0)
      modifies bc
      ensures Valid() && bc.Idle() && bc.v.pins == {}
      ensures Progress(old(Now()), lh, old(InLogData()), |lh|)
    {
      hide *;
      ghost var base, data := Now(), InLogData();
      InLogIs(this);
      NoneInstalled(this, recovering);
      for tail := 0 to |lh|
        invariant Installed(base, data, tail, recovering)
      {
        InstallOne(tail, recovering, base, data);
      }
      AllInstalled(this, base, data, recovering);
    }

    /** write_head(): the in-memory header goes to the header block. */
    method WriteHead()
      requires Valid() && bc.Idle() && start !in bc.v.pins
      modifies bc
      ensures Valid() && bc.Idle() && bc.v.pins == old(bc.v.pins)
      ensures var head := SetHead(old(bc.v.contents)[start], lh);
              && bc.v.contents == old(bc.v.contents)[start := head]
              && bc.disk == old(bc.disk)[start := head]
              && bc.writes == old(bc.writes) + [(start, head)]
    {
      hide Table, ListOfAll, SetWord, GetWord;
      QuietRefs(bc.buf, bc.v, bc.disk);
      assert InLog(start, start);
      var b := bc.Read(start);
      var hb := SetWord(bc.buf[b].data, 0, |lh|);
      ghost var hb0 := hb;
      for i := 0 to |lh|
        invariant hb == SetEntries(hb0, lh, i)
      {
        hb := SetWord(hb, i + 1, lh[i]);
      }
      bc.Store(b, hb, start);
      assert {} + {start} - {start} == {};
    }

    /** write_log() and the write_head() that commits. */
    method Record()
      requires Valid() && bc.Idle() && bc.v.pins == From(lh, 0)
      modifies bc
      ensures Valid() && bc.Idle() && bc.v.pins == old(bc.v.pins)
      ensures var c1 := Copied(old(bc.v.contents), Slots(start, |lh|), old(LoggedData()), |lh|);
              && start in c1 && c1[start] == old(HeadBlock())
              && bc.v.contents == c1[start := SetHead(c1[start], lh)]
              && bc.writes == old(bc.writes) + Copies(Slots(start, |lh|), old(LoggedData()), |lh|) +
                   [(start, SetHead(c1[start], lh))]
    {
      hide Table, ListOfAll, Copied, Copies, From, SetHead, SetWord, GetWord;
      AllFrom(lh);
      assert InLog(start, start);
      CopiedElsewhere(bc.v.contents, Slots(start, |lh|), LoggedData(), |lh|, start);
      WriteLog();
      WriteHead();
    }

    /** install_trans(), and the write_head() that erases the transaction. */
    method Finish()
      requires Valid() && bc.Idle() && bc.v.pins == From(lh, 0)
      modifies this`lh, bc
      ensures Valid() && bc.Idle() && lh == [] && bc.v.pins == {} && Erased()
      ensures var c3 := Copied(old(bc.v.contents), old(lh), old(InLogData()), |old(lh)|);
              && start in c3
              && bc.v.contents == c3[start := SetHead(c3[start], [])]
              && bc.writes == old(bc.writes) + Copies(old(lh), old(InLogData()), |old(lh)|) +
                   [(start, SetHead(c3[start], []))]
    {
      hide Table, ListOfAll, Copied, Copies, From, SetHead, SetWord, GetWord;
      assert InLog(start, start);
      CopiedElsewhere(bc.v.contents, lh, InLogData(), |lh|, start);
      InstallTrans(false);
      lh := [];
      WriteHead();
    }

    /** The body of commit() for a transaction that logged something. */
    method Flush()
      requires Valid() && bc.Idle() && bc.v.pins == From(lh, 0) && lh != []
      modifies this`lh, bc
      ensures Valid() && bc.Idle() && lh == [] && bc.v.pins == {} && Erased()
      ensures bc.writes == old(bc.writes) + CommitWrites(start, old(HeadBlock()), old(lh), old(LoggedData()))
      ensures forall n :: n in bc.blocks && !InLog(start, n) ==> bc.v.contents[n] == old(bc.v.contents)[n]
    {
      hide Table, ListOfAll, Copied, Copies, From, SetHead, SetWord, GetWord, CommitWrites;
      ghost var bl, c0 := lh, bc.v.contents;
      CommitEffect(c0, bc.blocks, start, bl);
      Record();
      Finish();
      WritesAssoc(old(bc.writes), start, c0[start], bl, Pick(c0, bl));
    }

    /** commit(): every block of the transaction reaches its home; the file system's view
        of the blocks does not change; and the device is told to write exactly the
        sequence whose crash points CommitSurvivesCrashes covers. Not `ok` is the panic of bget(),
        which finds no buffer for the first log block: it happens exactly if the transaction has
        NBUF blocks. */
    method Commit() returns (ok: bool)
      requires Valid() && bc.Quiet() && bc.v.pins == From(lh, 0)
      modifies this`lh, bc
      ensures ok <==> |old(lh)| < NBUF
      ensures !ok ==> lh == old(lh) && bc.disk == old(bc.disk) && bc.writes == old(bc.writes) && bc.v == old(bc.v)
      ensures ok ==> Valid() && bc.Quiet() && lh == [] && bc.v.pins == {} &&
                     (old(lh) != [] || old(Erased()) ==> Erased())
      ensures ok ==> bc.writes == old(bc.writes) + CommitWrites(start, old(HeadBlock()), old(lh), old(LoggedData()))
      ensures ok ==> bc.disk == bc.v.contents
      ensures ok ==> forall n :: n in bc.blocks && !InLog(start, n) ==> bc.v.contents[n] == old(bc.v.contents)[n]
    {
      CommitFindsBuffers(this);
      hide Table, ListOfAll;
      ok := true;
      if |lh| > 0 {
        ok := bc.CanGet(start + 1);
        if !ok {
          return;
        }
        Flush();
      } else {
        AllFrom(lh);
      }
      AllClean(bc);
    }

    // ---- The steps of GroupCommit ---------------------------------------------------------

    /** The log is in a state that satisfies the invariant of GroupCommit, as every state of its runs does. */
    ghost predicate Agrees(s: GroupCommit.State)
      reads this
    {
      GroupCommit.Inv(s) && s.lh == lh && s.outstanding == outstanding && s.committing == committing
    }

    /** One iteration of begin_op()'s loop by process `p`, a step of GroupCommit; `false` means sleep
        and try again. */
    method TryBeginOp(ghost s: GroupCommit.State, ghost p: nat) returns (begun: bool, ghost s': GroupCommit.State)
      requires Agrees(s) && p < |s.procs| && s.procs[p].Trying?
      modifies this`outstanding
      ensures Agrees(s') && GroupCommit.BeginOp(s, s', p) && |s'.procs| == |s.procs|
      ensures s'.procs[p] == if begun then GroupCommit.Open(|s.began|, 0) else GroupCommit.Sleeping
    {
      hide GroupCommit.Inv;
      s' := GroupCommit.Began(s, p);
      if committing {
        begun := false;
      } else if |lh| + (outstanding + 1) * MAXOPBLOCKS > LOGBLOCKS {
        begun := false;
      } else {
        outstanding := outstanding + 1;
        begun := true;
      }
      assert GroupCommit.Step(s, s', p, 0);
      GroupCommit.StepKeepsInv(s, s');
    }

    /** log_write() by process `p`, which has reserved space left: a step of GroupCommit. A repeated
        block is absorbed, a new one recorded and pinned. No panic is reached. */
    method LogWrite(b: nat, ghost s: GroupCommit.State, ghost p: nat) returns (ghost s': GroupCommit.State)
      requires Valid() && bc.v.pins == From(lh, 0)
      requires Agrees(s) && p < |s.procs| && s.procs[p].Open? && s.procs[p].spent < MAXOPBLOCKS
      requires b < NBUF && bc.Owns(b, bc.buf[b].blockno)
      requires var n := bc.buf[b].blockno; n < 0x1_0000_0000 && !InLog(start, n)
      modifies this`lh, bc`buf, bc`v
      ensures Valid() && bc.v.pins == From(lh, 0) && bc.buf[b].blockno in lh
      ensures Agrees(s') && GroupCommit.LogWrite(s, s', p, bc.buf[b].blockno)
      ensures bc.v.contents == old(bc.v.contents) && bc.v.held == old(bc.v.held) && bc.v.waiting == old(bc.v.waiting)
      ensures bc.Owns(b, bc.buf[b].blockno) && bc.buf[b].blockno == old(bc.buf[b].blockno)
    {
      ghost var n := bc.buf[b].blockno;
      hide *;
      AgreesParts(this, s);
      GroupCommit.WroteKeepsInv(s, p, n);
      s' := GroupCommit.Wrote(s, p, n);
      Note(b);
      Agreed(this, s');
    }

    /** ... the body of log_write(), past its two panics. */
    method Note(b: nat)
      requires Valid() && bc.v.pins == From(lh, 0) && !GroupCommit.Panics(lh, outstanding)
      requires b < NBUF && bc.Owns(b, bc.buf[b].blockno)
      requires var n := bc.buf[b].blockno; n < 0x1_0000_0000 && !InLog(start, n)
      modifies this`lh, bc`buf, bc`v
      ensures Valid() && bc.v.pins == From(lh, 0)
      ensures lh == GroupCommit.Absorb(old(lh), bc.buf[b].blockno)
      ensures bc.v.contents == old(bc.v.contents) && bc.v.held == old(bc.v.held) && bc.v.waiting == old(bc.v.waiting)
      ensures bc.Owns(b, bc.buf[b].blockno) && bc.buf[b].blockno == old(bc.buf[b].blockno)
    {
      hide Table, ListOfAll, From;
      ghost var n := bc.buf[b].blockno;
      var i := 0;
      while i < |lh| && lh[i] != bc.buf[b].blockno
        invariant 0 <= i <= |lh| && n !in lh[..i]
      {
        i := i + 1;
      }
      FromAppend(lh, n);
      if i == |lh| {
        assert lh[..i] == lh;
        bc.Pin(b);
        lh := lh + [bc.buf[b].blockno];
      } else {
        assert lh[i := bc.buf[b].blockno] == lh;
        lh := lh[i := bc.buf[b].blockno];
      }
    }

    /** end_op() of process `p` up to its first release(), a step of GroupCommit. Its panic is not
        reached, and it commits exactly if no other operation is open. */
    method EndOp(ghost s: GroupCommit.State, ghost p: nat) returns (doCommit: bool, ghost s': GroupCommit.State)
      requires Agrees(s) && p < |s.procs| && s.procs[p].Open?
      modifies this`outstanding, this`committing
      ensures !old(committing)
      ensures Agrees(s') && GroupCommit.EndOp(s, s', p)
      ensures doCommit <==> forall q :: 0 <= q < |s.procs| && q != p ==> !s.procs[q].Open?
      ensures doCommit ==> s'.procs[p].Committer?
    {
      GroupCommit.NoEndPanic(s, p);
      hide GroupCommit.Inv;
      s' := GroupCommit.Ended(s, p);
      outstanding := outstanding - 1;
      doCommit := false;
      if outstanding == 0 {
        doCommit := true;
        committing := true;
      }
      assert GroupCommit.Step(s, s', p, 0);
      GroupCommit.StepKeepsInv(s, s');
    }

    /** The rest of end_op(), for the process that commits: the steps of GroupCommit that empty the log
        and let the others go on. Not `ok` is the panic in commit(). */
    method FinishEndOp(ghost s: GroupCommit.State, ghost p: nat) returns (ok: bool, ghost s': GroupCommit.State)
      requires Valid() && bc.Quiet() && bc.v.pins == From(lh, 0)
      requires Agrees(s) && p < |s.procs| && s.procs[p].Committer?
      modifies this`lh, this`committing, bc
      ensures ok <==> |old(lh)| < NBUF
      ensures ok ==> Agrees(s') && GroupCommit.Finishes(s, s', p)
      ensures ok ==> Valid() && bc.Quiet() && lh == [] && bc.v.pins == {} && bc.disk == bc.v.contents
    {
      hide *;
      AgreesParts(this, s);
      s' := GroupCommit.Finished(s, p);
      GroupCommit.FinishedKeepsInv(s, p);
      ok := Commit();
      if ok {
        StillValid(this);
        committing := false;
        Agreed(this, s');
        StillValid(this);
      }
    }

    /** read_head() and the rest of recover_from_log(). */
    method RecoverFromLog()
      requires bc.Valid() && bc.Idle() && bc.v.pins == {} && Recoverable(bc.disk, start)
      modifies this`lh, bc
      ensures Valid() && bc.Idle() && lh == [] && bc.v.pins == {} && Erased()
      ensures bc.writes == old(bc.writes) + RecoverWrites(old(bc.disk), start)
      ensures bc.disk == bc.v.contents
      ensures bc.disk == WrittenTo(old(bc.disk), RecoverWrites(old(bc.disk), start),
                                   |RecoverWrites(old(bc.disk), start)|)
    {
      hide Table, ListOfAll, Copied, Copies, SetHead, SetWord, GetWord;
      AllClean(bc);
      ReadHead();
      RecoverEffect(bc.disk, start, bc.writes);
      InstallTrans(true);
      lh := [];
      WriteHead();
      AllClean(bc);
    }

    /** read_head(): the header block into log.lh. */
    method ReadHead()
      requires bc.Valid() && bc.Idle() && bc.v.pins == {} && Recoverable(bc.disk, start)
      modifies this`lh, bc
      ensures bc.disk == old(bc.disk) && bc.v.contents == old(bc.v.contents) && bc.writes == old(bc.writes)
      ensures lh == HeadBlocks(bc.disk[start])
      ensures Valid() && bc.Idle() && bc.v.pins == {}
    {
      hide Table, ListOfAll, GetWord;
      QuietRefs(bc.buf, bc.v, bc.disk);
      CleanWhenFree(bc.buf, bc.v, bc.disk, start);
      assert InLog(start, start);
      var b := bc.Read(start);
      var hb := bc.buf[b].data;
      var n := GetWord(hb, 0);
      var bl: seq<nat> := [];
      for i := 0 to n
        invariant bl == HeadBlocks(hb)[..i]
      {
        bl := bl + [GetWord(hb, i + 1)];
      }
      bc.Release(b);
      lh := bl;
      assert {} + {start} - {start} == {};
    }
  }

  lemma FromAppend(bl: seq<nat>, n: nat)
    ensures From(bl + [n], 0) == From(bl, 0) + {n}
    ensures n in From(bl, 0) <==> n in bl
  {
    AllFrom(bl);
    AllFrom(bl + [n]);
    forall m | m in From(bl, 0) + {n} ensures m in From(bl + [n], 0) {
      assert m in bl + [n];
      var i :| 0 <= i < |bl + [n]| && (bl + [n])[i] == m;
    }
  }

  lemma AllFrom(bl: seq<nat>)
    ensures forall i :: 0 <= i < |bl| ==> bl[i] in From(bl, 0)
    ensures bl == [] ==> From(bl, 0) == {}
    ensures forall n :: n in From(bl, 0) ==> n in bl
  {
  }

  /** A crash in commit() is all or nothing for the file system. The log writes what commit() writes,
      a crash comes after `k` of the writes, any number of recoveries crash too, and the last one,
      from `cs[|cs| - 1]`, completes. Then every block outside the log is as it was on the disk
      before the commit, or every one is as the file system sees it, and the header write decides. */
  lemma CommitIsAtomic(log: Log, k: nat, cs: seq<map<nat, Block>>)
    requires log.Valid() && log.bc.Quiet() && log.bc.v.pins == From(log.lh, 0) && log.Erased()
    requires var ws := CommitWrites(log.start, log.HeadBlock(), log.lh, log.LoggedData());
             k <= |ws| && |cs| > 0 && DiskImage(log.bc.disk, log.start, ws, k, cs[0])
    requires CrashedRecoveries(log.start, cs)
    ensures var c := cs[|cs| - 1];
            && Recoverable(c, log.start)
            && var r := WrittenTo(c, RecoverWrites(c, log.start), |RecoverWrites(c, log.start)|);
               && r.Keys == log.bc.blocks && HasHead(r[log.start]) && HeadBlocks(r[log.start]) == []
               && forall n :: n in log.bc.blocks && !InLog(log.start, n) ==>
                                r[n] == if k <= |log.lh| then log.bc.disk[n] else log.bc.v.contents[n]
  {
    hide Table, ListOfAll, Copied, Copies, SetHead, SetWord, GetWord, CommitWrites, RecoverWrites, WrittenTo, DiskImage,
         CrashedRecoveries;
    var bl, data := log.lh, log.LoggedData();
    CommitSurvivesCrashes(log.bc.disk, log.start, log.HeadBlock(), bl, data, k, cs);
    AllFrom(bl);
    var c := cs[|cs| - 1];
    var r := WrittenTo(c, RecoverWrites(c, log.start), |RecoverWrites(c, log.start)|);
    forall n | n in log.bc.blocks && !InLog(log.start, n)
      ensures r[n] == if k <= |bl| then log.bc.disk[n] else log.bc.v.contents[n]
    {
      if n in bl {
        var i :| 0 <= i < |bl| && bl[i] == n;
        assert data[i] == log.bc.v.contents[bl[i]];
      } else {
        CleanWhenFree(log.bc.buf, log.bc.v, log.bc.disk, n);
      }
    }
  }

  /** bget() finds a buffer for the first log block if and only if the transaction has fewer than NBUF
      blocks, and then all of commit() finds its buffers. */
  lemma CommitFindsBuffers(log: Log)
    requires log.Valid() && log.bc.Quiet() && log.bc.v.pins == From(log.lh, 0)
    ensures (log.start + 1 in log.bc.v.at || exists i :: 0 <= i < NBUF && log.bc.buf[i].refcnt == 0) <==>
              |log.lh| < NBUF
    ensures |log.lh| < NBUF <==> log.bc.Idle()
  {
    var bc := log.bc;
    FromSize(log.lh, 0);
    QuietRefs(bc.buf, bc.v, bc.disk);
    if |log.lh| < NBUF {
      Room(bc.buf, bc.v, bc.disk);
    } else {
      forall i | 0 <= i < NBUF
        ensures bc.buf[i].refcnt != 0 && bc.buf[i].dev != 0 && bc.buf[i].blockno in From(log.lh, 0)
      {
        NoRoom(bc.buf, bc.v, bc.disk, i);
      }
      AllFrom(log.lh);
      assert InLog(log.start, log.start + 1);
    }
  }

  lemma StillValid(log: Log)
    ensures log.Valid() <==> log.bc.Valid() && Laid(log.bc.blocks, log.start, log.lh)
  {
  }

  lemma AgreesParts(log: Log, s: GroupCommit.State)
    requires log.Agrees(s)
    ensures GroupCommit.Inv(s) && s.lh == log.lh && s.outstanding == log.outstanding && s.committing == log.committing
  {
  }

  lemma Agreed(log: Log, s: GroupCommit.State)
    requires GroupCommit.Inv(s) && s.lh == log.lh && s.outstanding == log.outstanding && s.committing == log.committing
    ensures log.Agrees(s)
  {
  }

  lemma {:induction false} FromSize(bl: seq<nat>, k: nat)
    requires k <= |bl| && LogCrash.Distinct(bl)
    ensures |From(bl, k)| == |bl| - k
    decreases |bl| - k
  {
    if k < |bl| {
      FromSize(bl, k + 1);
      FromStep(bl, k);
    }
  }

  lemma AllClean(bc: BCache)
    requires bc.Valid() && bc.Quiet() && bc.v.pins == {}
    ensures bc.disk == bc.v.contents
  {
    forall n | n in bc.blocks ensures bc.v.contents[n] == bc.disk[n] {
      CleanWhenFree(bc.buf, bc.v, bc.disk, n);
    }
  }

  /** The four steps of a commit on the contents of the blocks. */
  lemma CommitEffect(c0: map<nat, Block>, blocks: set<nat>, start: nat, bl: seq<nat>)
    requires Laid(blocks, start, bl) && c0.Keys == blocks
    ensures var slots, data := Slots(start, |bl|), Pick(c0, bl);
            var c1 := Copied(c0, slots, data, |bl|);
            && start in c1 && c1[start] == c0[start]
            && var c2 := c1[start := SetHead(c1[start], bl)];
            && (forall n :: n in slots ==> n in c2) && Pick(c2, slots) == data
            && var c3 := Copied(c2, bl, data, |bl|);
            && start in c3 && c3[start] == c2[start]
            && forall n :: n in blocks && !InLog(start, n) ==> n in c3 && c3[n] == c0[n]
  {
    hide SetHead, SetWord, GetWord, Copied;
    var slots, data := Slots(start, |bl|), Pick(c0, bl);
    Logging(c0, blocks, start, bl);
    var c1 := Copied(c0, slots, data, |bl|);
    Installing(c0, c1, blocks, start, bl, SetHead(c1[start], bl));
  }

  lemma Logging(c0: map<nat, Block>, blocks: set<nat>, start: nat, bl: seq<nat>)
    requires Laid(blocks, start, bl) && c0.Keys == blocks
    ensures var slots, data := Slots(start, |bl|), Pick(c0, bl);
            var c1 := Copied(c0, slots, data, |bl|);
            && start in c1 && c1[start] == c0[start] && blocks <= c1.Keys && start !in slots
            && (forall n :: n in blocks && !InLog(start, n) ==> c1[n] == c0[n])
            && (forall i :: 0 <= i < |bl| ==> slots[i] in c1 && c1[slots[i]] == data[i])
  {
    hide Copied;
    var slots, data := Slots(start, |bl|), Pick(c0, bl);
    assert forall i :: 0 <= i < |bl| ==> InLog(start, slots[i]);
    CopiedAt(c0, slots, data, |bl|);
    assert InLog(start, start) && start !in slots;
  }

  lemma Installing(c0: map<nat, Block>, c1: map<nat, Block>, blocks: set<nat>, start: nat, bl: seq<nat>, head: Block)
    requires Laid(blocks, start, bl) && c0.Keys == blocks <= c1.Keys && start in c1 && start !in Slots(start, |bl|)
    requires forall n :: n in blocks && !InLog(start, n) ==> c1[n] == c0[n]
    requires var slots, data := Slots(start, |bl|), Pick(c0, bl);
             forall i :: 0 <= i < |bl| ==> slots[i] in c1 && c1[slots[i]] == data[i]
    ensures var slots, data := Slots(start, |bl|), Pick(c0, bl);
            var c2 := c1[start := head];
            && (forall n :: n in slots ==> n in c2) && Pick(c2, slots) == data
            && var c3 := Copied(c2, bl, data, |bl|);
            && start in c3 && c3[start] == c2[start]
            && forall n :: n in blocks && !InLog(start, n) ==> n in c3 && c3[n] == c0[n]
  {
    hide Copied, Slots, Pick;
    assert Pick(c1[start := head], Slots(start, |bl|)) == Pick(c0, bl);
    Installation(c0, c1[start := head], blocks, start, bl);
  }

  lemma Installation(c0: map<nat, Block>, c2: map<nat, Block>, blocks: set<nat>, start: nat, bl: seq<nat>)
    requires Laid(blocks, start, bl) && c0.Keys == blocks <= c2.Keys && start in c2
    requires forall n :: n in blocks && !InLog(start, n) ==> c2[n] == c0[n]
    ensures var c3 := Copied(c2, bl, Pick(c0, bl), |bl|);
            && start in c3 && c3[start] == c2[start]
            && forall n :: n in blocks && !InLog(start, n) ==> n in c3 && c3[n] == c0[n]
  {
    assert InLog(start, start) && start !in bl;
    CopiedAt(c2, bl, Pick(c0, bl), |bl|);
    hide Copied, Slots;
    assert forall i :: 0 <= i < |bl| ==> bl[i] in bl;
  }

  lemma WritesAssoc(w: seq<BlockWrite>, start: nat, prior: Block, bl: seq<nat>, data: seq<Block>)
    requires Storable(bl) && 0 < |bl| == |data|
    ensures var head := SetHead(prior, bl);
            w + Copies(Slots(start, |bl|), data, |bl|) + [(start, head)] + Copies(bl, data, |bl|) +
                [(start, SetHead(head, []))]
            == w + CommitWrites(start, prior, bl, data)
  {
    hide SetHead, Copies, Slots;
    var head := SetHead(prior, bl);
    Assoc(w, Copies(Slots(start, |bl|), data, |bl|), [(start, head)], Copies(bl, data, |bl|),
          [(start, SetHead(head, []))]);
  }

  lemma Assoc(w: seq<BlockWrite>, a: seq<BlockWrite>, b: seq<BlockWrite>, c: seq<BlockWrite>, d: seq<BlockWrite>)
    ensures w + a + b + c + d == w + (a + b + c + d)
  {
  }

  lemma RecoverEffect(d: map<nat, Block>, start: nat, w: seq<BlockWrite>)
    requires Recoverable(d, start)
    ensures var bl := HeadBlocks(d[start]);
            var data := Pick(d, Slots(start, |bl|));
            var ws := RecoverWrites(d, start);
            && start in Copied(d, bl, data, |bl|) && Copied(d, bl, data, |bl|)[start] == d[start]
            && w + Copies(bl, data, |bl|) + [(start, SetHead(d[start], []))] == w + ws
            && WrittenTo(d, ws, |ws|) == Copied(d, bl, data, |bl|)[start := SetHead(d[start], [])]
  {
    var bl := HeadBlocks(d[start]);
    var data := Pick(d, Slots(start, |bl|));
    assert InLog(start, start);
    CopiedElsewhere(d, bl, data, |bl|, start);
    CopiedIsWritten(d, bl, data, RecoverWrites(d, start), |bl|);
  }

  lemma {:induction false} CopiedIsWritten(d: map<nat, Block>, bl: seq<nat>, data: seq<Block>, ws: seq<BlockWrite>,
                                           k: nat)
    requires k <= |bl| == |data| <= |ws| && forall i :: 0 <= i < |bl| ==> ws[i] == (bl[i], data[i])
    ensures WrittenTo(d, ws, k) == Copied(d, bl, data, k)
  {
    if k > 0 {
      CopiedIsWritten(d, bl, data, ws, k - 1);
    }
  }
}
