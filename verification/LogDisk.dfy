/** The block writes of kernel/log.c on the real disk, and the proof that the crash model
    of LogCrash speaks about them. */
module LogDisk {
  import opened Params
  import opened Blocks
  import opened LogHeader
  import LogCrash

  predicate InLog(start: nat, n: nat) { start <= n <= start + LOGBLOCKS }

  // ---- The disk as LogCrash sees it -----------------------------------------------------

  ghost predicate Formatted(disk: map<nat, Block>, start: nat) {
    (forall n :: InLog(start, n) ==> n in disk) && HasHead(disk[start])
  }

  ghost function Abs(disk: map<nat, Block>, start: nat): (d: LogCrash.LogDisk<Block>)
    requires Formatted(disk, start)
  {
    LogCrash.LogDisk(
      HeadBlocks(disk[start]),
      seq(LOGBLOCKS, i requires 0 <= i < LOGBLOCKS => disk[start + 1 + i]),
      map n | n in disk && !InLog(start, n) :: disk[n])
  }

  ghost function AbsWrite(start: nat, w: (nat, Block)): (r: LogCrash.Write<Block>)
    requires w.0 == start ==> HasHead(w.1)
  {
    if w.0 == start then LogCrash.ToHead(HeadBlocks(w.1))
    else if InLog(start, w.0) then LogCrash.ToSlot(w.0 - start - 1, w.1)
    else LogCrash.ToHome(w.0, w.1)
  }

  /** One block write on the device is one step of the crash model. */
  lemma WriteRefines(disk: map<nat, Block>, start: nat, w: (nat, Block))
    requires Formatted(disk, start) && w.0 in disk && (w.0 == start ==> HasHead(w.1))
    ensures Formatted(disk[w.0 := w.1], start)
    ensures AbsWrite(start, w).ToSlot? ==> AbsWrite(start, w).slot < LOGBLOCKS
    ensures Abs(disk[w.0 := w.1], start) == LogCrash.Do(Abs(disk, start), AbsWrite(start, w))
  {
    var r := Abs(disk[w.0 := w.1], start);
    var s := LogCrash.Do(Abs(disk, start), AbsWrite(start, w));
    assert r.slots == s.slots;
    assert r.home == s.home;
  }

  // ---- What the device is told to write ---------------------------------------------------

  type BlockWrite = (nat, Block)

  ghost function Pick(m: map<nat, Block>, bl: seq<nat>): (s: seq<Block>)
    requires forall n :: n in bl ==> n in m
    ensures |s| == |bl| && forall i :: 0 <= i < |bl| ==> s[i] == m[bl[i]]
  {
    seq(|bl|, i requires 0 <= i < |bl| => m[bl[i]])
  }

  ghost function Slots(start: nat, n: nat): (s: seq<nat>)
    ensures |s| == n && forall i :: 0 <= i < n ==> s[i] == start + 1 + i
  {
    seq(n, i => start + 1 + i)
  }

  /** The first `k` writes that put `data` in the blocks `bl`. */
  ghost function Copies(bl: seq<nat>, data: seq<Block>, k: nat): (ws: seq<BlockWrite>)
    requires k <= |bl| == |data|
    ensures |ws| == k && forall i :: 0 <= i < k ==> ws[i] == (bl[i], data[i])
  {
    if k == 0 then [] else Copies(bl, data, k - 1) + [(bl[k - 1], data[k - 1])]
  }

  /** A disk, or the contents behind it, after `Copies`. */
  ghost function Copied(m: map<nat, Block>, bl: seq<nat>, data: seq<Block>, k: nat): (r: map<nat, Block>)
    requires k <= |bl| == |data|
  {
    if k == 0 then m else Copied(m, bl, data, k - 1)[bl[k - 1] := data[k - 1]]
  }

  lemma {:induction false} CopiedAt(m: map<nat, Block>, bl: seq<nat>, data: seq<Block>, k: nat)
    requires k <= |bl| == |data| && LogCrash.Distinct(bl) && forall i :: 0 <= i < |bl| ==> bl[i] in m
    ensures var r := Copied(m, bl, data, k);
            && r.Keys == m.Keys
            && (forall i :: 0 <= i < k ==> r[bl[i]] == data[i])
            && (forall n :: n in m && n !in bl ==> r[n] == m[n])
            && (forall i :: k <= i < |bl| ==> r[bl[i]] == m[bl[i]])
  {
    if k > 0 {
      CopiedAt(m, bl, data, k - 1);
    }
  }

  lemma {:induction false} CopiedElsewhere(m: map<nat, Block>, bl: seq<nat>, data: seq<Block>, k: nat, n: nat)
    requires k <= |bl| == |data| && n !in bl && n in m
    ensures n in Copied(m, bl, data, k) && Copied(m, bl, data, k)[n] == m[n]
  {
    if k > 0 {
      CopiedElsewhere(m, bl, data, k - 1, n);
    }
  }

  /** The log region exists, and the header names distinct blocks outside it. */
  ghost predicate Laid(blocks: set<nat>, start: nat, bl: seq<nat>) {
    && (forall n :: InLog(start, n) ==> n in blocks)
    && Storable(bl) && LogCrash.Distinct(bl)
    && (forall n :: n in bl ==> n in blocks && !InLog(start, n))
  }

  // ---- The write sequences ------------------------------------------------------------------

  /** commit(), when the header block held `prior` before. */
  ghost function CommitWrites(start: nat, prior: Block, bl: seq<nat>, data: seq<Block>): (ws: seq<BlockWrite>)
    requires Storable(bl) && |bl| == |data|
  {
    if bl == [] then []
    else
      var head := SetHead(prior, bl);
      Copies(Slots(start, |bl|), data, |bl|) + [(start, head)] + Copies(bl, data, |bl|) + [(start, SetHead(head, []))]
  }

  /** recover_from_log(). */
  ghost function RecoverWrites(disk: map<nat, Block>, start: nat): (ws: seq<BlockWrite>)
    requires Recoverable(disk, start)
  {
    var bl := HeadBlocks(disk[start]);
    Copies(bl, Pick(disk, Slots(start, |bl|)), |bl|) + [(start, SetHead(disk[start], []))]
  }

  /** A disk whose log region is laid out and whose header is sound. */
  ghost predicate Recoverable(disk: map<nat, Block>, start: nat) {
    Formatted(disk, start) && Laid(disk.Keys, start, HeadBlocks(disk[start]))
  }

  ghost function WrittenTo(disk: map<nat, Block>, ws: seq<BlockWrite>, k: nat): (r: map<nat, Block>)
    requires k <= |ws|
  {
    if k == 0 then disk else WrittenTo(disk, ws, k - 1)[ws[k - 1].0 := ws[k - 1].1]
  }

  /** What a crash may leave after `k` of the writes; the next one may be torn, unless it
      is the header. */
  ghost predicate DiskImage(disk: map<nat, Block>, start: nat, ws: seq<BlockWrite>, k: nat, c: map<nat, Block>)
    requires k <= |ws|
  {
    || c == WrittenTo(disk, ws, k)
    || (k < |ws| && ws[k].0 != start && ws[k].0 in c && c == WrittenTo(disk, ws, k)[ws[k].0 := c[ws[k].0]])
  }

  // ---- Refinement ---------------------------------------------------------------------------

  ghost predicate SoundWrites(blocks: set<nat>, start: nat, ws: seq<BlockWrite>) {
    forall i :: 0 <= i < |ws| ==> ws[i].0 in blocks && (ws[i].0 == start ==> HasHead(ws[i].1))
  }

  ghost function Trace(start: nat, ws: seq<BlockWrite>): (r: seq<LogCrash.Write<Block>>)
    requires forall i :: 0 <= i < |ws| ==> ws[i].0 == start ==> HasHead(ws[i].1)
    ensures |r| == |ws| && forall i :: 0 <= i < |ws| ==> r[i] == AbsWrite(start, ws[i])
  {
    seq(|ws|, i requires 0 <= i < |ws| => AbsWrite(start, ws[i]))
  }

  lemma {:induction false} WrittenToRefines(disk: map<nat, Block>, start: nat, ws: seq<BlockWrite>, k: nat)
    requires Formatted(disk, start) && SoundWrites(disk.Keys, start, ws) && k <= |ws|
    ensures LogCrash.SlotsExist(Abs(disk, start), Trace(start, ws))
    ensures var r := WrittenTo(disk, ws, k);
            && r.Keys == disk.Keys && Formatted(r, start)
            && Abs(r, start) == LogCrash.After(Abs(disk, start), Trace(start, ws), k)
  {
    if k > 0 {
      WrittenToRefines(disk, start, ws, k - 1);
      WriteRefines(WrittenTo(disk, ws, k - 1), start, ws[k - 1]);
    }
  }

  lemma DiskImageRefines(disk: map<nat, Block>, start: nat, ws: seq<BlockWrite>, k: nat, c: map<nat, Block>)
    requires Formatted(disk, start) && SoundWrites(disk.Keys, start, ws) && k <= |ws|
    requires DiskImage(disk, start, ws, k, c)
    ensures c.Keys == disk.Keys && Formatted(c, start)
    ensures LogCrash.SlotsExist(Abs(disk, start), Trace(start, ws))
    ensures LogCrash.CrashImage(Abs(disk, start), Trace(start, ws), k, Abs(c, start))
  {
    WrittenToRefines(disk, start, ws, k);
    var r := WrittenTo(disk, ws, k);
    if c != r {
      WriteRefines(r, start, (ws[k].0, c[ws[k].0]));
    }
  }

  lemma CommitRefines(disk: map<nat, Block>, start: nat, prior: Block, bl: seq<nat>, data: seq<Block>)
    requires Formatted(disk, start) && Laid(disk.Keys, start, bl) && |bl| == |data|
    ensures var ws := CommitWrites(start, prior, bl, data);
            && SoundWrites(disk.Keys, start, ws)
            && Trace(start, ws) == LogCrash.CommitWrites(bl, data)
  {
    var ws, ms := CommitWrites(start, prior, bl, data), LogCrash.CommitWrites(bl, data);
    if bl == [] {
      TraceIs(disk.Keys, start, ws, ms);
    } else {
      CommitWriteAt(start, prior, bl, data, 0);
      ModelWriteAt(bl, data, 0);
      hide *;
      forall i | 0 <= i < |ws| ensures SameWrite(disk.Keys, start, ws[i], ms[i]) {
        CommitWriteRefines(disk.Keys, start, prior, bl, data, i);
      }
      TraceIs(disk.Keys, start, ws, ms);
    }
  }

  /** A sound write to the disk, and what it is in the model. */
  ghost predicate SameWrite(blocks: set<nat>, start: nat, w: BlockWrite, m: LogCrash.Write<Block>) {
    w.0 in blocks && (w.0 == start ==> HasHead(w.1)) && AbsWrite(start, w) == m
  }

  lemma TraceIs(blocks: set<nat>, start: nat, ws: seq<BlockWrite>, ms: seq<LogCrash.Write<Block>>)
    requires |ws| == |ms| && forall i :: 0 <= i < |ws| ==> SameWrite(blocks, start, ws[i], ms[i])
    ensures SoundWrites(blocks, start, ws) && Trace(start, ws) == ms
  {
    hide HasHead, AbsWrite;
  }

  lemma CommitWriteRefines(blocks: set<nat>, start: nat, prior: Block, bl: seq<nat>, data: seq<Block>, i: nat)
    requires Laid(blocks, start, bl) && 0 < |bl| == |data| && i < 2 * |bl| + 2
    ensures |CommitWrites(start, prior, bl, data)| == |LogCrash.CommitWrites(bl, data)| == 2 * |bl| + 2
    ensures SameWrite(blocks, start, CommitWrites(start, prior, bl, data)[i], LogCrash.CommitWrites(bl, data)[i])
  {
    hide CommitWrites, LogCrash.CommitWrites, SetHead, SetWord, GetWord;
    CommitWriteAt(start, prior, bl, data, i);
    ModelWriteAt(bl, data, i);
    assert i < |bl| ==> InLog(start, start + 1 + i);
    assert |bl| < i < 2 * |bl| + 1 ==> bl[i - |bl| - 1] in bl;
  }

  lemma ModelWriteAt(bl: seq<nat>, data: seq<Block>, i: nat)
    requires 0 < |bl| == |data| && i < 2 * |bl| + 2
    ensures |LogCrash.CommitWrites(bl, data)| == 2 * |bl| + 2
    ensures var n := |bl|;
            LogCrash.CommitWrites(bl, data)[i] ==
              if i < n then LogCrash.ToSlot(i, data[i])
              else if i == n then LogCrash.ToHead(bl)
              else if i < 2 * n + 1 then LogCrash.ToHome(bl[i - n - 1], data[i - n - 1])
              else LogCrash.ToHead([])
  {
  }

  lemma CommitWriteAt(start: nat, prior: Block, bl: seq<nat>, data: seq<Block>, i: nat)
    requires Storable(bl) && 0 < |bl| == |data| && i < 2 * |bl| + 2
    ensures |CommitWrites(start, prior, bl, data)| == 2 * |bl| + 2
    ensures var n := |bl|;
            CommitWrites(start, prior, bl, data)[i] ==
              if i < n then (start + 1 + i, data[i])
              else if i == n then (start, SetHead(prior, bl))
              else if i < 2 * n + 1 then (bl[i - n - 1], data[i - n - 1])
              else (start, SetHead(SetHead(prior, bl), []))
  {
    hide SetHead, SetWord, GetWord;
  }

  lemma RecoverRefines(disk: map<nat, Block>, start: nat)
    requires Recoverable(disk, start)
    ensures var ws := RecoverWrites(disk, start);
            && SoundWrites(disk.Keys, start, ws)
            && LogCrash.WellFormed(Abs(disk, start))
            && Trace(start, ws) == LogCrash.RecoverWrites(Abs(disk, start))
  {
    hide SetHead, SetWord, GetWord;
    RecoverableIsWellFormed(disk, start);
    var ws, bl := RecoverWrites(disk, start), HeadBlocks(disk[start]);
    forall i | 0 <= i < |ws|
      ensures ws[i].0 in disk.Keys && (ws[i].0 == start ==> HasHead(ws[i].1))
      ensures AbsWrite(start, ws[i]) == LogCrash.RecoverWrites(Abs(disk, start))[i]
    {
      if i < |bl| {
        assert bl[i] in bl;
      } else {
        assert InLog(start, start);
      }
    }
  }

  lemma RecoverableIsWellFormed(disk: map<nat, Block>, start: nat)
    requires Formatted(disk, start)
    ensures Recoverable(disk, start) <==> LogCrash.WellFormed(Abs(disk, start))
  {
    var bl := HeadBlocks(disk[start]);
    if LogCrash.WellFormed(Abs(disk, start)) {
      forall n | n in bl ensures n in disk.Keys && !InLog(start, n) {
        var i :| 0 <= i < |bl| && bl[i] == n;
      }
    } else if Recoverable(disk, start) {
      forall i | 0 <= i < |bl| ensures bl[i] in Abs(disk, start).home {
        assert bl[i] in bl;
      }
    }
  }

  /** A history of crashes during recovery, on the real disk. */
  ghost predicate CrashedRecoveries(start: nat, cs: seq<map<nat, Block>>) {
    forall i :: 0 < i < |cs| ==> CrashedRecovery(start, cs[i - 1], cs[i])
  }

  ghost predicate CrashedRecovery(start: nat, c: map<nat, Block>, c': map<nat, Block>) {
    Recoverable(c, start) && exists k ::
                               0 <= k <= |RecoverWrites(c, start)| &&
                                 DiskImage(c, start, RecoverWrites(c, start), k, c')
  }

  lemma CrashedRecoveryRefines(start: nat, c: map<nat, Block>, c': map<nat, Block>)
    requires CrashedRecovery(start, c, c')
    ensures Formatted(c, start) && Formatted(c', start) && c'.Keys == c.Keys
    ensures LogCrash.CrashedRecovery(Abs(c, start), Abs(c', start))
  {
    var k :| 0 <= k <= |RecoverWrites(c, start)| && DiskImage(c, start, RecoverWrites(c, start), k, c');
    RecoverRefines(c, start);
    DiskImageRefines(c, start, RecoverWrites(c, start), k, c');
  }

  ghost predicate StepRefined(start: nat, c: map<nat, Block>, c': map<nat, Block>) {
    && Formatted(c, start) && Formatted(c', start) && c'.Keys == c.Keys
    && LogCrash.CrashedRecovery(Abs(c, start), Abs(c', start))
  }

  lemma {:induction false} HistoryRefines(start: nat, cs: seq<map<nat, Block>>)
    requires |cs| > 0 && Formatted(cs[0], start) && CrashedRecoveries(start, cs)
    ensures forall i :: 0 <= i < |cs| ==> Formatted(cs[i], start) && cs[i].Keys == cs[0].Keys
    ensures LogCrash.CrashedRecoveries(seq(|cs|, i requires 0 <= i < |cs| => Abs(cs[i], start)))
  {
    forall i | 0 < i < |cs| ensures StepRefined(start, cs[i - 1], cs[i]) {
      CrashedRecoveryRefines(start, cs[i - 1], cs[i]);
    }
    forall i | 0 <= i < |cs| ensures Formatted(cs[i], start) && cs[i].Keys == cs[0].Keys {
      KeysSame(start, cs, i);
    }
    var states := seq(|cs|, i requires 0 <= i < |cs| => Abs(cs[i], start));
    forall i | 0 < i < |states| ensures LogCrash.CrashedRecovery(states[i - 1], states[i]) {
      assert StepRefined(start, cs[i - 1], cs[i]);
    }
  }

  lemma {:induction false} KeysSame(start: nat, cs: seq<map<nat, Block>>, i: nat)
    requires i < |cs| && Formatted(cs[0], start) && forall j :: 0 < j < |cs| ==> StepRefined(start, cs[j - 1], cs[j])
    ensures Formatted(cs[i], start) && cs[i].Keys == cs[0].Keys
  {
    if i > 0 {
      KeysSame(start, cs, i - 1);
      assert StepRefined(start, cs[i - 1], cs[i]);
    }
  }

  /** Crash atomicity on the real disk: `commit()` of `bl`/`data` on a disk with an empty
      log, crashed after `k` of its block writes, any number of crashed recoveries, then
      one recovery that completes. All home blocks are old if the header had not been
      written, and all are new if it had. */
  lemma CommitSurvivesCrashes(disk: map<nat, Block>, start: nat, prior: Block, bl: seq<nat>, data: seq<Block>,
                              k: nat, cs: seq<map<nat, Block>>)
    requires Formatted(disk, start) && HeadBlocks(disk[start]) == []
    requires Laid(disk.Keys, start, bl) && |bl| == |data|
    requires k <= |CommitWrites(start, prior, bl, data)| && |cs| > 0
    requires DiskImage(disk, start, CommitWrites(start, prior, bl, data), k, cs[0])
    requires CrashedRecoveries(start, cs)
    ensures var c := cs[|cs| - 1];
            && Recoverable(c, start)
            && var r := WrittenTo(c, RecoverWrites(c, start), |RecoverWrites(c, start)|);
               && Formatted(r, start) && HeadBlocks(r[start]) == [] && r.Keys == disk.Keys
               && (forall i :: 0 <= i < |bl| ==> r[bl[i]] == if k <= |bl| then disk[bl[i]] else data[i])
               && (forall n :: n in disk && !InLog(start, n) && n !in bl ==> r[n] == disk[n])
  {
    var ws := CommitWrites(start, prior, bl, data);
    CommitRefines(disk, start, prior, bl, data);
    DiskImageRefines(disk, start, ws, k, cs[0]);
    HistoryRefines(start, cs);
    var abs := seq(|cs|, i requires 0 <= i < |cs| => Abs(cs[i], start));
    LaidIsLoggable(disk, start, bl);
    LogCrash.CrashAtomicity(Abs(disk, start), bl, data, k, abs);
    var c := cs[|cs| - 1];
    assert abs[|abs| - 1] == Abs(c, start);
    RecoverableIsWellFormed(c, start);
    RecoverRefines(c, start);
    var r := WrittenTo(c, RecoverWrites(c, start), |RecoverWrites(c, start)|);
    WrittenToRefines(c, start, RecoverWrites(c, start), |RecoverWrites(c, start)|);
    HomeValues(disk, r, start, bl, data, k);
  }

  lemma LaidIsLoggable(disk: map<nat, Block>, start: nat, bl: seq<nat>)
    requires Formatted(disk, start) && Laid(disk.Keys, start, bl)
    ensures LogCrash.Loggable(Abs(disk, start), bl)
  {
    forall i | 0 <= i < |bl| ensures bl[i] in Abs(disk, start).home {
      assert bl[i] in bl;
    }
  }

  lemma HomeValues(disk: map<nat, Block>, r: map<nat, Block>, start: nat, bl: seq<nat>, data: seq<Block>, k: nat)
    requires Formatted(disk, start) && Formatted(r, start) && Laid(disk.Keys, start, bl) && |bl| == |data|
    requires Abs(r, start).home == if k <= |bl| then Abs(disk, start).home
                                   else LogCrash.Overlay(Abs(disk, start).home, bl, data)
    ensures forall i :: 0 <= i < |bl| ==> bl[i] in r && r[bl[i]] == if k <= |bl| then disk[bl[i]] else data[i]
    ensures forall n :: n in disk && !InLog(start, n) && n !in bl ==> n in r && r[n] == disk[n]
  {
    var h, h' := Abs(disk, start).home, Abs(r, start).home;
    forall i | 0 <= i < |bl| ensures bl[i] in r && r[bl[i]] == if k <= |bl| then disk[bl[i]] else data[i] {
      assert bl[i] in bl && bl[i] in h && bl[i] in h';
    }
    forall n | n in disk && !InLog(start, n) && n !in bl ensures n in r && r[n] == disk[n] {
      assert n in h && n in h';
    }
  }
}
