/** The redo log of kernel/log.c as the disk sees it: what the header means, the writes
    that a commit and a recovery issue, and why no crash point is visible.
    `T` is the content of a block. */
module LogCrash {
  import opened Params

  /** A disk split into the log header (the block numbers it names), the log blocks that
      follow it, and the home blocks outside the log. */
  datatype LogDisk<T> = LogDisk(head: seq<nat>, slots: seq<T>, home: map<nat, T>)

  datatype Write<T> =
    | ToHead(blocks: seq<nat>)
    | ToSlot(slot: nat, data: T)
    | ToHome(block: nat, data: T)

  ghost function Do<T>(d: LogDisk<T>, w: Write<T>): (r: LogDisk<T>)
    requires w.ToSlot? ==> w.slot < |d.slots|
  {
    match w
    case ToHead(bl) => d.(head := bl)
    case ToSlot(i, data) => d.(slots := d.slots[i := data])
    case ToHome(b, data) => d.(home := d.home[b := data])
  }

  ghost predicate SlotsExist<T>(d: LogDisk<T>, ws: seq<Write<T>>) {
    forall w :: w in ws && w.ToSlot? ==> w.slot < |d.slots|
  }

  /** The disk after the device has performed the first `k` of the writes `ws`. */
  ghost function After<T>(d: LogDisk<T>, ws: seq<Write<T>>, k: nat): (r: LogDisk<T>)
    requires k <= |ws| && SlotsExist(d, ws)
    ensures |r.slots| == |d.slots|
  {
    if k == 0 then d else Do(After(d, ws, k - 1), ws[k - 1])
  }

  ghost predicate Distinct(bl: seq<nat>) {
    forall i, j :: 0 <= i < j < |bl| ==> bl[i] != bl[j]
  }

  /** Block numbers a transaction may hold: few enough, distinct, all home blocks. */
  ghost predicate Loggable<T>(d: LogDisk<T>, bl: seq<nat>) {
    && |bl| <= |d.slots| == LOGBLOCKS
    && Distinct(bl)
    && forall i :: 0 <= i < |bl| ==> bl[i] in d.home
  }

  ghost predicate WellFormed<T>(d: LogDisk<T>) { Loggable(d, d.head) }

  /** `home` with the transaction `bl`/`data` written over it. */
  ghost function Overlay<T>(home: map<nat, T>, bl: seq<nat>, data: seq<T>): (r: map<nat, T>)
    requires |bl| <= |data|
    ensures r.Keys == home.Keys
    ensures Distinct(bl) ==> forall i :: 0 <= i < |bl| && bl[i] in home ==> r[bl[i]] == data[i]
    ensures forall b :: b in home && b !in bl ==> r[b] == home[b]
  {
    map b | b in home :: if b in bl then var i :| 0 <= i < |bl| && bl[i] == b; data[i] else home[b]
  }

  /** What the file system means by this disk: a home block is read through the committed
      transaction if the header names it. */
  ghost function Meaning<T>(d: LogDisk<T>): (m: map<nat, T>)
    requires WellFormed(d)
  {
    Overlay(d.home, d.head, d.slots)
  }

  // ---- The writes of log.c ------------------------------------------------------------

  /** write_log(): copy the modified blocks into the log. */
  ghost function LogWrites<T>(data: seq<T>): (ws: seq<Write<T>>) {
    seq(|data|, i requires 0 <= i < |data| => ToSlot(i, data[i]))
  }

  /** install_trans(): copy the log to the home blocks. */
  ghost function InstallWrites<T>(bl: seq<nat>, data: seq<T>): (ws: seq<Write<T>>)
    requires |bl| <= |data|
  {
    seq(|bl|, i requires 0 <= i < |bl| => ToHome(bl[i], data[i]))
  }

  /** commit(): fill the log, write the header, install, clear the header. */
  ghost function CommitWrites<T>(bl: seq<nat>, data: seq<T>): (ws: seq<Write<T>>)
    requires |bl| == |data|
  {
    if bl == [] then [] else LogWrites(data) + [ToHead(bl)] + InstallWrites(bl, data) + [ToHead([])]
  }

  /** recover_from_log(): install whatever the header names, clear the header. */
  ghost function RecoverWrites<T>(d: LogDisk<T>): (ws: seq<Write<T>>)
    requires WellFormed(d)
  {
    InstallWrites(d.head, d.slots) + [ToHead([])]
  }

  /** A disk image that a crash may leave while `ws` is being written to `d`: the first
      `k` writes are done, and the next one may have torn any block but the header
      (which fits in one sector, so it is either old or new). */
  ghost predicate CrashImage<T>(d: LogDisk<T>, ws: seq<Write<T>>, k: nat, c: LogDisk<T>)
    requires k <= |ws| && SlotsExist(d, ws)
  {
    || c == After(d, ws, k)
    || (k < |ws| && Torn(After(d, ws, k), ws[k], c))
  }

  ghost predicate Torn<T>(d: LogDisk<T>, w: Write<T>, c: LogDisk<T>)
    requires w.ToSlot? ==> w.slot < |d.slots|
  {
    match w
    case ToHead(_) => false
    case ToSlot(i, _) => |c.slots| == |d.slots| && c == Do(d, ToSlot(i, c.slots[i]))
    case ToHome(b, _) => b in c.home && c == Do(d, ToHome(b, c.home[b]))
  }

  ghost predicate CrashedRecovery<T>(c: LogDisk<T>, c': LogDisk<T>) {
    WellFormed(c) && exists k :: 0 <= k <= |RecoverWrites(c)| && CrashImage(c, RecoverWrites(c), k, c')
  }

  /** `cs` is a history of crashes during recovery: every image is what a crash left of
      the recovery that the previous image had started. */
  ghost predicate CrashedRecoveries<T>(cs: seq<LogDisk<T>>) {
    forall i :: 0 < i < |cs| ==> CrashedRecovery(cs[i - 1], cs[i])
  }

  // ---- Recovery -----------------------------------------------------------------------

  /** After installing the first `k` blocks. */
  lemma {:induction false} InstallPrefix<T>(d: LogDisk<T>, bl: seq<nat>, data: seq<T>, ws: seq<Write<T>>, k: nat)
    requires Loggable(d, bl) && |bl| <= |data| && |bl| <= |ws| && k <= |bl| && SlotsExist(d, ws)
    requires forall i :: 0 <= i < |bl| ==> ws[i] == ToHome(bl[i], data[i])
    ensures var r := After(d, ws, k);
            && r == d.(home := r.home) && r.home.Keys == d.home.Keys
            && (forall i :: 0 <= i < k ==> r.home[bl[i]] == data[i])
            && forall b :: b in d.home && b !in bl ==> r.home[b] == d.home[b]
  {
    if k > 0 {
      InstallPrefix(d, bl, data, ws, k - 1);
    }
  }

  /** Blocks that the header names are read from the log, so what a half-done install
      left at home does not show. */
  lemma InstallKeepsMeaning<T>(c: LogDisk<T>, k: nat, c': LogDisk<T>)
    requires WellFormed(c) && k <= |c.head|
    requires CrashImage(c, RecoverWrites(c), k, c')
    ensures WellFormed(c') && Meaning(c') == Meaning(c) && c'.home.Keys == c.home.Keys
  {
    InstallPrefix(c, c.head, c.slots, RecoverWrites(c), k);
    assert forall b :: b in c.home && b !in c.head ==> c'.home[b] == c.home[b];
  }

  /** A completed recovery puts every home block at the value the log promised and leaves
      the log empty. */
  lemma RecoveryCompletes<T>(c: LogDisk<T>)
    requires WellFormed(c)
    ensures var r := After(c, RecoverWrites(c), |c.head| + 1);
            && WellFormed(r) && r.head == [] && r.slots == c.slots
            && r.home == Meaning(c) && Meaning(r) == Meaning(c)
  {
    InstallPrefix(c, c.head, c.slots, RecoverWrites(c), |c.head|);
    var r := After(c, RecoverWrites(c), |c.head| + 1);
    assert forall b :: b in c.home ==> r.home[b] == Meaning(c)[b];
  }

  /** A crash anywhere in recovery leaves a disk with the same meaning. */
  lemma CrashedRecoveryKeepsMeaning<T>(c: LogDisk<T>, c': LogDisk<T>)
    requires CrashedRecovery(c, c')
    ensures WellFormed(c') && Meaning(c') == Meaning(c)
  {
    var k :| 0 <= k <= |RecoverWrites(c)| && CrashImage(c, RecoverWrites(c), k, c');
    if k <= |c.head| {
      InstallKeepsMeaning(c, k, c');
    } else {
      RecoveryCompletes(c);
      hide Meaning, WellFormed, After;
    }
  }

  /** ... and so does any number of crashed recoveries in a row. */
  lemma {:induction false} CrashedRecoveriesKeepMeaning<T>(cs: seq<LogDisk<T>>)
    requires |cs| > 0 && WellFormed(cs[0]) && CrashedRecoveries(cs)
    ensures WellFormed(cs[|cs| - 1]) && Meaning(cs[|cs| - 1]) == Meaning(cs[0])
  {
    if |cs| > 1 {
      CrashedRecoveriesKeepMeaning(cs[..|cs| - 1]);
      CrashedRecoveryKeepsMeaning(cs[|cs| - 2], cs[|cs| - 1]);
    }
  }

  // ---- Commit -------------------------------------------------------------------------

  lemma {:induction false} LogPrefix<T>(d: LogDisk<T>, data: seq<T>, ws: seq<Write<T>>, k: nat)
    requires |data| <= |d.slots| && k <= |data| <= |ws| && SlotsExist(d, ws)
    requires forall i :: 0 <= i < |data| ==> ws[i] == ToSlot(i, data[i])
    ensures var r := After(d, ws, k);
            && r == d.(slots := r.slots)
            && forall i :: 0 <= i < k ==> r.slots[i] == data[i]
  {
    if k > 0 {
      LogPrefix(d, data, ws, k - 1);
    }
  }

  /** The disk right after the header write, with the transaction in the log. */
  ghost function Committed<T>(d: LogDisk<T>, bl: seq<nat>, data: seq<T>): (c: LogDisk<T>)
    requires |bl| == |data| <= |d.slots|
  {
    d.(head := bl, slots := data + d.slots[|data|..])
  }

  /** Until the header is written, a crash leaves the old file system. */
  lemma LogPhaseKeepsMeaning<T>(d: LogDisk<T>, bl: seq<nat>, data: seq<T>, k: nat, c: LogDisk<T>)
    requires WellFormed(d) && d.head == [] && Loggable(d, bl) && |data| == |bl| > 0 && k <= |bl|
    requires CrashImage(d, CommitWrites(bl, data), k, c)
    ensures WellFormed(c) && Meaning(c) == Meaning(d)
  {
    LogPrefix(d, data, CommitWrites(bl, data), k);
    assert c.head == [] && c.home == d.home;
  }

  /** The header write is where the transaction commits, and what follows it in commit()
      is exactly a recovery. */
  lemma CommitEndsAsRecovery<T>(d: LogDisk<T>, bl: seq<nat>, data: seq<T>)
    requires WellFormed(d) && d.head == [] && Loggable(d, bl) && |data| == |bl| > 0
    ensures var ws := CommitWrites(bl, data);
            var c := Committed(d, bl, data);
            && |ws| == 2 * |bl| + 2 && SlotsExist(d, ws)
            && After(d, ws, |bl| + 1) == c
            && WellFormed(c) && ws[|bl| + 1..] == RecoverWrites(c)
  {
    var ws := CommitWrites(bl, data);
    CommitShape(d, bl, data);
    hide CommitWrites;
    LogTailUntouched(d, ws, data, |bl|);
    LogPrefix(d, data, ws, |bl|);
    assert After(d, ws, |bl|).slots == data + d.slots[|data|..];
  }

  lemma CommitShape<T>(d: LogDisk<T>, bl: seq<nat>, data: seq<T>)
    requires Loggable(d, bl) && |data| == |bl| > 0
    ensures var ws := CommitWrites(bl, data);
            && |ws| == 2 * |bl| + 2 && SlotsExist(d, ws)
            && (forall i :: 0 <= i < |bl| ==> ws[i] == ToSlot(i, data[i])) && ws[|bl|] == ToHead(bl)
            && ws[|bl| + 1..] == InstallWrites(bl, data + d.slots[|data|..]) + [ToHead([])]
  {
  }

  lemma {:induction false} LogTailUntouched<T>(d: LogDisk<T>, ws: seq<Write<T>>, data: seq<T>, k: nat)
    requires k <= |data| <= |ws| && SlotsExist(d, ws)
    requires forall i :: 0 <= i < |data| ==> ws[i] == ToSlot(i, data[i])
    ensures forall i :: |data| <= i < |d.slots| ==> After(d, ws, k).slots[i] == d.slots[i]
  {
    if k > 0 {
      LogTailUntouched(d, ws, data, k - 1);
    }
  }

  /** Writing in two rounds is writing once. */
  lemma {:induction false} AfterSplit<T>(d: LogDisk<T>, ws: seq<Write<T>>, n: nat, k: nat)
    requires n + k <= |ws| && SlotsExist(d, ws)
    ensures SlotsExist(After(d, ws, n), ws[n..])
    ensures After(d, ws, n + k) == After(After(d, ws, n), ws[n..], k)
  {
    if k > 0 {
      AfterSplit(d, ws, n, k - 1);
    }
  }

  /** From the header write on, a crash leaves the new file system. */
  lemma InstallPhaseKeepsMeaning<T>(d: LogDisk<T>, bl: seq<nat>, data: seq<T>, k: nat, c: LogDisk<T>)
    requires WellFormed(d) && d.head == [] && Loggable(d, bl) && |data| == |bl| > 0
    requires |bl| < k <= |CommitWrites(bl, data)|
    requires CrashImage(d, CommitWrites(bl, data), k, c)
    ensures WellFormed(c) && Meaning(c) == Meaning(Committed(d, bl, data))
  {
    var ws := CommitWrites(bl, data);
    var mid := Committed(d, bl, data);
    hide *;
    CommitEndsAsRecovery(d, bl, data);
    CrashSplit(d, ws, |bl| + 1, k - |bl| - 1, c);
    IsCrashedRecovery(mid, k - |bl| - 1, c);
    CrashedRecoveryKeepsMeaning(mid, c);
  }

  lemma IsCrashedRecovery<T>(c: LogDisk<T>, k: nat, c': LogDisk<T>)
    requires WellFormed(c) && k <= |RecoverWrites(c)| && CrashImage(c, RecoverWrites(c), k, c')
    ensures CrashedRecovery(c, c')
  {
  }

  /** A crash after `n + k` writes is a crash after `k` of the writes that follow the first `n`. */
  lemma CrashSplit<T>(d: LogDisk<T>, ws: seq<Write<T>>, n: nat, k: nat, c: LogDisk<T>)
    requires n + k <= |ws| && SlotsExist(d, ws) && CrashImage(d, ws, n + k, c)
    ensures SlotsExist(After(d, ws, n), ws[n..]) && CrashImage(After(d, ws, n), ws[n..], k, c)
  {
    AfterSplit(d, ws, n, k);
    hide After;
  }

  /** Crash atomicity. Let a commit of `bl`/`data` on a disk with an empty log crash after
      `k` of its writes (the next one possibly torn), let any number of recoveries crash
      in turn, and let a last recovery complete. Then the log is empty, every home block
      has its old value if the header write had not happened, and every home block has
      its new value if it had. */
  lemma CrashAtomicity<T>(d: LogDisk<T>, bl: seq<nat>, data: seq<T>, k: nat, cs: seq<LogDisk<T>>)
    requires WellFormed(d) && d.head == [] && Loggable(d, bl) && |data| == |bl|
    requires k <= |CommitWrites(bl, data)|
    requires |cs| > 0 && CrashImage(d, CommitWrites(bl, data), k, cs[0])
    requires CrashedRecoveries(cs)
    ensures var c := cs[|cs| - 1];
            && WellFormed(c)
            && var r := After(c, RecoverWrites(c), |RecoverWrites(c)|);
               && r.head == []
               && r.home == if k <= |bl| then d.home else Overlay(d.home, bl, data)
  {
    assert Meaning(d) == d.home;
    if bl == [] {
      assert cs[0] == d;
    } else if k <= |bl| {
      LogPhaseKeepsMeaning(d, bl, data, k, cs[0]);
    } else {
      InstallPhaseKeepsMeaning(d, bl, data, k, cs[0]);
      CommittedMeans(d, bl, data);
    }
    CrashedRecoveriesKeepMeaning(cs);
    RecoveryCompletes(cs[|cs| - 1]);
  }

  /** A commit that is not interrupted installs the whole transaction. */
  lemma CommitCompletes<T>(d: LogDisk<T>, bl: seq<nat>, data: seq<T>)
    requires WellFormed(d) && d.head == [] && Loggable(d, bl) && |data| == |bl|
    ensures SlotsExist(d, CommitWrites(bl, data))
    ensures var r := After(d, CommitWrites(bl, data), |CommitWrites(bl, data)|);
            r.head == [] && r.home == Overlay(d.home, bl, data)
  {
    if bl != [] {
      var ws := CommitWrites(bl, data);
      var mid := Committed(d, bl, data);
      CommittedMeans(d, bl, data);
      hide *;
      CommitEndsAsRecovery(d, bl, data);
      AfterSplit(d, ws, |bl| + 1, |bl| + 1);
      RecoveryCompletes(mid);
    }
  }

  lemma CommittedMeans<T>(d: LogDisk<T>, bl: seq<nat>, data: seq<T>)
    requires WellFormed(d) && d.head == [] && Loggable(d, bl) && |data| == |bl| > 0
    ensures var c := Committed(d, bl, data); WellFormed(c) && c.head == bl && Meaning(c) == Overlay(d.home, bl, data)
  {
  }
}
