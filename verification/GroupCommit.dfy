/** begin_op(), log_write() and end_op() of kernel/log.c under every interleaving: group
    commit, log space reservation, and sleeping for log space. Each step is one critical
    section of log.lock. */
module GroupCommit {
  import opened Params

  /** Where a process stands with respect to the log. */
  datatype Proc =
    | Outside
    | Trying                       // in begin_op()'s loop, about to test
    | Sleeping                     // in sleep(&log, &log.lock)
    | Open(op: nat, spent: nat)    // between begin_op() and end_op(); log slots it has taken
    | Committer                    // in commit(), called by end_op()

  /** A log_write() that happened: by which operation, of which block, in which group. */
  datatype Logged = Logged(op: nat, block: nat, group: nat)

  datatype State = State(
    lh: seq<nat>,                  // log.lh
    outstanding: nat,              // log.outstanding
    committing: bool,              // log.committing
    procs: seq<Proc>,
    group: nat,                    // history: number of groups committed so far
    began: seq<nat>,               // history: operation -> the group it began in
    writes: seq<Logged>)           // history: every log_write() so far

  // ---- The tests and updates of log.c ----------------------------------------------------

  /** begin_op() has to sleep. */
  predicate MustWait(lh: seq<nat>, outstanding: nat, committing: bool) {
    committing || |lh| + (outstanding + 1) * MAXOPBLOCKS > LOGBLOCKS
  }

  /** log_write() records a block once (log absorption). */
  function Absorb(lh: seq<nat>, block: nat): (r: seq<nat>) {
    if block in lh then lh else lh + [block]
  }

  /** log_write() would panic. */
  predicate Panics(lh: seq<nat>, outstanding: nat) { |lh| >= LOGBLOCKS || outstanding < 1 }

  function WakeAll(procs: seq<Proc>): (r: seq<Proc>)
    ensures |r| == |procs|
    ensures forall i :: 0 <= i < |r| ==> r[i] == if procs[i].Sleeping? then Trying else procs[i]
  {
    seq(|procs|, i requires 0 <= i < |procs| => if procs[i].Sleeping? then Trying else procs[i])
  }

  // ---- Steps ---------------------------------------------------------------------------------

  ghost predicate Enter(s: State, s': State, p: nat)
    requires p < |s.procs|
  {
    s.procs[p].Outside? && s' == s.(procs := s.procs[p := Trying])
  }

  /** One iteration of begin_op()'s loop. */
  ghost function Began(s: State, p: nat): (s': State)
    requires p < |s.procs|
  {
    if MustWait(s.lh, s.outstanding, s.committing) then s.(procs := s.procs[p := Sleeping])
    else s.(outstanding := s.outstanding + 1, procs := s.procs[p := Open(|s.began|, 0)], began := s.began + [s.group])
  }

  ghost predicate BeginOp(s: State, s': State, p: nat)
    requires p < |s.procs|
  {
    s.procs[p].Trying? && s' == Began(s, p)
  }

  /** kkill() wakes a sleeper for no reason of the log's. */
  ghost predicate Spurious(s: State, s': State, p: nat)
    requires p < |s.procs|
  {
    s.procs[p].Sleeping? && s' == s.(procs := s.procs[p := Trying])
  }

  /** log_write() by an operation that has reserved space left. */
  ghost function Wrote(s: State, p: nat, block: nat): (s': State)
    requires p < |s.procs| && s.procs[p].Open?
  {
    var spent := s.procs[p].spent + |Absorb(s.lh, block)| - |s.lh|;
    s.(lh := Absorb(s.lh, block),
       procs := s.procs[p := s.procs[p].(spent := spent)],
       writes := s.writes + [Logged(s.procs[p].op, block, s.group)])
  }

  ghost predicate LogWrite(s: State, s': State, p: nat, block: nat)
    requires p < |s.procs|
  {
    s.procs[p].Open? && s.procs[p].spent < MAXOPBLOCKS && s' == Wrote(s, p, block)
  }

  /** end_op() up to its first release(). */
  ghost function Ended(s: State, p: nat): (s': State)
    requires p < |s.procs| && s.outstanding > 0
  {
    if s.outstanding == 1 then s.(outstanding := 0, committing := true, procs := s.procs[p := Committer])
    else s.(outstanding := s.outstanding - 1, procs := WakeAll(s.procs[p := Outside]))
  }

  ghost predicate EndOp(s: State, s': State, p: nat)
    requires p < |s.procs|
  {
    s.procs[p].Open? && s.outstanding > 0 && s' == Ended(s, p)
  }

  /** commit(), when something was logged: empties the log. */
  ghost predicate Commit(s: State, s': State, p: nat)
    requires p < |s.procs|
  {
    s.procs[p].Committer? && s.lh != [] && s' == s.(lh := [], group := s.group + 1)
  }

  /** The rest of end_op(), once there is nothing left to commit. */
  ghost predicate FinishCommit(s: State, s': State, p: nat)
    requires p < |s.procs|
  {
    && s.procs[p].Committer? && s.lh == []
    && s' == s.(committing := false, procs := WakeAll(s.procs[p := Outside]))
  }

  /** commit() and the rest of end_op(). */
  ghost predicate Finishes(s: State, s': State, p: nat)
    requires p < |s.procs|
  {
    if s.lh == [] then FinishCommit(s, s', p)
    else var s1 := s.(lh := [], group := s.group + 1); Commit(s, s1, p) && FinishCommit(s1, s', p)
  }

  ghost function Finished(s: State, p: nat): (s': State)
    requires p < |s.procs|
  {
    var s1 := if s.lh == [] then s else s.(lh := [], group := s.group + 1);
    s1.(committing := false, procs := WakeAll(s.procs[p := Outside]))
  }

  ghost predicate Step(s: State, s': State, p: nat, block: nat) {
    && p < |s.procs|
    && (|| Enter(s, s', p) || BeginOp(s, s', p) || Spurious(s, s', p) || LogWrite(s, s', p, block)
        || EndOp(s, s', p) || Commit(s, s', p) || FinishCommit(s, s', p))
  }

  ghost predicate Next(s: State, s': State) { exists p, block :: Step(s, s', p, block) }

  ghost predicate Init(s: State) {
    && s.lh == [] && s.outstanding == 0 && !s.committing && s.began == [] && s.writes == []
    && forall i :: 0 <= i < |s.procs| ==> s.procs[i].Outside?
  }

  /** A run of any length, with any scheduling. */
  ghost predicate Run(run: seq<State>) {
    && |run| > 0 && Init(run[0])
    && forall i :: 0 < i < |run| ==> Next(run[i - 1], run[i])
  }

  // ---- Counting --------------------------------------------------------------------------------

  function Opens(procs: seq<Proc>, k: nat): (n: nat)
    requires k <= |procs|
  {
    if k == 0 then 0 else Opens(procs, k - 1) + if procs[k - 1].Open? then 1 else 0
  }

  /** The log space that open operations have reserved and not used. */
  function Unspent(procs: seq<Proc>, k: nat): (n: int)
    requires k <= |procs|
  {
    if k == 0 then 0
    else Unspent(procs, k - 1) + if procs[k - 1].Open? then MAXOPBLOCKS - procs[k - 1].spent else 0
  }

  function Share(p: Proc): int { if p.Open? then MAXOPBLOCKS - p.spent else 0 }

  lemma {:induction false} UpdateOne(procs: seq<Proc>, p: nat, x: Proc, k: nat)
    requires p < |procs| && k <= |procs|
    ensures Opens(procs[p := x], k) == Opens(procs, k) +
              if p < k then (if x.Open? then 1 else 0) - (if procs[p].Open? then 1 else 0) else 0
    ensures Unspent(procs[p := x], k) == Unspent(procs, k) + if p < k then Share(x) - Share(procs[p]) else 0
  {
    if k > 0 {
      UpdateOne(procs, p, x, k - 1);
    }
  }

  lemma {:induction false} WakingCountsNothing(procs: seq<Proc>, k: nat)
    requires k <= |procs|
    ensures Opens(WakeAll(procs), k) == Opens(procs, k) && Unspent(WakeAll(procs), k) == Unspent(procs, k)
  {
    if k > 0 {
      WakingCountsNothing(procs, k - 1);
    }
  }

  lemma {:induction false} Bounds(procs: seq<Proc>, k: nat)
    requires k <= |procs| && forall i :: 0 <= i < |procs| && procs[i].Open? ==> procs[i].spent <= MAXOPBLOCKS
    ensures 0 <= Unspent(procs, k) <= Opens(procs, k) * MAXOPBLOCKS
    ensures forall i :: 0 <= i < k && procs[i].Open? ==>
                          Unspent(procs, k) >= MAXOPBLOCKS - procs[i].spent && Opens(procs, k) >= 1
  {
    if k > 0 {
      Bounds(procs, k - 1);
    }
  }

  // ---- The invariant -------------------------------------------------------------------------

  /** outstanding counts the open operations; at most one process commits, and only when
      none is open. */
  ghost predicate Exclusive(s: State) {
    && s.outstanding == Opens(s.procs, |s.procs|)
    && (s.committing ==> s.outstanding == 0)
    && (forall i :: 0 <= i < |s.procs| && s.procs[i].Committer? ==> s.committing)
    && (forall i, j :: 0 <= i < j < |s.procs| ==> !(s.procs[i].Committer? && s.procs[j].Committer?))
  }

  /** The blocks in the header plus what open operations may still add fit in the log. */
  ghost predicate Reserved(s: State) {
    && (forall i :: 0 <= i < |s.procs| && s.procs[i].Open? ==> s.procs[i].spent <= MAXOPBLOCKS)
    && |s.lh| + Unspent(s.procs, |s.procs|) <= LOGBLOCKS
  }

  /** A process sleeps in begin_op() only while it would have to: no wakeup is lost. */
  ghost predicate SleepersMustWait(s: State) {
    forall i :: 0 <= i < |s.procs| && s.procs[i].Sleeping? ==> MustWait(s.lh, s.outstanding, s.committing)
  }

  /** Open operations belong to the group being formed; every logged write is in the group
      its operation began in; the header holds exactly the blocks of the current group,
      each once. */
  ghost predicate Grouped(s: State) {
    && (forall i :: 0 <= i < |s.procs| && s.procs[i].Open? ==>
          s.procs[i].op < |s.began| && s.began[s.procs[i].op] == s.group)
    && (forall w :: w in s.writes ==> w.op < |s.began| && w.group == s.began[w.op] <= s.group)
    && (forall b :: b in s.lh <==> exists w :: w in s.writes && w.group == s.group && w.block == b)
    && (forall i, j :: 0 <= i < j < |s.lh| ==> s.lh[i] != s.lh[j])
  }

  ghost predicate Inv(s: State) { Exclusive(s) && Reserved(s) && SleepersMustWait(s) && Grouped(s) }

  // ---- Every step keeps it -------------------------------------------------------------------

  /** How a step changes the two counts. */
  lemma StepCounts(s: State, s': State, p: nat, block: nat)
    requires Step(s, s', p, block)
    ensures |s'.procs| == |s.procs|
    ensures var d := Opens(s'.procs, |s.procs|) - Opens(s.procs, |s.procs|);
            d == (if s'.procs[p].Open? then 1 else 0) - (if s.procs[p].Open? then 1 else 0)
    ensures var d := Unspent(s'.procs, |s.procs|) - Unspent(s.procs, |s.procs|);
            d == Share(s'.procs[p]) - Share(s.procs[p])
    ensures forall i :: 0 <= i < |s.procs| && i != p ==>
              s'.procs[i] == s.procs[i] || (s.procs[i].Sleeping? && s'.procs[i].Trying?)
  {
    if s.procs[p].Open? || s.procs[p].Committer? {
      UpdateOne(s.procs, p, Outside, |s.procs|);
      WakingCountsNothing(s.procs[p := Outside], |s.procs|);
    }
    if !s'.procs[p].Outside? {
      UpdateOne(s.procs, p, s'.procs[p], |s.procs|);
    }
  }

  lemma KeepsExclusive(s: State, s': State, p: nat, block: nat)
    requires Inv(s) && Step(s, s', p, block)
    ensures Exclusive(s')
  {
    StepCounts(s, s', p, block);
    Bounds(s.procs, |s.procs|);
  }

  lemma KeepsReserved(s: State, s': State, p: nat, block: nat)
    requires Inv(s) && Step(s, s', p, block)
    ensures Reserved(s')
  {
    StepCounts(s, s', p, block);
    Bounds(s.procs, |s.procs|);
  }

  lemma KeepsSleepersMustWait(s: State, s': State, p: nat, block: nat)
    requires Inv(s) && Step(s, s', p, block)
    ensures SleepersMustWait(s')
  {
    StepCounts(s, s', p, block);
    Bounds(s.procs, |s.procs|);
  }

  lemma KeepsGrouped(s: State, s': State, p: nat, block: nat)
    requires Inv(s) && Step(s, s', p, block)
    ensures Grouped(s')
  {
    if LogWrite(s, s', p, block) {
      WriteKeepsGrouped(s, s', p, block);
      return;
    }
    Bounds(s.procs, |s.procs|);
    if Commit(s, s', p) {
      assert Exclusive(s);
    }
  }

  lemma WriteKeepsGrouped(s: State, s': State, p: nat, block: nat)
    requires Inv(s) && p < |s.procs| && LogWrite(s, s', p, block)
    ensures Grouped(s')
  {
    HeaderGains(s, s', p, block);
    hide Exclusive, Reserved, SleepersMustWait;
  }

  lemma HeaderGains(s: State, s': State, p: nat, block: nat)
    requires Inv(s) && p < |s.procs| && LogWrite(s, s', p, block)
    ensures forall b :: b in s'.lh <==> exists w :: w in s'.writes && w.group == s'.group && w.block == b
  {
    var w0 := Logged(s.procs[p].op, block, s.group);
    forall b ensures b in s'.lh <==> exists w :: w in s'.writes && w.group == s'.group && w.block == b {
      if b == block {
        assert w0 in s'.writes;
      } else if b in s.lh {
        var w :| w in s.writes && w.group == s.group && w.block == b;
        assert w in s'.writes;
      }
    }
  }

  lemma StepKeepsInv(s: State, s': State)
    requires Inv(s) && Next(s, s')
    ensures Inv(s')
  {
    var p, block :| Step(s, s', p, block);
    KeepsExclusive(s, s', p, block);
    KeepsReserved(s, s', p, block);
    KeepsSleepersMustWait(s, s', p, block);
    KeepsGrouped(s, s', p, block);
  }

  lemma {:induction false} NoOpens(procs: seq<Proc>, k: nat)
    requires k <= |procs| && forall i :: 0 <= i < |procs| ==> procs[i].Outside?
    ensures Opens(procs, k) == 0 && Unspent(procs, k) == 0
  {
    if k > 0 {
      NoOpens(procs, k - 1);
    }
  }

  /** The invariant holds after every prefix of every run. */
  lemma {:induction false} RunKeepsInv(run: seq<State>, i: nat)
    requires Run(run) && i < |run|
    ensures Inv(run[i])
  {
    if i == 0 {
      NoOpens(run[0].procs, |run[0].procs|);
    } else {
      RunKeepsInv(run, i - 1);
      StepKeepsInv(run[i - 1], run[i]);
    }
  }

  /** In every reachable state: committing implies outstanding = 0; the header names
      distinct blocks; log_write() does not panic while its caller has reserved space left,
      not even for a block that is already logged; and nobody sleeps in begin_op() who
      could go on. */
  lemma ReservationSafety(run: seq<State>, i: nat, p: nat)
    requires Run(run) && i < |run| && p < |run[i].procs|
    ensures run[i].committing ==> run[i].outstanding == 0
    ensures forall j, k :: 0 <= j < k < |run[i].lh| ==> run[i].lh[j] != run[i].lh[k]
    ensures run[i].procs[p].Open? && run[i].procs[p].spent < MAXOPBLOCKS ==> !Panics(run[i].lh, run[i].outstanding)
    ensures run[i].procs[p].Sleeping? ==> MustWait(run[i].lh, run[i].outstanding, run[i].committing)
  {
    RunKeepsInv(run, i);
    Bounds(run[i].procs, |run[i].procs|);
  }

  /** Group commit: when a group commits, no operation of it is still open, the header
      holds exactly the blocks that its operations logged, and no operation ever logs in
      two groups. */
  lemma GroupsAreWhole(run: seq<State>, i: nat, p: nat)
    requires Run(run) && i + 1 < |run| && p < |run[i].procs| && Commit(run[i], run[i + 1], p)
    ensures forall q :: 0 <= q < |run[i].procs| ==> !run[i].procs[q].Open?
    ensures forall b :: b in run[i].lh <==> exists w :: w in run[i].writes && w.group == run[i].group && w.block == b
    ensures forall w, w' :: w in run[i].writes && w' in run[i].writes && w.op == w'.op ==> w.group == w'.group
    ensures forall w :: w in run[i].writes ==> w.group <= run[i].group < run[i + 1].group
  {
    RunKeepsInv(run, i);
    Bounds(run[i].procs, |run[i].procs|);
  }

  /** log_write() does not panic while its caller has reserved space left. */
  lemma NoPanic(s: State, p: nat)
    requires Inv(s) && p < |s.procs| && s.procs[p].Open? && s.procs[p].spent < MAXOPBLOCKS
    ensures !Panics(s.lh, s.outstanding)
  {
    Bounds(s.procs, |s.procs|);
  }

  lemma WroteKeepsInv(s: State, p: nat, block: nat)
    requires Inv(s) && p < |s.procs| && s.procs[p].Open? && s.procs[p].spent < MAXOPBLOCKS
    ensures !Panics(s.lh, s.outstanding)
    ensures var s' := Wrote(s, p, block);
            && Inv(s') && LogWrite(s, s', p, block) && block in s'.lh
            && s'.lh == Absorb(s.lh, block) && s'.outstanding == s.outstanding && s'.committing == s.committing
  {
    NoPanic(s, p);
    assert Step(s, Wrote(s, p, block), p, block);
    hide Inv;
    StepKeepsInv(s, Wrote(s, p, block));
  }

  lemma FinishedKeepsInv(s: State, p: nat)
    requires Inv(s) && p < |s.procs| && s.procs[p].Committer?
    ensures var s' := Finished(s, p);
            Inv(s') && Finishes(s, s', p) && s'.lh == [] && !s'.committing && s'.outstanding == s.outstanding
  {
    var s1 := if s.lh == [] then s else s.(lh := [], group := s.group + 1);
    if s.lh != [] {
      assert Step(s, s1, p, 0);
      StepKeepsInv(s, s1);
    }
    assert Step(s1, Finished(s, p), p, 0);
    StepKeepsInv(s1, Finished(s, p));
  }

  /** end_op() does not panic, and the operation is the last exactly if no other one is open. */
  lemma NoEndPanic(s: State, p: nat)
    requires Inv(s) && p < |s.procs| && s.procs[p].Open?
    ensures !s.committing && s.outstanding > 0
    ensures s.outstanding == 1 <==> forall q :: 0 <= q < |s.procs| && q != p ==> !s.procs[q].Open?
  {
    OnlyOpen(s.procs, |s.procs|, p);
  }

  lemma {:induction false} OnlyOpen(procs: seq<Proc>, k: nat, p: nat)
    requires p < k <= |procs| && procs[p].Open?
    ensures Opens(procs, k) >= 1
    ensures Opens(procs, k) == 1 <==> forall q :: 0 <= q < k && q != p ==> !procs[q].Open?
  {
    if p < k - 1 {
      OnlyOpen(procs, k - 1, p);
    } else {
      NoneOpen(procs, k - 1);
    }
  }

  lemma {:induction false} NoneOpen(procs: seq<Proc>, k: nat)
    requires k <= |procs|
    ensures Opens(procs, k) == 0 <==> forall q :: 0 <= q < k ==> !procs[q].Open?
  {
    if k > 0 {
      NoneOpen(procs, k - 1);
    }
  }

  // ---- The log can be full -------------------------------------------------------------------

  lemma More(run: seq<State>, s': State, p: nat, block: nat)
    requires Run(run) && Step(run[|run| - 1], s', p, block)
    ensures Run(run + [s'])
  {
    assert Next(run[|run| - 1], s');
  }

  ghost predicate Counting(lh: seq<nat>) { forall i :: 0 <= i < |lh| ==> lh[i] == i }

  /** Operation of process `p` logs `n` more blocks, each for the first time. */
  lemma {:induction false} WriteMany(run: seq<State>, p: nat, n: nat) returns (run': seq<State>)
    requires Run(run)
    requires var s := run[|run| - 1];
             p < |s.procs| && s.procs[p].Open? && s.procs[p].spent + n <= MAXOPBLOCKS && Counting(s.lh)
    ensures Run(run')
    ensures var s, s' := run[|run| - 1], run'[|run'| - 1];
            && |s'.lh| == |s.lh| + n && Counting(s'.lh) && s'.outstanding == s.outstanding &&
               s'.committing == s.committing
            && s'.procs == s.procs[p := s.procs[p].(spent := s.procs[p].spent + n)]
    decreases n
  {
    var s := run[|run| - 1];
    if n == 0 {
      assert s.procs == s.procs[p := s.procs[p].(spent := s.procs[p].spent + n)];
      return run;
    }
    var s' := Wrote(s, p, |s.lh|);
    assert Step(s, s', p, |s.lh|);
    More(run, s', p, |s.lh|);
    run' := WriteMany(run + [s'], p, n - 1);
  }

  lemma Begin(run: seq<State>, p: nat) returns (run': seq<State>)
    requires Run(run) && var s := run[|run| - 1];
             && p < |s.procs| && s.procs[p].Outside? && !MustWait(s.lh, s.outstanding, s.committing)
    ensures Run(run')
    ensures var s, s' := run[|run| - 1], run'[|run'| - 1];
            && s'.lh == s.lh && s'.outstanding == s.outstanding + 1 && s'.committing == s.committing
            && s'.procs == s.procs[p := Open(|s.began|, 0)]
  {
    var s := run[|run| - 1];
    var s1 := s.(procs := s.procs[p := Trying]);
    assert Step(s, s1, p, 0);
    More(run, s1, p, 0);
    var s2 := Began(s1, p);
    assert Step(s1, s2, p, 0);
    More(run + [s1], s2, p, 0);
    run' := run + [s1] + [s2];
  }

  lemma End(run: seq<State>, p: nat) returns (run': seq<State>)
    requires Run(run) && var s := run[|run| - 1]; p < |s.procs| && s.procs[p].Open? && s.outstanding > 0
    ensures Run(run') && run'[|run'| - 1] == Ended(run[|run| - 1], p)
  {
    var s := run[|run| - 1];
    assert Step(s, Ended(s, p), p, 0);
    More(run, Ended(s, p), p, 0);
    run' := run + [Ended(s, p)];
  }

  /** Three operations that begin together and use all of their space fill the log to LOGBLOCKS
      blocks, and the last one to end commits them. */
  lemma FullLog() returns (run: seq<State>)
    ensures Run(run)
    ensures var s := run[|run| - 1];
            |s.lh| == LOGBLOCKS && s.committing && |s.procs| == 3 && s.procs[2].Committer?
  {
    run := [State([], 0, false, [Outside, Outside, Outside], 0, [], [])];
    run := Begin(run, 0);
    run := Begin(run, 1);
    run := Begin(run, 2);
    run := WriteMany(run, 0, MAXOPBLOCKS);
    run := WriteMany(run, 1, MAXOPBLOCKS);
    run := WriteMany(run, 2, MAXOPBLOCKS);
    run := End(run, 0);
    run := End(run, 1);
    run := End(run, 2);
  }
}
