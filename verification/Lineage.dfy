/** Who is whose parent, over whole runs of the processes of kernel/proc.c: what kfork(), reparent() and
    kwait() make of p->parent. A slot of the table is used by one process after the other; a process is
    a slot and a pid. */
module Lineage {
  import opened ExitWait

  /** The process in slot `p` with this pid is gone, or is in kexit() and reparent() has come past `q`. */
  ghost predicate Gone(s: State, p: nat, pid: nat, q: nat)
    requires p < |s.procs|
  {
    s.procs[p].pid != pid || s.procs[p].state.Unused? || Moved(s.procs[p].pc, q)
  }

  /** Process `p` made process `q`: it is the parent, or it is gone and initproc is. Until it has finished
      its kfork() it may not be the parent yet. */
  ghost predicate Line(s: State, p: nat, pid: nat, q: nat, kid: nat) {
    && p < |s.procs| && q < |s.procs| && pid < s.nextpid && kid < s.nextpid
    && var x, y := s.procs[p], s.procs[q];
       && !y.state.Unused? && y.pid == kid
       && if y.state.Used? then y.maker == p && x.pid == pid && (y.parent == NONE || y.parent == p)
          else (y.parent == p && x.pid == pid) || (y.parent == INIT && Gone(s, p, pid, q))
  }

  // ---- Most steps do not touch this ------------------------------------------------------------------

  predicate Same(x: Proc, y: Proc, i: nat) {
    && y.parent == x.parent && y.pid == x.pid && y.maker == x.maker && (Moved(x.pc, i) ==> Moved(y.pc, i))
    && (y.state.Unused? <==> x.state.Unused?) && (y.state.Used? <==> x.state.Used?)
  }

  ghost predicate AllSame(s: State, s': State, i: nat) {
    && |s'.procs| == |s.procs| && s.nextpid <= s'.nextpid
    && forall q: nat :: q < |s.procs| ==> Same(s.procs[q], s'.procs[q], i)
  }

  lemma LoopsKeep(s: State, s': State, p: nat, k: nat, i: nat)
    requires p < |s.procs| && k < |s.procs| && (WakeOne(s, s', p, k) || ScanOne(s, s', p, k))
    ensures AllSame(s, s', i)
  {
  }

  lemma WaitKeeps(s: State, s': State, p: nat, i: nat)
    requires Inv(s) && p < |s.procs|
    requires ForkFail(s, s', p) || TakeWait(s, s', p) || LoopEnd(s, s', p) || Die(s, s', p) || ScanEnd(s, s', p)
    ensures AllSame(s, s', i)
  {
    assert At(s, p);
    hide Inv;
  }

  lemma SleepKeeps(s: State, s': State, p: nat, i: nat)
    requires Inv(s) && p < |s.procs|
    requires GoToSleep(s, s', p) || GiveUp(s, s', p) || Swtch(s, s', p) || ComeBack(s, s', p) || Rouse(s, s', p)
    ensures AllSame(s, s', i)
  {
    assert At(s, p);
    hide Inv;
  }

  lemma SchedulerKeeps(s: State, s': State, p: nat, c: nat, i: nat)
    requires Inv(s) && p < |s.procs| && c < |s.cpus| && (Retire(s, s', p, c) || Pick(s, s', p, c))
    ensures AllSame(s, s', i)
  {
    assert At(s, p);
    hide Inv;
  }

  /** The steps that do: of kfork(), of reparent() and of kwait(). */
  ghost predicate Special(s: State, s': State, p: nat, k: nat) {
    && p < |s.procs| && k < |s.procs|
    && (ForkStart(s, s', p, k) || ForkParent(s, s', p, k) || ForkDone(s, s', p, k) || ReparentOne(s, s', p, k) ||
        Reap(s, s', p, k))
  }

  lemma OthersKeep(s: State, s': State, p: nat, k: nat, i: nat)
    requires Inv(s) && Step(s, s', p, k)
    ensures AllSame(s, s', i) || Special(s, s', p, k)
  {
    hide Inv, AllSame, ForkStart, ForkParent, ForkDone, ReparentOne, WakeOne, ScanOne, Reap, ForkFail, TakeWait,
         LoopEnd, Die, ScanEnd, GoToSleep, GiveUp, Swtch, ComeBack, Rouse, Retire, Pick;
    if k < |s.procs| && StepOn(s, s', p, k) {
      if WakeOne(s, s', p, k) || ScanOne(s, s', p, k) {
        LoopsKeep(s, s', p, k, i);
      }
    } else if StepAlone(s, s', p) {
      if ForkFail(s, s', p) || TakeWait(s, s', p) || LoopEnd(s, s', p) || Die(s, s', p) || ScanEnd(s, s', p) {
        WaitKeeps(s, s', p, i);
      } else {
        SleepKeeps(s, s', p, i);
      }
    } else {
      SchedulerKeeps(s, s', p, k, i);
    }
  }

  // ---- Once made, always of that line -------------------------------------------------------------------

  lemma SameLine(s: State, s': State, p: nat, pid: nat, q: nat, kid: nat)
    requires AllSame(s, s', q) && Line(s, p, pid, q, kid)
    ensures Line(s', p, pid, q, kid)
  {
    hide Moved;
    assert Same(s.procs[p], s'.procs[p], q) && Same(s.procs[q], s'.procs[q], q);
  }

  /** What the invariant says of the process that makes a step, of the one that it makes it on, and of a
      process and its maker. */
  ghost predicate Facts(s: State, a: nat, k: nat, p: nat, q: nat)
    requires a < |s.procs| && k < |s.procs| && p < |s.procs| && q < |s.procs|
  {
    && At(s, a) && At(s, p) && Named(s, INIT) && Named(s, a) && Named(s, p)
    && Forks(s, a, k) && Forks(s, a, q) && Forks(s, p, q) && Family(s, q, p) && Family(s, p, q)
  }

  lemma HasFacts(s: State, a: nat, k: nat, p: nat, q: nat)
    requires Inv(s) && a < |s.procs| && k < |s.procs| && p < |s.procs| && q < |s.procs|
    ensures Facts(s, a, k, p, q)
  {
  }

  lemma ForkStartLine(s: State, s': State, a: nat, k: nat, p: nat, pid: nat, q: nat, kid: nat)
    requires a < |s.procs| && k < |s.procs| && Line(s, p, pid, q, kid) && Facts(s, a, k, p, q)
    requires ForkStart(s, s', a, k)
    ensures Line(s', p, pid, q, kid)
  {
  }

  lemma ForkParentLine(s: State, s': State, a: nat, k: nat, p: nat, pid: nat, q: nat, kid: nat)
    requires a < |s.procs| && k < |s.procs| && Line(s, p, pid, q, kid) && Facts(s, a, k, p, q)
    requires ForkParent(s, s', a, k)
    ensures Line(s', p, pid, q, kid)
  {
  }

  lemma ForkDoneLine(s: State, s': State, a: nat, k: nat, p: nat, pid: nat, q: nat, kid: nat)
    requires a < |s.procs| && k < |s.procs| && Line(s, p, pid, q, kid) && Facts(s, a, k, p, q)
    requires ForkDone(s, s', a, k)
    ensures Line(s', p, pid, q, kid)
  {
  }

  lemma ReparentLine(s: State, s': State, a: nat, k: nat, p: nat, pid: nat, q: nat, kid: nat)
    requires a < |s.procs| && k < |s.procs| && Line(s, p, pid, q, kid) && Facts(s, a, k, p, q)
    requires ReparentOne(s, s', a, k)
    ensures Line(s', p, pid, q, kid)
  {
  }

  lemma ReapLine(s: State, s': State, a: nat, k: nat, p: nat, pid: nat, q: nat, kid: nat)
    requires a < |s.procs| && k < |s.procs| && Line(s, p, pid, q, kid) && Facts(s, a, k, p, q)
    requires Reap(s, s', a, k)
    ensures Line(s', p, pid, q, kid) || k == q
  {
  }

  lemma StepLine(s: State, s': State, a: nat, k: nat, p: nat, pid: nat, q: nat, kid: nat)
    requires Inv(s) && Step(s, s', a, k) && Line(s, p, pid, q, kid)
    ensures Line(s', p, pid, q, kid) || Reap(s, s', a, q)
  {
    OthersKeep(s, s', a, k, q);
    LineIn(s, p, pid, q, kid);
    hide Inv, Step, AllSame, Line, ForkStart, ForkParent, ForkDone, ReparentOne, Reap, At, Named, Forks, Family, Facts;
    if AllSame(s, s', q) {
      SameLine(s, s', p, pid, q, kid);
    } else {
      HasFacts(s, a, k, p, q);
      if ReparentOne(s, s', a, k) {
        ReparentLine(s, s', a, k, p, pid, q, kid);
      } else if Reap(s, s', a, k) {
        ReapLine(s, s', a, k, p, pid, q, kid);
      } else if ForkStart(s, s', a, k) {
        ForkStartLine(s, s', a, k, p, pid, q, kid);
      } else if ForkParent(s, s', a, k) {
        ForkParentLine(s, s', a, k, p, pid, q, kid);
      } else {
        ForkDoneLine(s, s', a, k, p, pid, q, kid);
      }
    }
  }

  lemma LineIn(s: State, p: nat, pid: nat, q: nat, kid: nat)
    requires Line(s, p, pid, q, kid)
    ensures p < |s.procs| && q < |s.procs| && !s.procs[q].state.Unused?
  {
  }

  lemma Newborn(s: State, s': State, p: nat, q: nat)
    requires Inv(s) && p < |s.procs| && q < |s.procs| && ForkStart(s, s', p, q)
    ensures Line(s', p, s.procs[p].pid, q, s'.procs[q].pid)
  {
    assert Named(s, p) && Named(s, q) && At(s, p);
    hide Inv;
  }

  /** A slot comes into use only with kfork(). */
  lemma OnlyFork(s: State, s': State, a: nat, k: nat, q: nat)
    requires Inv(s) && Step(s, s', a, k) && q < |s.procs| && s.procs[q].state.Unused?
    ensures |s'.procs| == |s.procs|
    ensures s'.procs[q].state.Unused? || (k == q && a < |s.procs| && ForkStart(s, s', a, q))
  {
    OthersKeep(s, s', a, k, q);
    if AllSame(s, s', q) {
      assert Same(s.procs[q], s'.procs[q], q);
    } else {
      assert Forks(s, a, k) && Named(s, k);
      hide Inv, Step, AllSame;
      SpecialUse(s, s', a, k, q);
    }
  }

  lemma SpecialUse(s: State, s': State, a: nat, k: nat, q: nat)
    requires Special(s, s', a, k) && q < |s.procs| && s.procs[q].state.Unused? && Forks(s, a, k)
    ensures |s'.procs| == |s.procs|
    ensures s'.procs[q].state.Unused? || (k == q && a < |s.procs| && ForkStart(s, s', a, q))
  {
  }

  lemma StepOfRun(run: seq<State>, i: nat) returns (a: nat, k: nat)
    requires Run(run) && 0 < i < |run|
    ensures Inv(run[i - 1]) && Step(run[i - 1], run[i], a, k)
  {
    RunKeepsInv(run, i - 1);
    assert Next(run[i - 1], run[i]);
    a, k :| Step(run[i - 1], run[i], a, k);
  }

  lemma InitialSlots(run: seq<State>, q: nat)
    requires Run(run) && 0 < q < |run[0].procs|
    ensures run[0].procs[q].state.Unused?
  {
  }

  lemma SameSlots(s: State, s': State, a: nat, k: nat)
    requires Inv(s) && Step(s, s', a, k)
    ensures |s'.procs| == |s.procs|
  {
    OthersKeep(s, s', a, k, 0);
  }

  /** Every process but initproc was made by a kfork(), and is of the line of the process that called it. */
  lemma {:induction false} MadeByFork(run: seq<State>, i: nat, q: nat) returns (j: nat, p: nat)
    requires Run(run) && i < |run| && 0 < q < |run[i].procs| && !run[i].procs[q].state.Unused?
    ensures j < i && p < |run[j].procs| && q < |run[j].procs| && ForkStart(run[j], run[j + 1], p, q)
    ensures q < |run[j + 1].procs| && run[j + 1].procs[q].pid == run[i].procs[q].pid
    ensures Line(run[i], p, run[j].procs[p].pid, q, run[i].procs[q].pid)
    decreases i
  {
    hide *;
    if i == 0 {
      InitialSlots(run, q);
      assert false;
    } else {
      var s, s' := run[i - 1], run[i];
      var a, k := StepOfRun(run, i);
      SameSlots(s, s', a, k);
      if s.procs[q].state.Unused? {
        OnlyFork(s, s', a, k, q);
        Newborn(s, s', a, q);
        j, p := i - 1, a;
      } else {
        j, p := MadeByFork(run, i - 1, q);
        StepLine(s, s', a, k, p, run[j].procs[p].pid, q, s.procs[q].pid);
        Reaped(s, s', a, q);
        SamePid(s', p, run[j].procs[p].pid, q, s.procs[q].pid);
      }
    }
  }

  lemma Reaped(s: State, s': State, a: nat, q: nat)
    requires q < |s.procs| && |s'.procs| == |s.procs|
    ensures a < |s.procs| && Reap(s, s', a, q) ==> s'.procs[q].state.Unused?
  {
  }

  lemma SamePid(s: State, p: nat, pid: nat, q: nat, kid: nat)
    requires q < |s.procs| && Line(s, p, pid, q, kid)
    ensures s.procs[q].pid == kid
  {
  }

  /** In every run, the parent of a started process is the process whose kfork() made it; from when that
      process is in kexit() and reparent() has come to its child, it is initproc. */
  lemma ParentMadeIt(run: seq<State>, i: nat, q: nat) returns (j: nat, p: nat)
    requires Run(run) && i < |run| && 0 < q < |run[i].procs|
    requires Live(run[i].procs[q].state) || run[i].procs[q].state.Zombie?
    ensures j < i && p < |run[j].procs| && q < |run[j].procs| && ForkStart(run[j], run[j + 1], p, q)
    ensures p < |run[i].procs| && run[j + 1].procs[q].pid == run[i].procs[q].pid
    ensures run[i].procs[q].parent == if Gone(run[i], p, run[j].procs[p].pid, q) then INIT else p
  {
    j, p := MadeByFork(run, i, q);
    RunKeepsInv(run, i);
    assert Family(run[i], p, q) && Family(run[i], q, p);
  }

  /** kwait() reaps only what its process made, or what is left to initproc. */
  lemma ReapedByMaker(run: seq<State>, i: nat, s': State, p: nat, q: nat) returns (j: nat, m: nat)
    requires Run(run) && i < |run| && p < |run[i].procs| && 0 < q < |run[i].procs| && Reap(run[i], s', p, q)
    ensures j < i && m < |run[j].procs| && q < |run[j].procs| && ForkStart(run[j], run[j + 1], m, q)
    ensures run[j + 1].procs[q].pid == run[i].procs[q].pid
    ensures p == INIT || (p == m && run[j].procs[p].pid == run[i].procs[p].pid)
  {
    j, m := ParentMadeIt(run, i, q);
  }

  /** The process with this pid is in slot `q`, or has been reaped. */
  ghost predicate Accounted(s: State, p: nat, pid: nat, q: nat, kid: nat) {
    Line(s, p, pid, q, kid) || kid in s.reaped
  }

  lemma ReapedGrows(s: State, s': State, a: nat, k: nat, pid: nat)
    requires Step(s, s', a, k) && pid in s.reaped
    ensures pid in s'.reaped
  {
    hide ForkStart, ForkParent, ForkDone, ReparentOne, WakeOne, ScanOne, ForkFail, TakeWait, LoopEnd, Die, ScanEnd,
         GoToSleep, GiveUp, Swtch, ComeBack, Rouse;
    if StepAlone(s, s', a) || (k < |s.procs| && StepOn(s, s', a, k)) {
      StepIsSteady(s, s', a, k);
    }
  }

  lemma ReapRecords(s: State, s': State, a: nat, p: nat, pid: nat, q: nat, kid: nat)
    requires Line(s, p, pid, q, kid) && a < |s.procs| && Reap(s, s', a, q)
    ensures kid in s'.reaped
  {
    assert s'.reaped[|s.reaped|] == kid;
  }

  lemma {:induction false} StillAccounted(run: seq<State>, j: nat, p: nat, q: nat, i: nat)
    requires Run(run) && j < i < |run| && p < |run[j].procs| && q < |run[j].procs|
    requires ForkStart(run[j], run[j + 1], p, q)
    ensures q < |run[j + 1].procs|
    ensures Accounted(run[i], p, run[j].procs[p].pid, q, run[j + 1].procs[q].pid)
    decreases i
  {
    hide *;
    var a, k := StepOfRun(run, i);
    var s, s' := run[i - 1], run[i];
    if i == j + 1 {
      Newborn(s, s', p, q);
      NewbornIn(s, s', p, q);
      AccountedIs(s', p, s.procs[p].pid, q, s'.procs[q].pid);
    } else {
      StillAccounted(run, j, p, q, i - 1);
      var pid, kid := run[j].procs[p].pid, run[j + 1].procs[q].pid;
      AccountedIs(s, p, pid, q, kid);
      AccountedIs(s', p, pid, q, kid);
      if kid in s.reaped {
        ReapedGrows(s, s', a, k, kid);
      } else {
        LineIn(s, p, pid, q, kid);
        StepLine(s, s', a, k, p, pid, q, kid);
        StepIn(s, s', a, k);
        if Reap(s, s', a, q) {
          ReapRecords(s, s', a, p, pid, q, kid);
        }
      }
    }
  }

  lemma NewbornIn(s: State, s': State, p: nat, q: nat)
    requires p < |s.procs| && q < |s.procs| && ForkStart(s, s', p, q)
    ensures q < |s'.procs|
  {
  }

  lemma StepIn(s: State, s': State, a: nat, k: nat)
    requires Step(s, s', a, k)
    ensures a < |s.procs|
  {
  }

  lemma AccountedIs(s: State, p: nat, pid: nat, q: nat, kid: nat)
    ensures Accounted(s, p, pid, q, kid) <==> Line(s, p, pid, q, kid) || kid in s.reaped
  {
  }

  /** No process is lost: from its kfork() on a process is in its slot until kwait() has reaped it, once. */
  lemma NoneIsLost(run: seq<State>, j: nat, p: nat, q: nat, i: nat)
    requires Run(run) && j < i < |run| && p < |run[j].procs| && q < |run[j].procs|
    requires ForkStart(run[j], run[j + 1], p, q)
    ensures q < |run[j + 1].procs| && q < |run[i].procs|
    ensures var pid, x := run[j + 1].procs[q].pid, run[i].procs[q];
            if pid in run[i].reaped then x.state.Unused? || x.pid != pid else !x.state.Unused? && x.pid == pid
  {
    StillAccounted(run, j, p, q, i);
    SlotsStay(run, j, i);
    ReapedOnce(run, i, q);
  }

  lemma {:induction false} SlotsStay(run: seq<State>, j: nat, i: nat)
    requires Run(run) && j <= i < |run|
    ensures |run[i].procs| == |run[j].procs|
    decreases i
  {
    hide *;
    if j < i {
      SlotsStay(run, j, i - 1);
      var a, k := StepOfRun(run, i);
      SameSlots(run[i - 1], run[i], a, k);
    }
  }

  // ---- What kexit() does to the children ----------------------------------------------------------------

  /** In kexit(), from taking wait_lock up to becoming a zombie. */
  predicate Leaving(pc: Pc) { pc.Reparent? || pc.Wake? || pc.ExitLock? }

  /** What p->parent of process `q` has come to since `s`, when `p` is leaving. */
  ghost predicate Inherited(s: State, s': State, p: nat, q: nat) {
    && p < |s'.procs| && q < |s.procs| && q < |s'.procs|
    && s'.procs[q].parent ==
         if s.procs[q].parent == p && Moved(s'.procs[p].pc, q) then INIT else s.procs[q].parent
  }

  ghost predicate AllInherited(s: State, s': State, p: nat) {
    |s'.procs| == |s.procs| && forall q: nat :: q < |s.procs| ==> Inherited(s, s', p, q)
  }

  lemma LeavingSpecial(s: State, s': State, a: nat, k: nat, p: nat, q: nat)
    requires p < |s.procs| && q < |s.procs| && Special(s, s', a, k) && Leaving(s.procs[p].pc)
    requires At(s, p) && Named(s, p) && Named(s, q) && At(s, a) && Forks(s, a, k) && Family(s, p, q)
    ensures |s'.procs| == |s.procs|
    ensures s'.procs[q].parent ==
              if s.procs[q].parent == p && !Moved(s.procs[p].pc, q) && Moved(s'.procs[p].pc, q) then INIT
              else s.procs[q].parent
    ensures Moved(s.procs[p].pc, q) ==> Moved(s'.procs[p].pc, q)
  {
    hide HoldsOwn;
  }

  /** No other step brings reparent() past a process. */
  lemma LeavingQuiet(s: State, s': State, a: nat, k: nat, p: nat, q: nat)
    requires p < |s.procs| && q < |s.procs| && Step(s, s', a, k) && !Special(s, s', a, k) && |s'.procs| == |s.procs|
    requires At(s, p) && Leaving(s.procs[p].pc) && Leaving(s'.procs[p].pc)
    ensures Moved(s'.procs[p].pc, q) ==> Moved(s.procs[p].pc, q)
  {
    hide HoldsOwn;
  }

  /** While `p` is leaving, nobody else changes a parent, and it only gives its children to initproc. */
  lemma LeavingStep(s: State, s': State, a: nat, k: nat, p: nat, q: nat)
    requires Inv(s) && Step(s, s', a, k) && p < |s.procs| && q < |s.procs|
    requires Leaving(s.procs[p].pc) && |s'.procs| == |s.procs| && Leaving(s'.procs[p].pc)
    ensures s'.procs[q].parent ==
              if s.procs[q].parent == p && !Moved(s.procs[p].pc, q) && Moved(s'.procs[p].pc, q) then INIT
              else s.procs[q].parent
    ensures Moved(s.procs[p].pc, q) ==> Moved(s'.procs[p].pc, q)
  {
    OthersKeep(s, s', a, k, q);
    assert At(s, p) && Named(s, p) && Named(s, q) && Family(s, p, q);
    if Special(s, s', a, k) {
      HasFacts(s, a, k, a, a);
      assert At(s, a) && Forks(s, a, k);
      hide Special, Step, Inv, At, Named, Forks, Family, AllSame, Facts;
      LeavingSpecial(s, s', a, k, p, q);
    } else {
      assert Same(s.procs[q], s'.procs[q], q) && Same(s.procs[p], s'.procs[p], q);
      hide Special, Step, Inv, At, Named, Forks, Family, AllSame;
      LeavingQuiet(s, s', a, k, p, q);
    }
  }

  /** Process `p` takes wait_lock in kexit(). */
  ghost predicate Leaves(s: State, s': State, p: nat) {
    p < |s.procs| && |s'.procs| == |s.procs| && TakeWait(s, s', p) && s'.procs[p].pc == Reparent(0)
  }

  lemma StepOnStays(s: State, s': State, a: nat, k: nat, p: nat)
    requires a < |s.procs| && k < |s.procs| && StepOn(s, s', a, k) && p < |s.procs| && |s'.procs| == |s.procs|
    ensures Leaving(s'.procs[p].pc) ==> Leaving(s.procs[p].pc)
  {
  }

  lemma SleepStays(s: State, s': State, a: nat, p: nat)
    requires a < |s.procs| && p < |s.procs| && |s'.procs| == |s.procs|
    requires GoToSleep(s, s', a) || GiveUp(s, s', a) || Swtch(s, s', a) || ComeBack(s, s', a) || Rouse(s, s', a)
    ensures Leaving(s'.procs[p].pc) ==> Leaving(s.procs[p].pc)
  {
  }

  lemma SchedulerStays(s: State, s': State, a: nat, c: nat, p: nat)
    requires a < |s.procs| && c < |s.cpus| && p < |s.procs| && |s'.procs| == |s.procs|
    requires Retire(s, s', a, c) || Pick(s, s', a, c)
    ensures Leaving(s'.procs[p].pc) ==> Leaving(s.procs[p].pc)
  {
  }

  lemma OnlyTakeWait(s: State, s': State, a: nat, k: nat, p: nat)
    requires Step(s, s', a, k) && p < |s.procs| && |s'.procs| == |s.procs|
    requires !Leaving(s.procs[p].pc) && Leaving(s'.procs[p].pc)
    ensures Leaves(s, s', p)
  {
    hide StepOn, GoToSleep, GiveUp, Swtch, ComeBack, Rouse, Retire, Pick;
    if k < |s.procs| && StepOn(s, s', a, k) {
      StepOnStays(s, s', a, k, p);
    } else if k < |s.cpus| && (Retire(s, s', a, k) || Pick(s, s', a, k)) {
      SchedulerStays(s, s', a, k, p);
    } else if GoToSleep(s, s', a) || GiveUp(s, s', a) || Swtch(s, s', a) || ComeBack(s, s', a) || Rouse(s, s', a) {
      SleepStays(s, s', a, p);
    }
  }

  lemma NothingYet(s: State, s': State, p: nat)
    requires Leaves(s, s', p)
    ensures AllInherited(s, s', p)
  {
  }

  /** ... and holds it from then on. */
  ghost predicate Holds(run: seq<State>, i: nat, j: nat, p: nat) {
    j < |run| && forall x :: i < x <= j ==> run[x].waitLock == p
  }

  lemma LeavingHolds(s: State, p: nat)
    requires Inv(s) && p < |s.procs| && Leaving(s.procs[p].pc)
    ensures s.waitLock == p
  {
    assert At(s, p);
  }

  lemma AllInheritedMore(s0: State, s: State, s': State, a: nat, k: nat, p: nat)
    requires Inv(s) && Step(s, s', a, k) && p < |s.procs| && |s'.procs| == |s.procs|
    requires Leaving(s.procs[p].pc) && Leaving(s'.procs[p].pc) && AllInherited(s0, s, p)
    ensures AllInherited(s0, s', p)
  {
    forall q: nat | q < |s0.procs| ensures Inherited(s0, s', p, q) {
      assert Inherited(s0, s, p, q);
      LeavingStep(s, s', a, k, p, q);
    }
  }

  lemma {:induction false} SinceItLeft(run: seq<State>, j: nat, p: nat) returns (i: nat)
    requires Run(run) && j < |run| && p < |run[j].procs| && Leaving(run[j].procs[p].pc)
    ensures i < j && Leaves(run[i], run[i + 1], p) && Holds(run, i, j, p) && AllInherited(run[i], run[j], p)
    decreases j
  {
    hide *;
    if j == 0 {
      NotLeaving(run, p);
      assert false;
    } else {
      var s, s' := run[j - 1], run[j];
      var a, k := StepOfRun(run, j);
      SameSlots(s, s', a, k);
      RunKeepsInv(run, j);
      LeavingHolds(s', p);
      if Leaving(s.procs[p].pc) {
        i := SinceItLeft(run, j - 1, p);
        AllInheritedMore(run[i], s, s', a, k, p);
        HoldsMore(run, i, j, p);
      } else {
        OnlyTakeWait(s, s', a, k, p);
        NothingYet(s, s', p);
        i := j - 1;
        HoldsMore(run, i, j, p);
      }
    }
  }

  lemma NotLeaving(run: seq<State>, p: nat)
    requires Run(run) && p < |run[0].procs|
    ensures !Leaving(run[0].procs[p].pc)
  {
  }

  lemma HoldsMore(run: seq<State>, i: nat, j: nat, p: nat)
    requires i < j < |run| && (i < j - 1 ==> Holds(run, i, j - 1, p)) && run[j].waitLock == p
    ensures Holds(run, i, j, p)
  {
  }

  /** When a process becomes a ZOMBIE, the processes that were its children when it took wait_lock in
      kexit() have initproc as their parent. No other process has got another parent since then, nobody
      else has held wait_lock, and it has no children. */
  lemma ChildrenGoToInit(run: seq<State>, j: nat, s': State, p: nat) returns (i: nat)
    requires Run(run) && j < |run| && p < |run[j].procs| && Die(run[j], s', p) && run[j].procs[p].pc.ExitLock?
    ensures s'.procs[p].state.Zombie?
    ensures i < j && Leaves(run[i], run[i + 1], p) && Holds(run, i, j, p) && |run[i].procs| == |s'.procs|
    ensures forall q: nat ::
              q < |s'.procs| ==>
                s'.procs[q].parent == if run[i].procs[q].parent == p then INIT else run[i].procs[q].parent
    ensures forall q: nat :: q < |s'.procs| ==> s'.procs[q].parent != p
  {
    i := SinceItLeft(run, j, p);
    RunKeepsInv(run, j);
    forall q: nat | q < |s'.procs|
      ensures s'.procs[q].parent == if run[i].procs[q].parent == p then INIT else run[i].procs[q].parent
      ensures s'.procs[q].parent != p
    {
      assert Inherited(run[i], run[j], p, q) && Family(run[j], p, q);
    }
  }
}
