/** Spin locks and the nesting of interrupt disabling (kernel/spinlock.c), for any number of CPUs and
    locks and every interleaving. */
module Spinlock {
  const NONE: int := -1

  datatype Panic = InAcquire | InRelease | InPopOff

  datatype Pc =
    | Running                 // outside acquire(), release(), push_off() and pop_off()
    | Spinning(l: nat)        // acquire(): after push_off(), at the atomic swap
    | Swapped(l: nat)         // acquire(): the swap returned 0; lk->cpu = mycpu()
    | Cleared(l: nat)         // release(): lk->cpu = 0 done; release the lock word
    | Popping                 // release(): pop_off()
    | Panicked(why: Panic)    // a check failed; the CPU stops

  /** `intr` is the interrupt enable bit. `held` are the locks that the CPU holds, `extra` the bare
      push_off()s not undone yet, and `before` the interrupt state at the outermost push_off(). */
  datatype Cpu = Cpu(intr: bool, noff: nat, intena: bool, pc: Pc, held: set<nat>, extra: nat, before: bool)

  /** struct spinlock: the lock word and lk->cpu. */
  datatype Lock = Lock(locked: bool, cpu: int)

  datatype State = State(cpus: seq<Cpu>, locks: seq<Lock>)

  // ---- The code ---------------------------------------------------------------------------------

  function PushOff(c: Cpu): (r: Cpu) {
    c.(intr := false, intena := if c.noff == 0 then c.intr else c.intena,
       noff := c.noff + 1, before := if c.noff == 0 then c.intr else c.before)
  }

  function PopOff(c: Cpu, next: Pc): (r: Cpu) {
    if c.intr || c.noff < 1 then c.(pc := Panicked(InPopOff))
    else c.(noff := c.noff - 1, intr := c.noff == 1 && c.intena, pc := next)
  }

  predicate Holding(s: State, c: nat, l: nat)
    requires l < |s.locks|
  {
    s.locks[l].locked && s.locks[l].cpu == c
  }

  /** CPU `c` becomes `x` and lock `l` becomes `k`. */
  ghost predicate Sets(s: State, s': State, c: nat, x: Cpu, l: nat, k: Lock)
    requires c < |s.cpus| && l < |s.locks|
  {
    s'.cpus == s.cpus[c := x] && s'.locks == s.locks[l := k]
  }

  ghost predicate SetsCpu(s: State, s': State, c: nat, x: Cpu)
    requires c < |s.cpus|
  {
    s'.cpus == s.cpus[c := x] && s'.locks == s.locks
  }

  /** acquire() up to its loop. */
  ghost predicate Acquire(s: State, s': State, c: nat, l: nat)
    requires c < |s.cpus| && l < |s.locks|
  {
    && s.cpus[c].pc.Running?
    && SetsCpu(s, s', c, PushOff(s.cpus[c]).(pc := if Holding(s, c, l) then Panicked(InAcquire) else Spinning(l)))
  }

  /** One atomic swap. */
  ghost predicate Swap(s: State, s': State, c: nat, l: nat)
    requires c < |s.cpus| && l < |s.locks|
  {
    && s.cpus[c].pc == Spinning(l)
    && Sets(s, s', c, s.cpus[c].(pc := if s.locks[l].locked then Spinning(l) else Swapped(l)), l,
            s.locks[l].(locked := true))
  }

  ghost predicate Record(s: State, s': State, c: nat, l: nat)
    requires c < |s.cpus| && l < |s.locks|
  {
    && s.cpus[c].pc == Swapped(l)
    && Sets(s, s', c, s.cpus[c].(pc := Running, held := s.cpus[c].held + {l}), l, s.locks[l].(cpu := c))
  }

  /** release() up to lk->cpu = 0. */
  ghost predicate Release(s: State, s': State, c: nat, l: nat)
    requires c < |s.cpus| && l < |s.locks|
  {
    && s.cpus[c].pc.Running?
    && if Holding(s, c, l) then
         Sets(s, s', c, s.cpus[c].(pc := Cleared(l), held := s.cpus[c].held - {l}), l, s.locks[l].(cpu := NONE))
       else SetsCpu(s, s', c, s.cpus[c].(pc := Panicked(InRelease)))
  }

  ghost predicate Unlock(s: State, s': State, c: nat, l: nat)
    requires c < |s.cpus| && l < |s.locks|
  {
    && s.cpus[c].pc == Cleared(l)
    && Sets(s, s', c, s.cpus[c].(pc := Popping), l, s.locks[l].(locked := false))
  }

  ghost predicate Pop(s: State, s': State, c: nat)
    requires c < |s.cpus|
  {
    s.cpus[c].pc.Popping? && SetsCpu(s, s', c, PopOff(s.cpus[c], Running))
  }

  /** push_off() and a matching pop_off() on their own, and changes of the interrupt state where
      nothing disables it. */
  ghost predicate Other(s: State, s': State, c: nat)
    requires c < |s.cpus|
  {
    var x := s.cpus[c];
    && x.pc.Running?
    && (|| SetsCpu(s, s', c, PushOff(x).(extra := x.extra + 1))
        || (x.extra > 0 && SetsCpu(s, s', c, PopOff(x, Running).(extra := x.extra - 1)))
        || (x.noff == 0 && SetsCpu(s, s', c, x.(intr := !x.intr))))
  }

  ghost predicate OnLock(s: State, s': State, c: nat, l: nat)
    requires c < |s.cpus| && l < |s.locks|
  {
    Acquire(s, s', c, l) || Swap(s, s', c, l) || Record(s, s', c, l) || Release(s, s', c, l) || Unlock(s, s', c, l)
  }

  ghost predicate Step(s: State, s': State, c: nat, l: nat) {
    c < |s.cpus| && l < |s.locks| && (OnLock(s, s', c, l) || Pop(s, s', c) || Other(s, s', c))
  }

  ghost predicate Next(s: State, s': State) { exists c, l :: Step(s, s', c, l) }

  ghost predicate Init(s: State) {
    && (forall c :: 0 <= c < |s.cpus| ==> Idle(s.cpus[c]))
    && (forall l :: 0 <= l < |s.locks| ==> s.locks[l] == Lock(false, NONE))
  }

  ghost predicate Idle(x: Cpu) { x.pc.Running? && x.noff == 0 && x.held == {} && x.extra == 0 }

  ghost predicate Run(run: seq<State>) {
    && |run| > 0 && Init(run[0])
    && forall i :: 0 < i < |run| ==> Next(run[i - 1], run[i])
  }

  // ---- The invariant ----------------------------------------------------------------------------

  /** The CPU is between the swap that took the lock and the store that gives it back. */
  predicate Inside(x: Cpu, l: nat) { l in x.held || x.pc == Swapped(l) || x.pc == Cleared(l) }

  predicate Live(x: Cpu) { !x.pc.Panicked? }

  predicate AtLock(x: Cpu) { x.pc.Spinning? || x.pc.Swapped? || x.pc.Cleared? }

  /** `noff` counts what disables interrupts, and pop_off() has never panicked. */
  ghost predicate CpuOk(x: Cpu) {
    && (Live(x) ==> x.noff == |x.held| + x.extra + (if x.pc.Running? then 0 else 1))
    && (x.noff > 0 ==> !x.intr && x.intena == x.before)
    && x.pc != Panicked(InPopOff)
    && (AtLock(x) ==> x.pc.l !in x.held)
  }

  /** One CPU and one lock: the lock word is set while the CPU is inside, and lk->cpu names the CPU
      exactly while it holds the lock. */
  ghost predicate LockOk(c: nat, x: Cpu, l: nat, k: Lock) {
    && (Inside(x, l) ==> k.locked)
    && (l in x.held <==> k.cpu == c)
  }

  ghost predicate Exclusive(x: Cpu, y: Cpu, l: nat) { !(Inside(x, l) && Inside(y, l)) }

  ghost predicate Inv(s: State) {
    && (forall c: nat :: c < |s.cpus| ==> CpuOk(s.cpus[c]))
    && (forall c: nat, l: nat :: c < |s.cpus| && l < |s.locks| ==> LockOk(c, s.cpus[c], l, s.locks[l]))
    && (forall c: nat, d: nat, l: nat ::
          c < |s.cpus| && d < |s.cpus| && c != d && l < |s.locks| ==> Exclusive(s.cpus[c], s.cpus[d], l))
  }

  // ---- Steps keep it ----------------------------------------------------------------------------

  /** A step touches CPU `c` and lock `l` only. */
  lemma Elsewhere(s: State, s': State, c: nat, l: nat)
    requires Step(s, s', c, l)
    ensures c < |s.cpus| == |s'.cpus| && l < |s.locks| == |s'.locks|
    ensures forall d :: 0 <= d < |s.cpus| && d != c ==> s'.cpus[d] == s.cpus[d]
    ensures forall k :: 0 <= k < |s.locks| && k != l ==> s'.locks[k] == s.locks[k]
  {
  }

  lemma StepKeepsCpu(s: State, s': State, c: nat, l: nat)
    requires Step(s, s', c, l) && CpuOk(s.cpus[c]) && LockOk(c, s.cpus[c], l, s.locks[l])
    ensures |s'.cpus| == |s.cpus| && CpuOk(s'.cpus[c])
  {
  }

  lemma StepKeepsLock(s: State, s': State, c: nat, l: nat, k: nat)
    requires Step(s, s', c, l) && k < |s.locks| && CpuOk(s.cpus[c])
    requires LockOk(c, s.cpus[c], k, s.locks[k]) && LockOk(c, s.cpus[c], l, s.locks[l])
    ensures |s'.cpus| == |s.cpus| && |s'.locks| == |s.locks| && LockOk(c, s'.cpus[c], k, s'.locks[k])
  {
  }

  /** Another CPU's view of the lock that the step touches. */
  lemma StepKeepsOther(s: State, s': State, c: nat, l: nat, d: nat)
    requires Step(s, s', c, l) && d < |s.cpus| && d != c && Exclusive(s.cpus[c], s.cpus[d], l)
    requires LockOk(d, s.cpus[d], l, s.locks[l]) && LockOk(c, s.cpus[c], l, s.locks[l])
    ensures |s'.cpus| == |s.cpus| && |s'.locks| == |s.locks| && LockOk(d, s'.cpus[d], l, s'.locks[l])
  {
  }

  lemma StepKeepsExclusive(s: State, s': State, c: nat, l: nat, d: nat, k: nat)
    requires Step(s, s', c, l) && d < |s.cpus| && d != c && k < |s.locks| && Exclusive(s.cpus[c], s.cpus[d], k)
    requires LockOk(d, s.cpus[d], l, s.locks[l]) && LockOk(c, s.cpus[c], l, s.locks[l])
    ensures |s'.cpus| == |s.cpus| && Exclusive(s'.cpus[c], s'.cpus[d], k)
  {
  }

  lemma StepKeepsInv(s: State, s': State, c: nat, l: nat)
    requires Inv(s) && Step(s, s', c, l)
    ensures Inv(s')
  {
    hide Step, LockOk, CpuOk, Exclusive;
    Elsewhere(s, s', c, l);
    StepKeepsCpu(s, s', c, l);
    forall k: nat | k < |s.locks| ensures LockOk(c, s'.cpus[c], k, s'.locks[k]) {
      StepKeepsLock(s, s', c, l, k);
    }
    forall d: nat | d < |s.cpus| && d != c ensures LockOk(d, s'.cpus[d], l, s'.locks[l]) {
      StepKeepsOther(s, s', c, l, d);
    }
    forall d: nat, k: nat | d < |s.cpus| && d != c && k < |s.locks|
      ensures Exclusive(s'.cpus[c], s'.cpus[d], k) && Exclusive(s'.cpus[d], s'.cpus[c], k)
    {
      StepKeepsExclusive(s, s', c, l, d, k);
      ExclusiveSwaps(s'.cpus[c], s'.cpus[d], k);
    }
  }

  lemma ExclusiveSwaps(x: Cpu, y: Cpu, l: nat)
    ensures Exclusive(x, y, l) == Exclusive(y, x, l)
  {
  }

  /** Every state of every run satisfies the invariant. */
  lemma {:induction false} RunKeepsInv(run: seq<State>, i: nat)
    requires Run(run) && i < |run|
    ensures Inv(run[i])
  {
    if i > 0 {
      RunKeepsInv(run, i - 1);
      assert Next(run[i - 1], run[i]);
      var c, l :| Step(run[i - 1], run[i], c, l);
      StepKeepsInv(run[i - 1], run[i], c, l);
    }
  }

  // ---- The guarantees ---------------------------------------------------------------------------

  /** No two CPUs are ever between acquire() and release() of one lock. */
  lemma MutualExclusion(run: seq<State>, i: nat, c: nat, d: nat, l: nat)
    requires Run(run) && i < |run| && c < |run[i].cpus| && d < |run[i].cpus| && l < |run[i].locks|
    requires c != d && l in run[i].cpus[c].held
    ensures l !in run[i].cpus[d].held
  {
    RunKeepsInv(run, i);
    assert Exclusive(run[i].cpus[c], run[i].cpus[d], l);
  }

  /** holding() is exact on every CPU, though it reads lk->locked and lk->cpu without the lock. */
  lemma HoldingIsExact(run: seq<State>, i: nat, c: nat, l: nat)
    requires Run(run) && i < |run| && c < |run[i].cpus| && l < |run[i].locks|
    ensures Holding(run[i], c, l) <==> l in run[i].cpus[c].held
  {
    RunKeepsInv(run, i);
    assert LockOk(c, run[i].cpus[c], l, run[i].locks[l]);
  }

  /** Interrupts are off on a CPU from the start of acquire() to the pop_off() that ends the last
      release(): whatever the order of the releases, no interrupt handler can find a lock of its own
      CPU held. */
  lemma InterruptsOff(run: seq<State>, i: nat, c: nat)
    requires Run(run) && i < |run| && c < |run[i].cpus|
    requires run[i].cpus[c].held != {} || !run[i].cpus[c].pc.Running?
    requires Live(run[i].cpus[c])
    ensures !run[i].cpus[c].intr
  {
    RunKeepsInv(run, i);
    assert CpuOk(run[i].cpus[c]);
  }

  /** When a release() leaves nothing held and no push_off() open, the interrupt state is the one from
      before the outermost acquire(); otherwise interrupts stay off. pop_off() does not panic. */
  lemma ReleaseRestores(run: seq<State>, i: nat, c: nat)
    requires Run(run) && 0 < i < |run| && c < |run[i - 1].cpus| && Pop(run[i - 1], run[i], c)
    ensures |run[i].cpus| == |run[i - 1].cpus| && run[i].cpus[c].pc.Running?
    ensures run[i].cpus[c].held == {} && run[i].cpus[c].extra == 0 ==> run[i].cpus[c].intr == run[i - 1].cpus[c].before
    ensures run[i].cpus[c].held != {} || run[i].cpus[c].extra > 0 ==> !run[i].cpus[c].intr
  {
    RunKeepsInv(run, i - 1);
    assert CpuOk(run[i - 1].cpus[c]);
  }

  /** The only panics are the callers' own mistakes: acquire() of a lock that the CPU holds, and
      release() of one that it does not hold. */
  lemma PanicsAreMisuse(run: seq<State>, i: nat, c: nat, l: nat, d: nat)
    requires Run(run) && 0 < i < |run| && Step(run[i - 1], run[i], c, l)
    requires d < |run[i - 1].cpus| && Live(run[i - 1].cpus[d])
    ensures |run[i].cpus| == |run[i - 1].cpus|
    ensures !Live(run[i].cpus[d]) <==>
              && d == c
              && (|| (Acquire(run[i - 1], run[i], c, l) && l in run[i - 1].cpus[c].held)
                  || (Release(run[i - 1], run[i], c, l) && l !in run[i - 1].cpus[c].held))
  {
    RunKeepsInv(run, i - 1);
    HoldingIsExact(run, i - 1, c, l);
    assert CpuOk(run[i - 1].cpus[d]);
    Elsewhere(run[i - 1], run[i], c, l);
  }
}
