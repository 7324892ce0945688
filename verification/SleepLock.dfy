/** Sleep locks (kernel/sleeplock.c) on top of sleep()/wakeup() and the scheduler
    (kernel/proc.c), under every interleaving of any number of processes. The step system
    follows the code from one lock operation to the next; `lk` is one sleep lock, `lk.lk`
    its spin lock. A timer interrupt may preempt a process wherever it holds no spin lock. */
module SleepLock {
  /** Where a process goes on that has given up the CPU for some other reason. */
  datatype Point = AtOut | AtAcquiring | AtReacquiring | AtHolding | AtReleasing

  /** Where a process is. */
  datatype Pc =
    | Out
    | Acquiring          // acquiresleep(): acquire(&lk->lk)
    | Testing            // while(lk->locked)
    | Took               // locked and pid are set, about to release(&lk->lk)
    | Sleep1             // sleep(): acquire(&p->lock)
    | Sleep2             // release(lk)
    | Sleep3             // p->chan = chan; p->state = SLEEPING
    | Sleep4             // sched(): about to swtch(), p->lock held
    | Switched           // off the CPU
    | Resumed            // back from swtch(), p->lock held: p->chan = 0; release(&p->lock)
    | Reacquiring        // acquire(lk)
    | Holding            // has the sleep lock
    | Releasing          // releasesleep(): acquire(&lk->lk)
    | Clearing           // lk->locked = 0
    | Waking(i: nat)     // wakeup(): about to acquire proc[i].lock
    | Checking(i: nat)   // wakeup(): holds proc[i].lock
    | Yielding(r: Point) // yield(), or sleep() on some other channel: sched(), p->lock held
    | Away(r: Point)     // off the CPU
    | Back(r: Point)     // back from swtch(): release(&p->lock)

  /** Who holds a p->lock. */
  datatype Holder = Free | By(p: nat) | Scheduler

  datatype Proc = Proc(pc: Pc, sleeping: bool, chanIsLk: bool, lock: Holder)

  datatype State = State(procs: seq<Proc>, spin: int, locked: bool, owner: int)

  const NONE: int := -1

  ghost function Set(s: State, p: nat, x: Proc): (r: State)
    requires p < |s.procs|
  {
    s.(procs := s.procs[p := x])
  }

  ghost function Goto(s: State, p: nat, pc: Pc): (r: State)
    requires p < |s.procs|
  {
    Set(s, p, s.procs[p].(pc := pc))
  }

  // ---- Steps -----------------------------------------------------------------------------------

  /** acquiresleep() and releasesleep() are called. */
  ghost predicate Call(s: State, s': State, p: nat)
    requires p < |s.procs|
  {
    || (s.procs[p].pc.Out? && s' == Goto(s, p, Acquiring))
    || (s.procs[p].pc.Holding? && s' == Goto(s, p, Releasing))
  }

  ghost predicate AcquireSpin(s: State, s': State, p: nat)
    requires p < |s.procs|
  {
    && s.spin == NONE
    && (|| ((s.procs[p].pc.Acquiring? || s.procs[p].pc.Reacquiring?) && s' == Goto(s, p, Testing).(spin := p))
        || (s.procs[p].pc.Releasing? && s' == Goto(s, p, Clearing).(spin := p)))
  }

  ghost predicate Test(s: State, s': State, p: nat)
    requires p < |s.procs|
  {
    && s.procs[p].pc.Testing?
    && s' == if s.locked then Goto(s, p, Sleep1) else Goto(s, p, Took).(locked := true, owner := p)
  }

  ghost predicate ReleaseSpin(s: State, s': State, p: nat)
    requires p < |s.procs|
  {
    || (s.procs[p].pc.Took? && s' == Goto(s, p, Holding).(spin := NONE))
    || (s.procs[p].pc.Sleep2? && s' == Goto(s, p, Sleep3).(spin := NONE))
    || (s.procs[p].pc == Waking(|s.procs|) && s' == Goto(s, p, Out).(spin := NONE))
  }

  /** sleep() up to the switch to the scheduler. */
  ghost predicate GoToSleep(s: State, s': State, p: nat)
    requires p < |s.procs|
  {
    var x := s.procs[p];
    || (x.pc.Sleep1? && x.lock.Free? && s' == Set(s, p, x.(pc := Sleep2, lock := By(p))))
    || (x.pc.Sleep3? && s' == Set(s, p, x.(pc := Sleep4, sleeping := true, chanIsLk := true)))
    || (x.pc.Sleep4? && s' == Set(s, p, x.(pc := Switched, lock := Scheduler)))
  }

  predicate Interruptible(pc: Pc) {
    pc.Out? || pc.Acquiring? || pc.Reacquiring? || pc.Holding? || pc.Releasing?
  }

  function Later(pc: Pc): (r: Point)
    requires Interruptible(pc)
  {
    match pc
    case Out => AtOut
    case Acquiring => AtAcquiring
    case Reacquiring => AtReacquiring
    case Holding => AtHolding
    case Releasing => AtReleasing
  }

  function Resume(r: Point): (pc: Pc) {
    match r
    case AtOut => Out
    case AtAcquiring => Acquiring
    case AtReacquiring => Reacquiring
    case AtHolding => Holding
    case AtReleasing => Releasing
  }

  /** yield() on a timer interrupt; or sleep() on some other channel, as for a disk block. */
  ghost predicate GiveUp(s: State, s': State, p: nat)
    requires p < |s.procs|
  {
    var x := s.procs[p];
    || (Interruptible(x.pc) && x.lock.Free? && s' == Set(s, p, x.(pc := Yielding(Later(x.pc)), lock := By(p))))
    || ((x.pc.Out? || x.pc.Holding?) && x.lock.Free? &&
        s' == Set(s, p, x.(pc := Yielding(Later(x.pc)), lock := By(p), sleeping := true)))
    || (x.pc.Yielding? && s' == Set(s, p, x.(pc := Away(x.pc.r), lock := Scheduler)))
  }

  /** scheduler(): release the lock of the process that switched away; later pick a
      RUNNABLE process and switch to it with its lock held. */
  ghost predicate Schedule(s: State, s': State, p: nat)
    requires p < |s.procs|
  {
    var x := s.procs[p];
    || ((x.pc.Switched? || x.pc.Away?) && x.lock.Scheduler? && s' == Set(s, p, x.(lock := Free)))
    || (x.pc.Switched? && x.lock.Free? && !x.sleeping && s' == Set(s, p, x.(pc := Resumed, lock := By(p))))
    || (x.pc.Away? && x.lock.Free? && !x.sleeping && s' == Set(s, p, x.(pc := Back(x.pc.r), lock := By(p))))
  }

  ghost predicate TidyUp(s: State, s': State, p: nat)
    requires p < |s.procs|
  {
    var x := s.procs[p];
    || (x.pc.Resumed? && s' == Set(s, p, x.(pc := Reacquiring, chanIsLk := false, lock := Free)))
    || (x.pc.Back? && s' == Set(s, p, x.(pc := Resume(x.pc.r), lock := Free)))
  }

  ghost predicate Clear(s: State, s': State, p: nat)
    requires p < |s.procs|
  {
    s.procs[p].pc.Clearing? && s' == Goto(s, p, Waking(0)).(locked := false, owner := NONE)
  }

  /** wakeup()'s loop over the process table. */
  ghost predicate WakeLock(s: State, s': State, p: nat)
    requires p < |s.procs|
  {
    && s.procs[p].pc.Waking?
    && var i := s.procs[p].pc.i;
       && i < |s.procs|
       && (|| (i == p && s' == Goto(s, p, Waking(i + 1)))
           || (i != p && s.procs[i].lock.Free? && s' == Goto(Set(s, i, s.procs[i].(lock := By(p))), p, Checking(i))))
  }

  ghost predicate WakeCheck(s: State, s': State, p: nat)
    requires p < |s.procs|
  {
    && s.procs[p].pc.Checking?
    && var i := s.procs[p].pc.i;
       && i < |s.procs| && i != p
       && var asleep := s.procs[i].sleeping && !s.procs[i].chanIsLk;
          s' == Goto(Set(s, i, s.procs[i].(sleeping := asleep, lock := Free)), p, Waking(i + 1))
  }

  /** kkill() of process `p`, or a wakeup() on some other channel. */
  ghost predicate Kill(s: State, s': State, p: nat)
    requires p < |s.procs|
  {
    s.procs[p].lock.Free? && s' == Set(s, p, s.procs[p].(sleeping := false))
  }

  ghost predicate Step(s: State, s': State, p: nat) {
    && p < |s.procs|
    && (|| Call(s, s', p) || AcquireSpin(s, s', p) || Test(s, s', p) || ReleaseSpin(s, s', p)
        || GoToSleep(s, s', p) || Schedule(s, s', p) || TidyUp(s, s', p) || Clear(s, s', p)
        || WakeLock(s, s', p) || WakeCheck(s, s', p) || Kill(s, s', p) || GiveUp(s, s', p))
  }

  ghost predicate Next(s: State, s': State) { exists p :: Step(s, s', p) }

  ghost predicate Init(s: State) {
    && s.spin == NONE && !s.locked && s.owner == NONE
    && forall i :: 0 <= i < |s.procs| ==> s.procs[i] == Proc(Out, false, false, Free)
  }

  ghost predicate Run(run: seq<State>) {
    && |run| > 0 && Init(run[0])
    && forall i :: 0 < i < |run| ==> Next(run[i - 1], run[i])
  }

  // ---- The invariant ----------------------------------------------------------------------------

  /** Between acquire(&lk->lk) and the matching release. */
  predicate InSpin(pc: Pc) {
    pc.Testing? || pc.Took? || pc.Sleep1? || pc.Sleep2? || pc.Clearing? || pc.Waking? || pc.Checking?
  }

  /** Between setting lk->locked and clearing it. */
  predicate Owns(pc: Pc) {
    || pc.Took? || pc.Holding? || pc.Releasing? || pc.Clearing?
    || ((pc.Yielding? || pc.Away? || pc.Back?) && (pc.r.AtHolding? || pc.r.AtReleasing?))
  }

  predicate HasOwnLock(pc: Pc) {
    pc.Sleep2? || pc.Sleep3? || pc.Sleep4? || pc.Resumed? || pc.Yielding? || pc.Back?
  }

  /** Asleep on the lock, or past the point of no return: lk->lk is released but SLEEPING
      is not yet set. */
  predicate Committed(x: Proc) { x.pc.Sleep3? || x.pc.Sleep4? || (x.pc.Switched? && x.sleeping) }

  /** lk->lk is held by exactly the process that is between acquire and release. */
  ghost predicate SpinAt(s: State, p: nat)
    requires p < |s.procs|
  {
    InSpin(s.procs[p].pc) <==> s.spin == p
  }

  /** lk->locked and lk->pid name exactly the process that has the lock. */
  ghost predicate OwnerAt(s: State, p: nat)
    requires p < |s.procs|
  {
    && (Owns(s.procs[p].pc) <==> s.locked && s.owner == p)
    && (s.procs[p].pc.Sleep1? || s.procs[p].pc.Sleep2? ==> s.locked)
  }

  /** Who may hold the process's own lock, by where that process is. */
  ghost predicate LockAt(s: State, i: nat)
    requires i < |s.procs|
  {
    match s.procs[i].lock
    case Free => !HasOwnLock(s.procs[i].pc)
    case Scheduler => s.procs[i].pc.Switched? || s.procs[i].pc.Away?
    case By(p) => if p == i then HasOwnLock(s.procs[i].pc)
                  else p < |s.procs| && s.procs[p].pc == Checking(i) && !HasOwnLock(s.procs[i].pc)
  }

  ghost predicate WakerAt(s: State, p: nat)
    requires p < |s.procs|
  {
    && (s.procs[p].pc.Checking? ==> var i := s.procs[p].pc.i; i < |s.procs| && i != p && s.procs[i].lock == By(p))
    && (s.procs[p].pc.Waking? ==> s.procs[p].pc.i <= |s.procs|)
  }

  predicate SleeperOk(x: Proc) {
    && (x.sleeping ==> x.pc.Sleep4? || x.pc.Switched? || x.pc.Yielding? || x.pc.Away?)
    && (x.pc.Sleep4? ==> x.sleeping)
    && (x.pc.Sleep4? || x.pc.Switched? ==> x.chanIsLk)
    && (x.chanIsLk ==> x.pc.Sleep4? || x.pc.Switched? || x.pc.Resumed?)
  }

  /** The waker that will still get to process `q`. */
  ghost predicate WillWake(s: State, q: nat) {
    && 0 <= s.spin < |s.procs| && s.spin != q
    && var pc := s.procs[s.spin].pc;
       (pc.Waking? || pc.Checking?) && pc.i <= q
  }

  /** A committed sleeper has a reason to sleep, or a waker on its way. */
  ghost predicate ReasonAt(s: State, q: nat)
    requires q < |s.procs|
  {
    Committed(s.procs[q]) ==> s.locked || WillWake(s, q)
  }

  ghost predicate At(s: State, p: nat)
    requires p < |s.procs|
  {
    SpinAt(s, p) && OwnerAt(s, p) && LockAt(s, p) && WakerAt(s, p) && SleeperOk(s.procs[p]) && ReasonAt(s, p)
  }

  /** lk->locked and lk->pid are set and cleared together. */
  ghost predicate Recorded(s: State) { if s.locked then 0 <= s.owner < |s.procs| else s.owner == NONE }

  ghost predicate Inv(s: State) {
    && (s.spin == NONE || 0 <= s.spin < |s.procs|) && Recorded(s)
    && forall p :: 0 <= p < |s.procs| ==> At(s, p)
  }

  // ---- Every step keeps it ----------------------------------------------------------------------

  /** The other process whose record a step of `p` may touch. */
  ghost function Other(s: State, p: nat): nat
    requires p < |s.procs|
  {
    if s.procs[p].pc.Checking? || (s.procs[p].pc.Waking? && s.procs[p].pc.i < |s.procs|) then s.procs[p].pc.i else p
  }

  /** What is known of the processes that a step of `p` involves, and of a bystander `q`. */
  ghost predicate Near(s: State, p: nat, q: nat) {
    && p < |s.procs| && q < |s.procs| && At(s, p) && At(s, q) && At(s, Other(s, p))
    && (s.spin == NONE || (0 <= s.spin < |s.procs| && At(s, s.spin)))
  }

  predicate Wakes(pc: Pc) { pc.Waking? || pc.Checking? }

  /** The process's own lock is not with anybody else, and is where it should be. */
  ghost predicate OwnLock(x: Proc, y: Proc, p: nat) {
    && (x.lock.By? ==> x.lock.p == p)
    && match y.lock
       case Free => !HasOwnLock(y.pc)
       case Scheduler => y.pc.Switched? || y.pc.Away?
       case By(r) => r == p && HasOwnLock(y.pc)
  }

  /** A step of process `p` that changes only its own record, from `x` to `y`, and neither takes nor gives
      up one of the two locks. */
  ghost predicate Private(x: Proc, y: Proc, p: nat) {
    && InSpin(y.pc) == InSpin(x.pc) && Owns(y.pc) == Owns(x.pc) && !Wakes(x.pc) && !Wakes(y.pc)
    && ((y.lock == x.lock && HasOwnLock(y.pc) == HasOwnLock(x.pc) && !x.lock.Scheduler?) || OwnLock(x, y, p))
    && SleeperOk(y) && (Committed(y) ==> Committed(x))
    && (y.pc.Sleep1? || y.pc.Sleep2? ==> x.pc.Sleep1? || x.pc.Sleep2?)
  }

  lemma PrivateKeepsAt(s: State, s': State, p: nat, y: Proc, q: nat)
    requires Near(s, p, q) && s' == Set(s, p, y) && Private(s.procs[p], y, p)
    ensures At(s', q) && (s'.spin == NONE || 0 <= s'.spin < |s.procs|)
  {
    hide InSpin, Owns, HasOwnLock, Committed, SleeperOk;
  }

  lemma CallKeepsAt(s: State, s': State, p: nat, q: nat)
    requires Near(s, p, q) && Call(s, s', p)
    ensures At(s', q) && (s'.spin == NONE || 0 <= s'.spin < |s.procs|)
  {
    CallIsPrivate(s, s', p);
    hide *;
    PrivateKeepsAt(s, s', p, s'.procs[p], q);
  }

  lemma CallIsPrivate(s: State, s': State, p: nat)
    requires p < |s.procs| && At(s, p) && Call(s, s', p)
    ensures p < |s'.procs| && s' == Set(s, p, s'.procs[p]) && Private(s.procs[p], s'.procs[p], p)
  {
  }

  lemma AcquireSpinKeepsAt(s: State, s': State, p: nat, q: nat)
    requires Near(s, p, q) && AcquireSpin(s, s', p)
    ensures At(s', q) && (s'.spin == NONE || 0 <= s'.spin < |s.procs|)
  {
  }

  lemma TestKeepsAt(s: State, s': State, p: nat, q: nat)
    requires Near(s, p, q) && Test(s, s', p)
    ensures At(s', q) && (s'.spin == NONE || 0 <= s'.spin < |s.procs|)
  {
  }

  lemma ReleaseSpinKeepsAt(s: State, s': State, p: nat, q: nat)
    requires Near(s, p, q) && ReleaseSpin(s, s', p)
    ensures At(s', q) && (s'.spin == NONE || 0 <= s'.spin < |s.procs|)
  {
  }

  lemma GoToSleepKeepsAt(s: State, s': State, p: nat, q: nat)
    requires Near(s, p, q) && GoToSleep(s, s', p)
    ensures At(s', q) && (s'.spin == NONE || 0 <= s'.spin < |s.procs|)
  {
    GoToSleepIsPrivate(s, s', p);
    hide *;
    PrivateKeepsAt(s, s', p, s'.procs[p], q);
  }

  lemma GoToSleepIsPrivate(s: State, s': State, p: nat)
    requires p < |s.procs| && At(s, p) && GoToSleep(s, s', p)
    ensures p < |s'.procs| && s' == Set(s, p, s'.procs[p]) && Private(s.procs[p], s'.procs[p], p)
  {
  }

  lemma ScheduleKeepsAt(s: State, s': State, p: nat, q: nat)
    requires Near(s, p, q) && Schedule(s, s', p)
    ensures At(s', q) && (s'.spin == NONE || 0 <= s'.spin < |s.procs|)
  {
    ScheduleIsPrivate(s, s', p);
    hide *;
    PrivateKeepsAt(s, s', p, s'.procs[p], q);
  }

  lemma ScheduleIsPrivate(s: State, s': State, p: nat)
    requires p < |s.procs| && At(s, p) && Schedule(s, s', p)
    ensures p < |s'.procs| && s' == Set(s, p, s'.procs[p]) && Private(s.procs[p], s'.procs[p], p)
  {
  }

  lemma TidyUpKeepsAt(s: State, s': State, p: nat, q: nat)
    requires Near(s, p, q) && TidyUp(s, s', p)
    ensures At(s', q) && (s'.spin == NONE || 0 <= s'.spin < |s.procs|)
  {
    TidyUpIsPrivate(s, s', p);
    hide *;
    PrivateKeepsAt(s, s', p, s'.procs[p], q);
  }

  lemma TidyUpIsPrivate(s: State, s': State, p: nat)
    requires p < |s.procs| && At(s, p) && TidyUp(s, s', p)
    ensures p < |s'.procs| && s' == Set(s, p, s'.procs[p]) && Private(s.procs[p], s'.procs[p], p)
  {
  }

  lemma ClearKeepsAt(s: State, s': State, p: nat, q: nat)
    requires Near(s, p, q) && Clear(s, s', p)
    ensures At(s', q) && (s'.spin == NONE || 0 <= s'.spin < |s.procs|)
  {
  }

  lemma WakeLockKeepsAt(s: State, s': State, p: nat, q: nat)
    requires Near(s, p, q) && WakeLock(s, s', p)
    ensures At(s', q) && (s'.spin == NONE || 0 <= s'.spin < |s.procs|)
  {
  }

  lemma WakeCheckKeepsAt(s: State, s': State, p: nat, q: nat)
    requires Near(s, p, q) && WakeCheck(s, s', p)
    ensures At(s', q) && (s'.spin == NONE || 0 <= s'.spin < |s.procs|)
  {
  }

  lemma KillKeepsAt(s: State, s': State, p: nat, q: nat)
    requires Near(s, p, q) && Kill(s, s', p)
    ensures At(s', q) && (s'.spin == NONE || 0 <= s'.spin < |s.procs|)
  {
  }

  lemma GiveUpKeepsAt(s: State, s': State, p: nat, q: nat)
    requires Near(s, p, q) && GiveUp(s, s', p)
    ensures At(s', q) && (s'.spin == NONE || 0 <= s'.spin < |s.procs|)
  {
    GiveUpIsPrivate(s, s', p);
    hide *;
    PrivateKeepsAt(s, s', p, s'.procs[p], q);
  }

  lemma GiveUpIsPrivate(s: State, s': State, p: nat)
    requires p < |s.procs| && At(s, p) && GiveUp(s, s', p)
    ensures p < |s'.procs| && s' == Set(s, p, s'.procs[p]) && Private(s.procs[p], s'.procs[p], p)
  {
  }

  /** A step of `p` keeps what is claimed of `q`. */
  lemma KeepsAt(s: State, s': State, p: nat, q: nat)
    requires Inv(s) && Step(s, s', p) && q < |s.procs|
    ensures |s'.procs| == |s.procs| && At(s', q) && (s'.spin == NONE || 0 <= s'.spin < |s.procs|)
  {
    assert At(s, p) && At(s, q);
    assert Near(s, p, q);
    hide *;
    StepIs(s, s', p);
    if Call(s, s', p) {
      CallKeepsAt(s, s', p, q);
    } else if AcquireSpin(s, s', p) {
      AcquireSpinKeepsAt(s, s', p, q);
    } else if Test(s, s', p) {
      TestKeepsAt(s, s', p, q);
    } else if ReleaseSpin(s, s', p) {
      ReleaseSpinKeepsAt(s, s', p, q);
    } else if GoToSleep(s, s', p) {
      GoToSleepKeepsAt(s, s', p, q);
    } else if Schedule(s, s', p) {
      ScheduleKeepsAt(s, s', p, q);
    } else if TidyUp(s, s', p) {
      TidyUpKeepsAt(s, s', p, q);
    } else if Clear(s, s', p) {
      ClearKeepsAt(s, s', p, q);
    } else if WakeLock(s, s', p) {
      WakeLockKeepsAt(s, s', p, q);
    } else if WakeCheck(s, s', p) {
      WakeCheckKeepsAt(s, s', p, q);
    } else if Kill(s, s', p) {
      KillKeepsAt(s, s', p, q);
    } else {
      GiveUpKeepsAt(s, s', p, q);
    }
  }

  lemma StepIs(s: State, s': State, p: nat)
    requires Step(s, s', p)
    ensures p < |s.procs| && |s'.procs| == |s.procs|
    ensures || Call(s, s', p) || AcquireSpin(s, s', p) || Test(s, s', p) || ReleaseSpin(s, s', p) || GoToSleep(s, s', p)
            || Schedule(s, s', p) || TidyUp(s, s', p) || Clear(s, s', p) || WakeLock(s, s', p) || WakeCheck(s, s', p) ||
               Kill(s, s', p) || GiveUp(s, s', p)
  {
  }

  lemma StepRecords(s: State, s': State, p: nat)
    requires Recorded(s) && Step(s, s', p)
    ensures Recorded(s')
  {
    StepIs(s, s', p);
    hide Step;
  }

  lemma StepKeepsInv(s: State, s': State, p: nat)
    requires Inv(s) && Step(s, s', p)
    ensures Inv(s')
  {
    assert At(s, p);
    KeepsAt(s, s', p, p);
    StepRecords(s, s', p);
    hide Step, Recorded;
    forall q | 0 <= q < |s.procs| ensures At(s', q) {
      KeepsAt(s, s', p, q);
    }
  }

  /** The invariant holds in every state of every run. */
  lemma {:induction false} RunKeepsInv(run: seq<State>, i: nat)
    requires Run(run) && i < |run|
    ensures Inv(run[i])
  {
    if i > 0 {
      RunKeepsInv(run, i - 1);
      var p :| Step(run[i - 1], run[i], p);
      StepKeepsInv(run[i - 1], run[i], p);
    }
  }

  /** Mutual exclusion: two processes never have the sleep lock at once, and the one that
      has it is the one whose pid the lock records (so holdingsleep() is right). */
  lemma MutualExclusion(run: seq<State>, i: nat, p: nat, q: nat)
    requires Run(run) && i < |run| && p < |run[i].procs| && q < |run[i].procs|
    requires Owns(run[i].procs[p].pc)
    ensures run[i].locked && run[i].owner == p
    ensures Owns(run[i].procs[q].pc) ==> p == q
  {
    RunKeepsInv(run, i);
    assert At(run[i], p) && At(run[i], q);
  }

  /** The lock is taken exactly while some process has it, the one that it records: releasesleep() gives
      it up. */
  lemma TakenExactly(run: seq<State>, i: nat)
    requires Run(run) && i < |run|
    ensures var s := run[i];
            if s.locked then 0 <= s.owner < |s.procs| && Owns(s.procs[s.owner].pc)
            else s.owner == NONE && forall p :: 0 <= p < |s.procs| ==> !Owns(s.procs[p].pc)
  {
    RunKeepsInv(run, i);
    var s := run[i];
    if s.locked {
      assert At(s, s.owner);
    }
    forall p | 0 <= p < |s.procs| && !s.locked ensures !Owns(s.procs[p].pc) {
      assert At(s, p);
    }
  }

  /** No lost wakeup: whenever lk->lk is free, a process that sleeps on the lock, or has
      committed to, does so because the lock is held. */
  lemma SleepImpliesLocked(run: seq<State>, i: nat, q: nat)
    requires Run(run) && i < |run| && q < |run[i].procs|
    requires run[i].spin == NONE && Committed(run[i].procs[q])
    ensures run[i].locked
  {
    RunKeepsInv(run, i);
    assert At(run[i], q);
  }
}
