/** Processes from fork to exit (kernel/proc.c): kfork(), kexit(), reparent(), kwait(), sleep(),
    wakeup(), yield(), kkill() and the scheduler, under every interleaving of any number of
    processes on any number of CPUs. The step system follows the code from one lock operation
    to the next, except that a critical section of one p->lock in which no other lock is taken
    is a single step. A timer interrupt may preempt a process wherever it holds no lock. Process 0
    is initproc. */
module ExitWait {
  datatype RunState = Unused | Used | Runnable | Running | Sleeping | Zombie

  /** Where a process goes on when the scheduler picks it. */
  datatype Resume = InWait | Elsewhere | InForkWait(i: nat) | InForkReady(i: nat) | ForkRet | Dead

  /** What kexit() does after a wakeup(). */
  datatype Cont = AfterReparent(i: nat) | AfterExit

  datatype Chan = NoChan | OnProc(p: nat) | Other

  datatype Pc =
    | User                                // anywhere else
    | ForkWait(i: nat)                    // kfork(): proc[i] is USED; acquire(&wait_lock)
    | ForkReady(i: nat)                   // acquire(&np->lock); np->state = RUNNABLE
    | Reparent(i: nat)                    // kexit(): reparent() is about to look at proc[i]
    | Wake(ch: nat, j: nat, cont: Cont)   // wakeup(): about to look at proc[j]
    | ExitLock                            // acquire(&p->lock); p->state = ZOMBIE
    | ExitRelease                         // release(&wait_lock)
    | ExitSched                           // sched()
    | WaitAcquire                         // sleep() in kwait(): acquire(&wait_lock)
    | Scan(i: nat, kids: bool)            // kwait(): about to look at proc[i]
    | SleepLock                           // sleep() in kwait(): acquire(&p->lock)
    | SleepRelease                        // release(&wait_lock)
    | SleepMark                           // p->chan = p; p->state = SLEEPING
    | SleepSched                          // sched()
    | OtherSched(r: Resume)               // sleep() on some other channel, yield(): sched()
    | Resumed(r: Resume)                  // back from swtch(): p->chan = 0; release(&p->lock)
    | Off(r: Resume)                      // switched away

  /** A p->lock held for longer: by the process itself or, across swtch(), by a CPU's scheduler. */
  datatype Holder = Free | Own | Sched(c: nat)

  /** `cpu` is the CPU that a process is on, and `maker` the process that is creating it. */
  datatype Proc = Proc(state: RunState, parent: int, pid: nat, chan: Chan, lock: Holder, pc: Pc, cpu: int, maker: int)

  /** `cpus[c]` is c->proc; `reaped` are the pids that kwait() has freed. */
  datatype State = State(procs: seq<Proc>, cpus: seq<int>, waitLock: int, nextpid: nat, reaped: seq<nat>)

  const NONE: int := -1
  const INIT: nat := 0

  ghost function Set(s: State, p: nat, x: Proc): (r: State)
    requires p < |s.procs|
  {
    s.(procs := s.procs[p := x])
  }

  ghost function Goto(s: State, p: nat, pc: Pc): (r: State)
    requires p < |s.procs|
  {
    Set(s, p, s.procs[p].(pc := pc))
  }

  // ---- Steps of process p (on process k) ----------------------------------------------------------

  /** allocproc() and the rest of kfork() up to its first release(). */
  ghost predicate ForkStart(s: State, s': State, p: nat, k: nat)
    requires p < |s.procs| && k < |s.procs|
  {
    var y := s.procs[k];
    && s.procs[p].pc.User? && y.lock.Free? && y.state.Unused?
    && s' == Set(Goto(s, p, ForkWait(k)), k,
                 y.(state := Used, pid := s.nextpid, pc := Off(ForkRet), maker := p)).(nextpid := s.nextpid + 1)
  }

  /** ... when memory runs out: freeproc() leaves only a used-up pid behind. */
  ghost predicate ForkFail(s: State, s': State, p: nat)
    requires p < |s.procs|
  {
    s.procs[p].pc.User? && s' == s.(nextpid := s.nextpid + 1)
  }

  /** np->parent = p, under wait_lock. */
  ghost predicate ForkParent(s: State, s': State, p: nat, k: nat)
    requires p < |s.procs| && k < |s.procs|
  {
    s.procs[p].pc == ForkWait(k) && k != p && s.waitLock == NONE &&
      s' == Set(Goto(s, p, ForkReady(k)), k, s.procs[k].(parent := p))
  }

  ghost predicate ForkDone(s: State, s': State, p: nat, k: nat)
    requires p < |s.procs| && k < |s.procs|
  {
    var y := s.procs[k];
    s.procs[p].pc == ForkReady(k) && k != p && y.lock.Free? &&
      s' == Set(Goto(s, p, User), k, y.(state := Runnable, maker := NONE))
  }

  /** kexit() and kwait() take wait_lock. */
  ghost predicate TakeWait(s: State, s': State, p: nat)
    requires p < |s.procs|
  {
    var pc := s.procs[p].pc;
    && s.waitLock == NONE
    && (|| (pc.User? && p != INIT && s' == Goto(s, p, Reparent(0)).(waitLock := p))
        || ((pc.User? || pc.WaitAcquire?) && s' == Goto(s, p, Scan(0, false)).(waitLock := p)))
  }

  /** One iteration of reparent()'s loop. */
  ghost predicate ReparentOne(s: State, s': State, p: nat, k: nat)
    requires p < |s.procs| && k < |s.procs|
  {
    && s.procs[p].pc == Reparent(k)
    && if s.procs[k].parent == p then
         k != p && s' == Set(Goto(s, p, Wake(INIT, 0, AfterReparent(k + 1))), k, s.procs[k].(parent := INIT))
       else s' == Goto(s, p, Reparent(k + 1))
  }

  /** One iteration of wakeup()'s loop. */
  ghost predicate WakeOne(s: State, s': State, p: nat, k: nat)
    requires p < |s.procs| && k < |s.procs|
  {
    && s.procs[p].pc.Wake? && s.procs[p].pc.j == k
    && var ch, cont, y := s.procs[p].pc.ch, s.procs[p].pc.cont, s.procs[k];
       if k == p then s' == Goto(s, p, Wake(ch, k + 1, cont))
       else
         var st := if y.state.Sleeping? && y.chan == OnProc(ch) then Runnable else y.state;
         y.lock.Free? && s' == Set(Goto(s, p, Wake(ch, k + 1, cont)), k, y.(state := st))
  }

  /** What follows wakeup() and reparent() in kexit(). */
  ghost predicate LoopEnd(s: State, s': State, p: nat)
    requires p < |s.procs|
  {
    var x := s.procs[p];
    || (x.pc.Reparent? && x.pc.i >= |s.procs| && x.parent >= 0 && s' == Goto(s, p, Wake(x.parent, 0, AfterExit)))
    || (x.pc.Wake? && x.pc.j >= |s.procs| &&
        s' == Goto(s, p, if x.pc.cont.AfterExit? then ExitLock else Reparent(x.pc.cont.i)))
  }

  ghost predicate Die(s: State, s': State, p: nat)
    requires p < |s.procs|
  {
    var x := s.procs[p];
    || (x.pc.ExitLock? && x.lock.Free? && s' == Set(s, p, x.(pc := ExitRelease, lock := Own, state := Zombie)))
    || (x.pc.ExitRelease? && s' == Goto(s, p, ExitSched).(waitLock := NONE))
  }

  /** One iteration of kwait()'s loop that finds no zombie child. */
  ghost predicate ScanOne(s: State, s': State, p: nat, k: nat)
    requires p < |s.procs| && k < |s.procs|
  {
    && s.procs[p].pc.Scan? && s.procs[p].pc.i == k
    && if s.procs[k].parent != p then s' == Goto(s, p, Scan(k + 1, s.procs[p].pc.kids))
       else s.procs[k].lock.Free? && !s.procs[k].state.Zombie? && s' == Goto(s, p, Scan(k + 1, true))
  }

  /** kwait() reaps a zombie and returns. */
  ghost predicate Reap(s: State, s': State, p: nat, k: nat)
    requires p < |s.procs| && k < |s.procs|
  {
    var y := s.procs[k];
    && s.procs[p].pc.Scan? && s.procs[p].pc.i == k && k != p && y.parent == p && y.lock.Free? && y.state.Zombie?
    && s' == Set(Goto(s, p, User), k,
                 y.(state := Unused, parent := NONE, pid := 0,
                    chan := NoChan)).(waitLock := NONE, reaped := s.reaped + [y.pid])
  }

  /** kwait() returns because copyout() fails, there are no children, or the process is killed; or
      it goes to sleep. */
  ghost predicate ScanEnd(s: State, s': State, p: nat)
    requires p < |s.procs|
  {
    && s.procs[p].pc.Scan?
    && (|| s' == Goto(s, p, User).(waitLock := NONE)
        || (s.procs[p].pc.i >= |s.procs| && s.procs[p].pc.kids && s' == Goto(s, p, SleepLock)))
  }

  /** sleep(p, &wait_lock) up to the switch. */
  ghost predicate GoToSleep(s: State, s': State, p: nat)
    requires p < |s.procs|
  {
    var x := s.procs[p];
    || (x.pc.SleepLock? && x.lock.Free? && s' == Set(s, p, x.(pc := SleepRelease, lock := Own)))
    || (x.pc.SleepRelease? && s' == Goto(s, p, SleepMark).(waitLock := NONE))
    || (x.pc.SleepMark? && s' == Set(s, p, x.(pc := SleepSched, state := Sleeping, chan := OnProc(p))))
  }

  /** Where a process that yields at `pc` goes on. Interrupts are on exactly where no lock is held. */
  function Later(pc: Pc): (r: Resume) {
    match pc
    case ForkWait(i) => InForkWait(i)
    case ForkReady(i) => InForkReady(i)
    case WaitAcquire => InWait
    case _ => Elsewhere
  }

  function Point(r: Resume): (pc: Pc) {
    match r
    case InForkWait(i) => ForkWait(i)
    case InForkReady(i) => ForkReady(i)
    case InWait => WaitAcquire
    case _ => User
  }

  predicate Interruptible(pc: Pc) { pc.User? || pc.ForkWait? || pc.ForkReady? || pc.WaitAcquire? }

  /** sleep() on some other channel; or yield(), on a timer interrupt. */
  ghost predicate GiveUp(s: State, s': State, p: nat)
    requires p < |s.procs|
  {
    var x := s.procs[p];
    && x.lock.Free?
    && (|| (x.pc.User? &&
            s' == Set(s, p, x.(pc := OtherSched(Elsewhere), lock := Own, state := Sleeping, chan := Other)))
        || (Interruptible(x.pc) && s' == Set(s, p, x.(pc := OtherSched(Later(x.pc)), lock := Own, state := Runnable))))
  }

  /** sched(): swtch() to the scheduler of the CPU that the process is on. */
  ghost predicate Swtch(s: State, s': State, p: nat)
    requires p < |s.procs|
  {
    var x := s.procs[p];
    && x.cpu >= 0
    && (|| (x.pc.SleepSched? && s' == Set(s, p, x.(pc := Off(InWait), lock := Sched(x.cpu))))
        || (x.pc.OtherSched? && s' == Set(s, p, x.(pc := Off(x.pc.r), lock := Sched(x.cpu))))
        || (x.pc.ExitSched? && s' == Set(s, p, x.(pc := Off(Dead), lock := Sched(x.cpu)))))
  }

  ghost predicate ComeBack(s: State, s': State, p: nat)
    requires p < |s.procs|
  {
    var x := s.procs[p];
    x.pc.Resumed? && s' == Set(s, p, x.(chan := NoChan, lock := Free, pc := Point(x.pc.r)))
  }

  /** kkill() of process p, or a wakeup() on some other channel. */
  ghost predicate Rouse(s: State, s': State, p: nat)
    requires p < |s.procs|
  {
    s.procs[p].lock.Free? && s.procs[p].state.Sleeping? && s' == Set(s, p, s.procs[p].(state := Runnable))
  }

  /** scheduler(): c->proc = 0; release(&p->lock). */
  ghost predicate Retire(s: State, s': State, p: nat, c: nat)
    requires p < |s.procs| && c < |s.cpus|
  {
    s.procs[p].lock == Sched(c) && s.cpus[c] == p
    && s' == Set(s, p, s.procs[p].(lock := Free, cpu := NONE)).(cpus := s.cpus[c := NONE])
  }

  /** scheduler(): pick a RUNNABLE process and switch to it with its lock held. */
  ghost predicate Pick(s: State, s': State, p: nat, c: nat)
    requires p < |s.procs| && c < |s.cpus|
  {
    var x := s.procs[p];
    && s.cpus[c] == NONE && x.lock.Free? && x.state.Runnable? && x.pc.Off?
    && s' == Set(s, p, x.(state := Running, lock := Own, cpu := c, pc := Resumed(x.pc.r))).(cpus := s.cpus[c := p])
  }

  ghost predicate StepOn(s: State, s': State, p: nat, k: nat)
    requires p < |s.procs| && k < |s.procs|
  {
    || ForkStart(s, s', p, k) || ForkParent(s, s', p, k) || ForkDone(s, s', p, k) || ReparentOne(s, s', p, k)
    || WakeOne(s, s', p, k) || ScanOne(s, s', p, k) || Reap(s, s', p, k)
  }

  ghost predicate StepAlone(s: State, s': State, p: nat)
    requires p < |s.procs|
  {
    || ForkFail(s, s', p) || TakeWait(s, s', p) || LoopEnd(s, s', p) || Die(s, s', p) || ScanEnd(s, s', p) ||
       GoToSleep(s, s', p)
    || GiveUp(s, s', p) || Swtch(s, s', p) || ComeBack(s, s', p) || Rouse(s, s', p)
  }

  ghost predicate Step(s: State, s': State, p: nat, k: nat) {
    && p < |s.procs|
    && (|| (k < |s.procs| && StepOn(s, s', p, k)) || StepAlone(s, s', p)
        || (k < |s.cpus| && (Retire(s, s', p, k) || Pick(s, s', p, k))))
  }

  ghost predicate Next(s: State, s': State) { exists p, k :: Step(s, s', p, k) }

  ghost predicate Init(s: State) {
    && |s.procs| > 0 && s.waitLock == NONE && s.nextpid == 2 && s.reaped == []
    && s.procs[INIT] == Proc(Runnable, NONE, 1, NoChan, Free, Off(ForkRet), NONE, NONE)
    && (forall i :: 0 < i < |s.procs| ==> s.procs[i] == Proc(Unused, NONE, 0, NoChan, Free, Off(ForkRet), NONE, NONE))
    && (forall c :: 0 <= c < |s.cpus| ==> s.cpus[c] == NONE)
  }

  ghost predicate Run(run: seq<State>) {
    && |run| > 0 && Init(run[0])
    && forall i :: 0 < i < |run| ==> Next(run[i - 1], run[i])
  }

  // ---- The invariant ----------------------------------------------------------------------------

  predicate HoldsWait(pc: Pc) {
    pc.Reparent? || pc.Wake? || pc.ExitLock? || pc.ExitRelease? || pc.Scan? || pc.SleepLock? || pc.SleepRelease?
  }

  predicate HoldsOwn(pc: Pc) {
    pc.ExitRelease? || pc.ExitSched? || pc.SleepRelease? || pc.SleepMark? || pc.SleepSched? || pc.OtherSched? ||
      pc.Resumed?
  }

  /** In kfork() at `pc`, or preempted there. */
  predicate IsAt(here: Pc, pc: Pc) {
    here == pc || ((here.OtherSched? || here.Off? || here.Resumed?) && Point(here.r) == pc)
  }

  /** kfork() is creating proc[i]; it has made itself the parent. */
  predicate Parenting(pc: Pc, i: nat) { IsAt(pc, ForkReady(i)) }
  predicate Forking(pc: Pc, i: nat) { IsAt(pc, ForkWait(i)) || IsAt(pc, ForkReady(i)) }

  predicate Live(st: RunState) { st.Runnable? || st.Running? || st.Sleeping? }

  /** The states that a process can be in at `pc`. */
  predicate StateOk(st: RunState, pc: Pc) {
    match pc
    case SleepSched => st.Sleeping?
    case OtherSched(r) => !r.Dead? && !r.ForkRet? && (st.Runnable? || (st.Sleeping? && r.Elsewhere?))
    case ExitRelease => st.Zombie?
    case ExitSched => st.Zombie?
    case Off(r) =>
      if r.ForkRet? then st.Unused? || st.Used? || st.Runnable?
      else if r.Dead? then st.Zombie? || st.Unused?
      else st.Runnable? || (st.Sleeping? && (r.InWait? || r.Elsewhere?))
    case _ => st.Running?
  }

  predicate Exiting(pc: Pc) {
    pc.Reparent? || pc.Wake? || pc.ExitLock? || pc.ExitRelease? || pc.ExitSched? || pc == Off(Dead)
  }

  /** Asleep in kwait(), or committed to. */
  predicate Dozing(x: Proc) {
    x.pc.SleepMark? || x.pc.SleepSched? || (x.pc == Off(InWait) && x.state.Sleeping?)
  }

  /** kexit() at `pc` has moved proc[i] away from its parent, if it was a child. */
  predicate Moved(pc: Pc, i: nat) {
    || (pc.Reparent? && i < pc.i) || (pc.Wake? && (pc.cont.AfterExit? || i < pc.cont.i))
    || pc.ExitLock? || pc.ExitRelease? || pc.ExitSched? || pc == Off(Dead)
  }

  /** kwait() at `pc` has seen that proc[i] is no zombie child. */
  predicate Seen(pc: Pc, i: nat) { (pc.Scan? && i < pc.i) || pc.SleepLock? || pc.SleepRelease? }

  /** A wakeup() at `pc` is still to come to proc[q], which sleeps on itself. */
  predicate Awaits(pc: Pc, q: nat) { pc.Wake? && pc.ch == q && pc.j <= q }

  /** kexit() at `pc` has woken its parent, proc[i]. */
  predicate Past(pc: Pc, i: nat) { (pc.Wake? && pc.cont.AfterExit? && pc.j > i) || pc.ExitLock? }

  /** A process that sleeps is on a channel, and one that runs is on none. */
  predicate ChanOk(x: Proc) {
    && (x.state.Sleeping? ==> !x.chan.NoChan?)
    && (!x.chan.NoChan? ==> x.pc.SleepSched? || x.pc.OtherSched? || x.pc.Off? || x.pc.Resumed?)
  }

  /** One process: its program point, state, locks and CPU agree. */
  ghost predicate At(s: State, q: nat)
    requires q < |s.procs|
  {
    var x := s.procs[q];
    && StateOk(x.state, x.pc) && (HoldsWait(x.pc) <==> s.waitLock == q) && (HoldsOwn(x.pc) <==> x.lock.Own?)
    && (x.cpu == NONE || (0 <= x.cpu < |s.cpus| && s.cpus[x.cpu] == q))
    && (x.cpu == NONE ==> x.pc.Off? && !x.lock.Sched?)
    && (x.pc.Off? && x.cpu != NONE ==> x.lock == Sched(x.cpu))
    && (x.lock.Sched? ==> x.pc.Off? && x.cpu == x.lock.c)
    && (x.state.Sleeping? && (x.pc == Off(InWait) || x.pc.SleepSched?) ==> x.chan == OnProc(q))
    && ChanOk(x)
  }

  /** One process and its identity. */
  ghost predicate Named(s: State, q: nat)
    requires q < |s.procs|
  {
    var x := s.procs[q];
    && (x.parent == NONE || (0 <= x.parent < |s.procs| && x.parent != q))
    && (q == INIT ==> Live(x.state) && x.parent == NONE && !Exiting(x.pc))
    && (q != INIT && (Live(x.state) || x.state.Zombie?) ==> x.parent != NONE)
    && (x.state.Unused? ==> x.parent == NONE && x.pid == 0 && x.chan == NoChan)
    && (!x.state.Unused? ==> x.pid < s.nextpid && x.pid !in s.reaped)
    && (x.state.Used? ==> 0 <= x.maker < |s.procs| && x.pc == Off(ForkRet))
    && (x.pc.Wake? ==> if x.pc.cont.AfterExit? then x.parent == x.pc.ch else x.pc.ch == INIT)
  }

  /** Who is creating whom; and pids are unique. */
  ghost predicate Forks(s: State, q: nat, i: nat)
    requires q < |s.procs| && i < |s.procs|
  {
    var x, y := s.procs[q], s.procs[i];
    && (Forking(x.pc, i) <==> y.state.Used? && y.maker == q)
    && (Parenting(x.pc, i) ==> y.parent == q)
    && (q != i && !x.state.Unused? && !y.state.Unused? ==> x.pid != y.pid)
  }

  /** Parents are alive, and no parent sleeps through the death of a child. */
  ghost predicate Family(s: State, q: nat, i: nat)
    requires q < |s.procs| && i < |s.procs|
  {
    var x, y := s.procs[q], s.procs[i];
    && (x.parent == i ==> Live(y.state))
    && (Moved(x.pc, i) ==> y.parent != q)
    && (Seen(x.pc, i) && y.parent == q ==> !y.state.Zombie?)
    && (Dozing(x) && y.parent == q && y.state.Zombie? ==>
          0 <= s.waitLock < |s.procs| && Awaits(s.procs[s.waitLock].pc, q))
    && (Past(x.pc, i) && x.parent == i ==> !Dozing(y))
  }

  ghost predicate OnCpu(s: State, c: nat)
    requires c < |s.cpus|
  {
    s.cpus[c] == NONE || (0 <= s.cpus[c] < |s.procs| && s.procs[s.cpus[c]].cpu == c)
  }

  ghost predicate Global(s: State) {
    && |s.procs| > 0 && (s.waitLock == NONE || 0 <= s.waitLock < |s.procs|)
    && (forall i :: 0 <= i < |s.reaped| ==> s.reaped[i] < s.nextpid)
    && (forall i, j :: 0 <= i < j < |s.reaped| ==> s.reaped[i] != s.reaped[j])
    && (forall c: nat :: c < |s.cpus| ==> OnCpu(s, c))
  }

  ghost predicate Inv(s: State) {
    && Global(s)
    && (forall q: nat :: q < |s.procs| ==> At(s, q) && Named(s, q))
    && (forall q: nat, i: nat :: q < |s.procs| && i < |s.procs| ==> Forks(s, q, i) && Family(s, q, i))
  }

  lemma InitInv(s: State)
    requires Init(s)
    ensures Inv(s)
  {
  }

  // ---- Every step keeps it -----------------------------------------------------------------------

  /** What a step of process p on process k may need of the invariant to keep it for q. */
  ghost predicate Around(s: State, p: nat, k: nat, q: nat)
    requires p < |s.procs| && k < |s.procs| && q < |s.procs|
  {
    && (s.waitLock == NONE || 0 <= s.waitLock < |s.procs|) &&
       (forall j :: 0 <= j < |s.reaped| ==> s.reaped[j] < s.nextpid)
    && At(s, p) && At(s, k) && At(s, q) && Named(s, p) && Named(s, k) && Named(s, q) && Forks(s, p, k) && Forks(s, q, k)
  }

  /** ... and for the pair of q and i. */
  ghost predicate Among(s: State, p: nat, k: nat, q: nat, i: nat)
    requires p < |s.procs| && k < |s.procs| && q < |s.procs| && i < |s.procs|
  {
    && Around(s, p, k, q) && At(s, i) && Named(s, i)
    && Forks(s, p, p) && Forks(s, p, i) && Forks(s, k, i) && Forks(s, q, p) && Forks(s, q, i) && Forks(s, k, p)
    && Family(s, p, p) && Family(s, p, k) && Family(s, p, i) && Family(s, p, q) && Family(s, k, p) && Family(s, k, i)
    && Family(s, q, p) && Family(s, q, k) && Family(s, q, i)
  }

  lemma IsAmong(s: State, p: nat, k: nat, q: nat, i: nat)
    requires Inv(s) && p < |s.procs| && k < |s.procs| && q < |s.procs| && i < |s.procs|
    ensures Around(s, p, k, q) && Among(s, p, k, q, i)
  {
  }

  ghost predicate One(s: State, q: nat) { q < |s.procs| && At(s, q) && Named(s, q) }
  ghost predicate Two(s: State, q: nat, i: nat) { q < |s.procs| && i < |s.procs| && Forks(s, q, i) && Family(s, q, i) }

  lemma ForkStartKeepsOne(s: State, s': State, p: nat, k: nat, q: nat)
    requires p < |s.procs| && k < |s.procs| && q < |s.procs| && Around(s, p, k, q) && ForkStart(s, s', p, k)
    ensures |s'.procs| == |s.procs| && One(s', q)
  {
  }

  lemma ForkParentKeepsOne(s: State, s': State, p: nat, k: nat, q: nat)
    requires p < |s.procs| && k < |s.procs| && q < |s.procs| && Around(s, p, k, q) && ForkParent(s, s', p, k)
    ensures |s'.procs| == |s.procs| && One(s', q)
  {
  }

  lemma ForkDoneKeepsOne(s: State, s': State, p: nat, k: nat, q: nat)
    requires p < |s.procs| && k < |s.procs| && q < |s.procs| && Around(s, p, k, q) && ForkDone(s, s', p, k)
    ensures |s'.procs| == |s.procs| && One(s', q)
  {
  }

  lemma ReparentOneKeepsOne(s: State, s': State, p: nat, k: nat, q: nat)
    requires p < |s.procs| && k < |s.procs| && q < |s.procs| && Around(s, p, k, q) && ReparentOne(s, s', p, k)
    ensures |s'.procs| == |s.procs| && One(s', q)
  {
  }

  lemma WakeOneKeepsOne(s: State, s': State, p: nat, k: nat, q: nat)
    requires p < |s.procs| && k < |s.procs| && q < |s.procs| && Around(s, p, k, q) && WakeOne(s, s', p, k)
    ensures |s'.procs| == |s.procs| && One(s', q)
  {
  }

  lemma ScanOneKeepsOne(s: State, s': State, p: nat, k: nat, q: nat)
    requires p < |s.procs| && k < |s.procs| && q < |s.procs| && Around(s, p, k, q) && ScanOne(s, s', p, k)
    ensures |s'.procs| == |s.procs| && One(s', q)
  {
  }

  lemma ReapKeepsOne(s: State, s': State, p: nat, k: nat, q: nat)
    requires p < |s.procs| && k < |s.procs| && q < |s.procs| && Around(s, p, k, q) && Reap(s, s', p, k)
    ensures |s'.procs| == |s.procs| && One(s', q)
  {
  }

  lemma ForkFailKeepsOne(s: State, s': State, p: nat, q: nat)
    requires p < |s.procs| && q < |s.procs| && Around(s, p, p, q) && ForkFail(s, s', p)
    ensures |s'.procs| == |s.procs| && One(s', q)
  {
  }

  lemma TakeWaitKeepsOne(s: State, s': State, p: nat, q: nat)
    requires p < |s.procs| && q < |s.procs| && Around(s, p, p, q) && TakeWait(s, s', p)
    ensures |s'.procs| == |s.procs| && One(s', q)
  {
  }

  lemma LoopEndKeepsOne(s: State, s': State, p: nat, q: nat)
    requires p < |s.procs| && q < |s.procs| && Around(s, p, p, q) && LoopEnd(s, s', p)
    ensures |s'.procs| == |s.procs| && One(s', q)
  {
  }

  lemma DieKeepsOne(s: State, s': State, p: nat, q: nat)
    requires p < |s.procs| && q < |s.procs| && Around(s, p, p, q) && Die(s, s', p)
    ensures |s'.procs| == |s.procs| && One(s', q)
  {
  }

  lemma ScanEndKeepsOne(s: State, s': State, p: nat, q: nat)
    requires p < |s.procs| && q < |s.procs| && Around(s, p, p, q) && ScanEnd(s, s', p)
    ensures |s'.procs| == |s.procs| && One(s', q)
  {
  }

  lemma GoToSleepKeepsAt(s: State, s': State, p: nat, q: nat)
    requires p < |s.procs| && q < |s.procs| && Around(s, p, p, q) && GoToSleep(s, s', p)
    ensures |s'.procs| == |s.procs| && At(s', q)
  {
    hide Named, Forks, Family;
  }

  lemma GoToSleepKeepsNamed(s: State, s': State, p: nat, q: nat)
    requires p < |s.procs| && q < |s.procs| && Around(s, p, p, q) && GoToSleep(s, s', p)
    ensures |s'.procs| == |s.procs| && Named(s', q)
  {
  }

  lemma GoToSleepKeepsOne(s: State, s': State, p: nat, q: nat)
    requires p < |s.procs| && q < |s.procs| && Around(s, p, p, q) && GoToSleep(s, s', p)
    ensures |s'.procs| == |s.procs| && One(s', q)
  {
    hide GoToSleep, At, Named, Around;
    GoToSleepKeepsAt(s, s', p, q);
    GoToSleepKeepsNamed(s, s', p, q);
  }

  lemma GiveUpKeepsAt(s: State, s': State, p: nat, q: nat)
    requires p < |s.procs| && q < |s.procs| && Around(s, p, p, q) && GiveUp(s, s', p)
    ensures |s'.procs| == |s.procs| && At(s', q)
  {
    hide Named, Forks, Family;
  }

  lemma GiveUpKeepsNamed(s: State, s': State, p: nat, q: nat)
    requires p < |s.procs| && q < |s.procs| && Around(s, p, p, q) && GiveUp(s, s', p)
    ensures |s'.procs| == |s.procs| && Named(s', q)
  {
    hide Forks, Family;
  }

  lemma GiveUpKeepsOne(s: State, s': State, p: nat, q: nat)
    requires p < |s.procs| && q < |s.procs| && Around(s, p, p, q) && GiveUp(s, s', p)
    ensures |s'.procs| == |s.procs| && One(s', q)
  {
    hide GiveUp, At, Named, Around;
    GiveUpKeepsAt(s, s', p, q);
    GiveUpKeepsNamed(s, s', p, q);
  }

  lemma SwtchKeepsAt(s: State, s': State, p: nat, q: nat)
    requires p < |s.procs| && q < |s.procs| && Around(s, p, p, q) && Swtch(s, s', p)
    ensures |s'.procs| == |s.procs| && At(s', q)
  {
    hide Named, Forks, Family;
  }

  lemma SwtchKeepsNamed(s: State, s': State, p: nat, q: nat)
    requires p < |s.procs| && q < |s.procs| && Around(s, p, p, q) && Swtch(s, s', p)
    ensures |s'.procs| == |s.procs| && Named(s', q)
  {
  }

  lemma SwtchKeepsOne(s: State, s': State, p: nat, q: nat)
    requires p < |s.procs| && q < |s.procs| && Around(s, p, p, q) && Swtch(s, s', p)
    ensures |s'.procs| == |s.procs| && One(s', q)
  {
    hide Swtch, At, Named, Around;
    SwtchKeepsAt(s, s', p, q);
    SwtchKeepsNamed(s, s', p, q);
  }

  lemma ComeBackKeepsOne(s: State, s': State, p: nat, q: nat)
    requires p < |s.procs| && q < |s.procs| && Around(s, p, p, q) && ComeBack(s, s', p)
    ensures |s'.procs| == |s.procs| && One(s', q)
  {
  }

  lemma RouseKeepsOne(s: State, s': State, p: nat, q: nat)
    requires p < |s.procs| && q < |s.procs| && Around(s, p, p, q) && Rouse(s, s', p)
    ensures |s'.procs| == |s.procs| && One(s', q)
  {
  }

  lemma RetireKeepsOne(s: State, s': State, p: nat, c: nat, q: nat)
    requires p < |s.procs| && c < |s.cpus| && q < |s.procs| && Around(s, p, p, q) && Retire(s, s', p, c)
    ensures |s'.procs| == |s.procs| && One(s', q)
  {
  }

  lemma PickKeepsOne(s: State, s': State, p: nat, c: nat, q: nat)
    requires p < |s.procs| && c < |s.cpus| && q < |s.procs| && Around(s, p, p, q) && Pick(s, s', p, c)
    ensures |s'.procs| == |s.procs| && One(s', q)
  {
  }

  lemma ForkStartKeepsForks(s: State, s': State, p: nat, k: nat, q: nat, i: nat)
    requires p < |s.procs| && k < |s.procs| && q < |s.procs| && i < |s.procs| && Among(s, p, k, q, i) &&
             ForkStart(s, s', p, k)
    ensures |s'.procs| == |s.procs| && Forks(s', q, i)
  {
    hide ChanOk, Family, HoldsWait, HoldsOwn, Exiting, Live;
  }

  lemma ForkStartKeepsFamily(s: State, s': State, p: nat, k: nat, q: nat, i: nat)
    requires p < |s.procs| && k < |s.procs| && q < |s.procs| && i < |s.procs| && Among(s, p, k, q, i) &&
             ForkStart(s, s', p, k)
    ensures |s'.procs| == |s.procs| && Family(s', q, i)
  {
    hide ChanOk, Forks;
  }

  lemma ForkParentKeepsForks(s: State, s': State, p: nat, k: nat, q: nat, i: nat)
    requires p < |s.procs| && k < |s.procs| && q < |s.procs| && i < |s.procs| && Among(s, p, k, q, i) &&
             ForkParent(s, s', p, k)
    ensures |s'.procs| == |s.procs| && Forks(s', q, i)
  {
    hide ChanOk, Family, Named, At;
  }

  lemma ForkParentKeepsFamily(s: State, s': State, p: nat, k: nat, q: nat, i: nat)
    requires p < |s.procs| && k < |s.procs| && q < |s.procs| && i < |s.procs| && Among(s, p, k, q, i) &&
             ForkParent(s, s', p, k)
    ensures |s'.procs| == |s.procs| && Family(s', q, i)
  {
    hide ChanOk, Forks;
  }

  lemma ForkDoneKeepsForks(s: State, s': State, p: nat, k: nat, q: nat, i: nat)
    requires p < |s.procs| && k < |s.procs| && q < |s.procs| && i < |s.procs|
    requires Among(s, p, k, q, i) && ForkDone(s, s', p, k)
    ensures |s'.procs| == |s.procs| && Forks(s', q, i)
  {
    hide ChanOk, Family, Named, At;
  }

  lemma ForkDoneKeepsFamily(s: State, s': State, p: nat, k: nat, q: nat, i: nat)
    requires p < |s.procs| && k < |s.procs| && q < |s.procs| && i < |s.procs|
    requires Among(s, p, k, q, i) && ForkDone(s, s', p, k)
    ensures |s'.procs| == |s.procs| && Family(s', q, i)
  {
    hide ChanOk, IsAt, HoldsOwn, Exiting;
  }

  lemma ReparentOneKeepsForks(s: State, s': State, p: nat, k: nat, q: nat, i: nat)
    requires p < |s.procs| && k < |s.procs| && q < |s.procs| && i < |s.procs|
    requires Among(s, p, k, q, i) && ReparentOne(s, s', p, k)
    ensures |s'.procs| == |s.procs| && Forks(s', q, i)
  {
    hide ChanOk, Family, Named, At, Point;
  }

  lemma ReparentOneKeepsFamily(s: State, s': State, p: nat, k: nat, q: nat, i: nat)
    requires p < |s.procs| && k < |s.procs| && q < |s.procs| && i < |s.procs|
    requires Among(s, p, k, q, i) && ReparentOne(s, s', p, k)
    ensures |s'.procs| == |s.procs| && Family(s', q, i)
  {
    hide ChanOk, IsAt, HoldsOwn;
  }

  lemma WakeOneKeepsForks(s: State, s': State, p: nat, k: nat, q: nat, i: nat)
    requires p < |s.procs| && k < |s.procs| && q < |s.procs| && i < |s.procs|
    requires Among(s, p, k, q, i) && WakeOne(s, s', p, k)
    ensures |s'.procs| == |s.procs| && Forks(s', q, i)
  {
    hide ChanOk, Family, Named, At, Point;
  }

  lemma WakeSelfKeepsFamily(s: State, s': State, p: nat, q: nat, i: nat)
    requires p < |s.procs| && q < |s.procs| && i < |s.procs|
    requires Among(s, p, p, q, i) && WakeOne(s, s', p, p)
    ensures |s'.procs| == |s.procs| && Family(s', q, i)
  {
    hide ChanOk, Forks;
  }

  lemma WakeOtherKeepsFamily(s: State, s': State, p: nat, k: nat, q: nat, i: nat)
    requires p < |s.procs| && k < |s.procs| && q < |s.procs| && i < |s.procs| && k != p
    requires Among(s, p, k, q, i) && WakeOne(s, s', p, k)
    ensures |s'.procs| == |s.procs| && Family(s', q, i)
  {
    hide ChanOk, Forks, Exiting, IsAt, StateOk;
  }

  lemma WakeOneKeepsFamily(s: State, s': State, p: nat, k: nat, q: nat, i: nat)
    requires p < |s.procs| && k < |s.procs| && q < |s.procs| && i < |s.procs|
    requires Among(s, p, k, q, i) && WakeOne(s, s', p, k)
    ensures |s'.procs| == |s.procs| && Family(s', q, i)
  {
    hide ChanOk, Among, WakeOne, Family;
    if k == p {
      WakeSelfKeepsFamily(s, s', p, q, i);
    } else {
      WakeOtherKeepsFamily(s, s', p, k, q, i);
    }
  }

  lemma ScanOneKeepsForks(s: State, s': State, p: nat, k: nat, q: nat, i: nat)
    requires p < |s.procs| && k < |s.procs| && q < |s.procs| && i < |s.procs| && Among(s, p, k, q, i) &&
             ScanOne(s, s', p, k)
    ensures |s'.procs| == |s.procs| && Forks(s', q, i)
  {
    hide ChanOk, Family, Named, At, Point;
  }

  lemma ScanOneKeepsFamily(s: State, s': State, p: nat, k: nat, q: nat, i: nat)
    requires p < |s.procs| && k < |s.procs| && q < |s.procs| && i < |s.procs| && Among(s, p, k, q, i) &&
             ScanOne(s, s', p, k)
    ensures |s'.procs| == |s.procs| && Family(s', q, i)
  {
    hide ChanOk, Forks;
  }

  lemma ReapKeepsForks(s: State, s': State, p: nat, k: nat, q: nat, i: nat)
    requires p < |s.procs| && k < |s.procs| && q < |s.procs| && i < |s.procs| && Among(s, p, k, q, i) &&
             Reap(s, s', p, k)
    ensures |s'.procs| == |s.procs| && Forks(s', q, i)
  {
    hide ChanOk, Family, Named, At, Point;
  }

  lemma ReapKeepsFamily(s: State, s': State, p: nat, k: nat, q: nat, i: nat)
    requires p < |s.procs| && k < |s.procs| && q < |s.procs| && i < |s.procs| && Among(s, p, k, q, i) &&
             Reap(s, s', p, k)
    ensures |s'.procs| == |s.procs| && Family(s', q, i)
  {
    hide ChanOk, Forks;
  }

  lemma ForkFailKeepsForks(s: State, s': State, p: nat, q: nat, i: nat)
    requires p < |s.procs| && q < |s.procs| && i < |s.procs| && Among(s, p, p, q, i) && ForkFail(s, s', p)
    ensures |s'.procs| == |s.procs| && Forks(s', q, i)
  {
    hide ChanOk, Family, Named, At;
  }

  lemma ForkFailKeepsFamily(s: State, s': State, p: nat, q: nat, i: nat)
    requires p < |s.procs| && q < |s.procs| && i < |s.procs| && Among(s, p, p, q, i) && ForkFail(s, s', p)
    ensures |s'.procs| == |s.procs| && Family(s', q, i)
  {
    hide ChanOk, Forks;
  }

  lemma TakeWaitKeepsForks(s: State, s': State, p: nat, q: nat, i: nat)
    requires p < |s.procs| && q < |s.procs| && i < |s.procs| && Among(s, p, p, q, i) && TakeWait(s, s', p)
    ensures |s'.procs| == |s.procs| && Forks(s', q, i)
  {
    hide ChanOk, Family, Named, At, Point;
  }

  lemma TakeWaitKeepsFamily(s: State, s': State, p: nat, q: nat, i: nat)
    requires p < |s.procs| && q < |s.procs| && i < |s.procs| && Among(s, p, p, q, i) && TakeWait(s, s', p)
    ensures |s'.procs| == |s.procs| && Family(s', q, i)
  {
    hide ChanOk, Forks;
  }

  lemma LoopEndKeepsForks(s: State, s': State, p: nat, q: nat, i: nat)
    requires p < |s.procs| && q < |s.procs| && i < |s.procs| && Among(s, p, p, q, i) && LoopEnd(s, s', p)
    ensures |s'.procs| == |s.procs| && Forks(s', q, i)
  {
    hide ChanOk, Family, Named, At, Point;
  }

  lemma LoopEndKeepsFamily(s: State, s': State, p: nat, q: nat, i: nat)
    requires p < |s.procs| && q < |s.procs| && i < |s.procs| && Among(s, p, p, q, i) && LoopEnd(s, s', p)
    ensures |s'.procs| == |s.procs| && Family(s', q, i)
  {
    hide ChanOk, Forks;
  }

  lemma DieKeepsForks(s: State, s': State, p: nat, q: nat, i: nat)
    requires p < |s.procs| && q < |s.procs| && i < |s.procs| && Among(s, p, p, q, i) && Die(s, s', p)
    ensures |s'.procs| == |s.procs| && Forks(s', q, i)
  {
    hide ChanOk, Family, Named;
  }

  lemma DieKeepsFamily(s: State, s': State, p: nat, q: nat, i: nat)
    requires p < |s.procs| && q < |s.procs| && i < |s.procs| && Among(s, p, p, q, i) && Die(s, s', p)
    ensures |s'.procs| == |s.procs| && Family(s', q, i)
  {
    hide ChanOk, Forks;
  }

  lemma ScanEndKeepsForks(s: State, s': State, p: nat, q: nat, i: nat)
    requires p < |s.procs| && q < |s.procs| && i < |s.procs| && Among(s, p, p, q, i) && ScanEnd(s, s', p)
    ensures |s'.procs| == |s.procs| && Forks(s', q, i)
  {
    hide ChanOk, Family, Named, At, Point;
  }

  lemma ScanEndKeepsFamily(s: State, s': State, p: nat, q: nat, i: nat)
    requires p < |s.procs| && q < |s.procs| && i < |s.procs| && Among(s, p, p, q, i) && ScanEnd(s, s', p)
    ensures |s'.procs| == |s.procs| && Family(s', q, i)
  {
    hide ChanOk, Forks;
  }

  lemma GoToSleepKeepsForks(s: State, s': State, p: nat, q: nat, i: nat)
    requires p < |s.procs| && q < |s.procs| && i < |s.procs| && Among(s, p, p, q, i) && GoToSleep(s, s', p)
    ensures |s'.procs| == |s.procs| && Forks(s', q, i)
  {
    hide ChanOk, Family, Named;
  }

  lemma GoToSleepKeepsFamily(s: State, s': State, p: nat, q: nat, i: nat)
    requires p < |s.procs| && q < |s.procs| && i < |s.procs| && Among(s, p, p, q, i) && GoToSleep(s, s', p)
    ensures |s'.procs| == |s.procs| && Family(s', q, i)
  {
    hide ChanOk, Forks;
  }

  lemma GiveUpKeepsForks(s: State, s': State, p: nat, q: nat, i: nat)
    requires p < |s.procs| && q < |s.procs| && i < |s.procs| && Among(s, p, p, q, i) && GiveUp(s, s', p)
    ensures |s'.procs| == |s.procs| && Forks(s', q, i)
  {
    hide ChanOk, Family, Named;
  }

  lemma GiveUpKeepsFamily(s: State, s': State, p: nat, q: nat, i: nat)
    requires p < |s.procs| && q < |s.procs| && i < |s.procs| && Among(s, p, p, q, i) && GiveUp(s, s', p)
    ensures |s'.procs| == |s.procs| && Family(s', q, i)
  {
    hide ChanOk, Forks;
  }

  lemma SwtchKeepsForks(s: State, s': State, p: nat, q: nat, i: nat)
    requires p < |s.procs| && q < |s.procs| && i < |s.procs| && Among(s, p, p, q, i) && Swtch(s, s', p)
    ensures |s'.procs| == |s.procs| && Forks(s', q, i)
  {
    hide ChanOk, Family, Named, At;
  }

  lemma SwtchKeepsFamily(s: State, s': State, p: nat, q: nat, i: nat)
    requires p < |s.procs| && q < |s.procs| && i < |s.procs| && Among(s, p, p, q, i) && Swtch(s, s', p)
    ensures |s'.procs| == |s.procs| && Family(s', q, i)
  {
    hide ChanOk, Forks;
  }

  lemma ComeBackKeepsForks(s: State, s': State, p: nat, q: nat, i: nat)
    requires p < |s.procs| && q < |s.procs| && i < |s.procs| && Among(s, p, p, q, i) && ComeBack(s, s', p)
    ensures |s'.procs| == |s.procs| && Forks(s', q, i)
  {
    hide ChanOk, Family, Named, At;
  }

  lemma ComeBackKeepsFamily(s: State, s': State, p: nat, q: nat, i: nat)
    requires p < |s.procs| && q < |s.procs| && i < |s.procs| && Among(s, p, p, q, i) && ComeBack(s, s', p)
    ensures |s'.procs| == |s.procs| && Family(s', q, i)
  {
    hide ChanOk, Forks;
  }

  lemma RouseKeepsForks(s: State, s': State, p: nat, q: nat, i: nat)
    requires p < |s.procs| && q < |s.procs| && i < |s.procs| && Among(s, p, p, q, i) && Rouse(s, s', p)
    ensures |s'.procs| == |s.procs| && Forks(s', q, i)
  {
    hide ChanOk, Family, Named, At;
  }

  lemma RouseKeepsFamily(s: State, s': State, p: nat, q: nat, i: nat)
    requires p < |s.procs| && q < |s.procs| && i < |s.procs| && Among(s, p, p, q, i) && Rouse(s, s', p)
    ensures |s'.procs| == |s.procs| && Family(s', q, i)
  {
    hide ChanOk, Forks;
  }

  lemma RetireKeepsForks(s: State, s': State, p: nat, c: nat, q: nat, i: nat)
    requires p < |s.procs| && c < |s.cpus| && q < |s.procs| && i < |s.procs| && Among(s, p, p, q, i) &&
             Retire(s, s', p, c)
    ensures |s'.procs| == |s.procs| && Forks(s', q, i)
  {
    hide ChanOk, Family, Named, At;
  }

  lemma RetireKeepsFamily(s: State, s': State, p: nat, c: nat, q: nat, i: nat)
    requires p < |s.procs| && c < |s.cpus| && q < |s.procs| && i < |s.procs| && Among(s, p, p, q, i) &&
             Retire(s, s', p, c)
    ensures |s'.procs| == |s.procs| && Family(s', q, i)
  {
    hide ChanOk, Forks;
  }

  lemma PickKeepsForks(s: State, s': State, p: nat, c: nat, q: nat, i: nat)
    requires p < |s.procs| && c < |s.cpus| && q < |s.procs| && i < |s.procs| && Among(s, p, p, q, i) &&
             Pick(s, s', p, c)
    ensures |s'.procs| == |s.procs| && Forks(s', q, i)
  {
    hide ChanOk, Family, Named, At;
  }

  lemma PickKeepsFamily(s: State, s': State, p: nat, c: nat, q: nat, i: nat)
    requires p < |s.procs| && c < |s.cpus| && q < |s.procs| && i < |s.procs| && Among(s, p, p, q, i) &&
             Pick(s, s', p, c)
    ensures |s'.procs| == |s.procs| && Family(s', q, i)
  {
    hide ChanOk, Forks;
  }

  lemma StepOnKeeps(s: State, s': State, p: nat, k: nat, q: nat, i: nat)
    requires Inv(s) && p < |s.procs| && k < |s.procs| && q < |s.procs| && i < |s.procs| && StepOn(s, s', p, k)
    ensures |s'.procs| == |s.procs| && One(s', q) && Two(s', q, i)
  {
    hide Inv, Around, Among, One, Forks, Family, ForkStart, ForkParent, ForkDone, ReparentOne, WakeOne, ScanOne, Reap,
         ForkFail, TakeWait, LoopEnd, Die, ScanEnd, GoToSleep, GiveUp, Swtch, ComeBack, Rouse, Retire, Pick;
    IsAmong(s, p, k, q, i);
    if {
      case ForkStart(s, s', p, k) =>
        ForkStartKeepsOne(s, s', p, k, q);
        ForkStartKeepsForks(s, s', p, k, q, i);
        ForkStartKeepsFamily(s, s', p, k, q, i);
      case ForkParent(s, s', p, k) =>
        ForkParentKeepsOne(s, s', p, k, q);
        ForkParentKeepsForks(s, s', p, k, q, i);
        ForkParentKeepsFamily(s, s', p, k, q, i);
      case ForkDone(s, s', p, k) =>
        ForkDoneKeepsOne(s, s', p, k, q);
        ForkDoneKeepsForks(s, s', p, k, q, i);
        ForkDoneKeepsFamily(s, s', p, k, q, i);
      case ReparentOne(s, s', p, k) =>
        ReparentOneKeepsOne(s, s', p, k, q);
        ReparentOneKeepsForks(s, s', p, k, q, i);
        ReparentOneKeepsFamily(s, s', p, k, q, i);
      case WakeOne(s, s', p, k) =>
        WakeOneKeepsOne(s, s', p, k, q);
        WakeOneKeepsForks(s, s', p, k, q, i);
        WakeOneKeepsFamily(s, s', p, k, q, i);
      case ScanOne(s, s', p, k) =>
        ScanOneKeepsOne(s, s', p, k, q);
        ScanOneKeepsForks(s, s', p, k, q, i);
        ScanOneKeepsFamily(s, s', p, k, q, i);
      case Reap(s, s', p, k) =>
        ReapKeepsOne(s, s', p, k, q);
        ReapKeepsForks(s, s', p, k, q, i);
        ReapKeepsFamily(s, s', p, k, q, i);
    }
  }

  lemma StepAloneKeeps(s: State, s': State, p: nat, q: nat, i: nat)
    requires Inv(s) && p < |s.procs| && q < |s.procs| && i < |s.procs| && StepAlone(s, s', p)
    ensures |s'.procs| == |s.procs| && One(s', q) && Two(s', q, i)
  {
    hide Inv, Around, Among, One, Forks, Family, ForkStart, ForkParent, ForkDone, ReparentOne, WakeOne, ScanOne, Reap,
         ForkFail, TakeWait, LoopEnd, Die, ScanEnd, GoToSleep, GiveUp, Swtch, ComeBack, Rouse, Retire, Pick;
    IsAmong(s, p, p, q, i);
    if {
      case ForkFail(s, s', p) =>
        ForkFailKeepsOne(s, s', p, q);
        ForkFailKeepsForks(s, s', p, q, i);
        ForkFailKeepsFamily(s, s', p, q, i);
      case TakeWait(s, s', p) =>
        TakeWaitKeepsOne(s, s', p, q);
        TakeWaitKeepsForks(s, s', p, q, i);
        TakeWaitKeepsFamily(s, s', p, q, i);
      case LoopEnd(s, s', p) =>
        LoopEndKeepsOne(s, s', p, q);
        LoopEndKeepsForks(s, s', p, q, i);
        LoopEndKeepsFamily(s, s', p, q, i);
      case Die(s, s', p) =>
        DieKeepsOne(s, s', p, q);
        DieKeepsForks(s, s', p, q, i);
        DieKeepsFamily(s, s', p, q, i);
      case ScanEnd(s, s', p) =>
        ScanEndKeepsOne(s, s', p, q);
        ScanEndKeepsForks(s, s', p, q, i);
        ScanEndKeepsFamily(s, s', p, q, i);
      case GoToSleep(s, s', p) =>
        GoToSleepKeepsOne(s, s', p, q);
        GoToSleepKeepsForks(s, s', p, q, i);
        GoToSleepKeepsFamily(s, s', p, q, i);
      case GiveUp(s, s', p) =>
        GiveUpKeepsOne(s, s', p, q);
        GiveUpKeepsForks(s, s', p, q, i);
        GiveUpKeepsFamily(s, s', p, q, i);
      case Swtch(s, s', p) =>
        SwtchKeepsOne(s, s', p, q);
        SwtchKeepsForks(s, s', p, q, i);
        SwtchKeepsFamily(s, s', p, q, i);
      case ComeBack(s, s', p) =>
        ComeBackKeepsOne(s, s', p, q);
        ComeBackKeepsForks(s, s', p, q, i);
        ComeBackKeepsFamily(s, s', p, q, i);
      case Rouse(s, s', p) =>
        RouseKeepsOne(s, s', p, q);
        RouseKeepsForks(s, s', p, q, i);
        RouseKeepsFamily(s, s', p, q, i);
    }
  }

  lemma StepKeeps(s: State, s': State, p: nat, k: nat, q: nat, i: nat)
    requires Inv(s) && Step(s, s', p, k) && q < |s.procs| && i < |s.procs|
    ensures |s'.procs| == |s.procs| && One(s', q) && Two(s', q, i)
  {
    hide Inv, Around, Among, One, Forks, Family, ForkStart, ForkParent, ForkDone, ReparentOne, WakeOne, ScanOne, Reap,
         ForkFail, TakeWait, LoopEnd, Die, ScanEnd, GoToSleep, GiveUp, Swtch, ComeBack, Rouse, Retire, Pick, StepOn,
           StepAlone;
    IsAmong(s, p, p, q, i);
    if k < |s.procs| && StepOn(s, s', p, k) {
      StepOnKeeps(s, s', p, k, q, i);
    } else if StepAlone(s, s', p) {
      StepAloneKeeps(s, s', p, q, i);
    } else if Retire(s, s', p, k) {
      RetireKeepsOne(s, s', p, k, q);
      RetireKeepsForks(s, s', p, k, q, i);
      RetireKeepsFamily(s, s', p, k, q, i);
    } else {
      PickKeepsOne(s, s', p, k, q);
      PickKeepsForks(s, s', p, k, q, i);
      PickKeepsFamily(s, s', p, k, q, i);
    }
  }

  /** What the other steps do not touch. */
  ghost predicate Steady(s: State, s': State) {
    && s'.cpus == s.cpus && |s'.procs| == |s.procs| &&
       (forall q :: 0 <= q < |s.procs| ==> s'.procs[q].cpu == s.procs[q].cpu)
    && s.nextpid <= s'.nextpid && (s'.waitLock == s.waitLock || s'.waitLock == NONE || 0 <= s'.waitLock < |s.procs|)
  }

  lemma ForkIsSteady(s: State, s': State, p: nat, k: nat)
    requires p < |s.procs| && k < |s.procs|
    requires ForkStart(s, s', p, k) || ForkParent(s, s', p, k) || ForkDone(s, s', p, k)
    ensures Steady(s, s') && s'.reaped == s.reaped
  {
  }

  lemma LoopIsSteady(s: State, s': State, p: nat, k: nat)
    requires p < |s.procs| && k < |s.procs|
    requires ReparentOne(s, s', p, k) || WakeOne(s, s', p, k) || ScanOne(s, s', p, k)
    ensures Steady(s, s') && s'.reaped == s.reaped
  {
  }

  lemma ReapIsSteady(s: State, s': State, p: nat, k: nat)
    requires p < |s.procs| && k < |s.procs| && Reap(s, s', p, k)
    ensures Steady(s, s')
  {
  }

  lemma WaitIsSteady(s: State, s': State, p: nat)
    requires p < |s.procs|
    requires ForkFail(s, s', p) || TakeWait(s, s', p) || LoopEnd(s, s', p) || Die(s, s', p) || ScanEnd(s, s', p)
    ensures Steady(s, s') && s'.reaped == s.reaped
  {
  }

  lemma SleepIsSteady(s: State, s': State, p: nat)
    requires p < |s.procs|
    requires GoToSleep(s, s', p) || GiveUp(s, s', p) || Swtch(s, s', p) || ComeBack(s, s', p) || Rouse(s, s', p)
    ensures Steady(s, s') && s'.reaped == s.reaped
  {
  }

  lemma StepIsSteady(s: State, s': State, p: nat, k: nat)
    requires p < |s.procs| && (StepAlone(s, s', p) || (k < |s.procs| && StepOn(s, s', p, k)))
    ensures Steady(s, s')
    ensures s'.reaped == s.reaped || (k < |s.procs| && Reap(s, s', p, k))
  {
    hide ForkStart, ForkParent, ForkDone, ReparentOne, WakeOne, ScanOne, Reap, ForkFail, TakeWait, LoopEnd, Die,
         ScanEnd, GoToSleep, GiveUp, Swtch, ComeBack, Rouse, Steady;
    if k < |s.procs| && StepOn(s, s', p, k) {
      if ForkStart(s, s', p, k) || ForkParent(s, s', p, k) || ForkDone(s, s', p, k) {
        ForkIsSteady(s, s', p, k);
      } else if Reap(s, s', p, k) {
        ReapIsSteady(s, s', p, k);
      } else {
        LoopIsSteady(s, s', p, k);
      }
    } else if ForkFail(s, s', p) || TakeWait(s, s', p) || LoopEnd(s, s', p) || Die(s, s', p) || ScanEnd(s, s', p) {
      WaitIsSteady(s, s', p);
    } else {
      SleepIsSteady(s, s', p);
    }
  }

  lemma StepKeepsGlobal(s: State, s': State, p: nat, k: nat)
    requires Inv(s) && Step(s, s', p, k)
    ensures Global(s')
  {
    if StepAlone(s, s', p) || (k < |s.procs| && StepOn(s, s', p, k)) {
      StepIsSteady(s, s', p, k);
      if k < |s.procs| && Reap(s, s', p, k) {
        assert Named(s, k);
      }
      hide StepAlone, StepOn, Reap, At, Named, Forks, Family;
      forall c: nat | c < |s'.cpus| ensures OnCpu(s', c) {
        assert OnCpu(s, c);
      }
    } else {
      hide StepAlone, StepOn;
      forall c: nat | c < |s'.cpus| ensures OnCpu(s', c) {
        assert OnCpu(s, c) && At(s, p);
      }
    }
  }

  lemma StepKeepsInv(s: State, s': State, p: nat, k: nat)
    requires Inv(s) && Step(s, s', p, k)
    ensures Inv(s')
  {
    StepKeepsGlobal(s, s', p, k);
    StepKeeps(s, s', p, k, 0, 0);
    hide Step, Global;
    forall q: nat | q < |s'.procs| ensures At(s', q) && Named(s', q) {
      StepKeeps(s, s', p, k, q, q);
    }
    forall q: nat, i: nat | q < |s'.procs| && i < |s'.procs| ensures Forks(s', q, i) && Family(s', q, i) {
      StepKeeps(s, s', p, k, q, i);
    }
  }

  /** The invariant holds in every state of every run. */
  lemma {:induction false} RunKeepsInv(run: seq<State>, i: nat)
    requires Run(run) && i < |run|
    ensures Inv(run[i])
  {
    if i == 0 {
      InitInv(run[0]);
    } else {
      RunKeepsInv(run, i - 1);
      var p, k :| Step(run[i - 1], run[i], p, k);
      StepKeepsInv(run[i - 1], run[i], p, k);
    }
  }

  // ---- What follows -----------------------------------------------------------------------------

  /** In every reachable state, every process that has been started, but initproc, has a parent,
      and that is neither unused nor a zombie. */
  lemma ParentsAreAlive(run: seq<State>, i: nat, q: nat)
    requires Run(run) && i < |run| && 0 < q < |run[i].procs|
    ensures var s := run[i];
            var x := s.procs[q];
            Live(x.state) || x.state.Zombie? ==> 0 <= x.parent < |s.procs| && Live(s.procs[x.parent].state)
  {
    RunKeepsInv(run, i);
    var s := run[i];
    assert Named(s, q);
    if Live(s.procs[q].state) || s.procs[q].state.Zombie? {
      assert Family(s, q, s.procs[q].parent);
    }
  }

  /** Whenever wait_lock is free, no process that is asleep in kwait(), or committed to sleep there,
      has a zombie child. */
  lemma NoMissedZombie(run: seq<State>, i: nat, q: nat, z: nat)
    requires Run(run) && i < |run| && q < |run[i].procs| && z < |run[i].procs|
    ensures run[i].waitLock == NONE && Dozing(run[i].procs[q]) && run[i].procs[z].parent == q ==>
              !run[i].procs[z].state.Zombie?
  {
    RunKeepsInv(run, i);
    assert Family(run[i], q, z);
  }

  lemma Longer(run: seq<State>, s: State, p: nat, k: nat)
    requires Run(run) && Step(run[|run| - 1], s, p, k)
    ensures Run(run + [s])
  {
    hide Init, Step;
  }

  lemma Forked() returns (run: seq<State>)
    ensures Run(run)
    ensures var s := run[|run| - 1];
            && |s.procs| == 2 && s.cpus == [INIT] && s.procs[1].state.Used? && s.procs[1].maker == INIT
            && s.procs[INIT] == Proc(Running, NONE, 1, NoChan, Free, ForkWait(1), 0, NONE)
  {
    var none := Proc(Unused, NONE, 0, NoChan, Free, Off(ForkRet), NONE, NONE);
    var s0 := State([none.(state := Runnable, pid := 1), none], [NONE], NONE, 2, []);
    var x := s0.procs[INIT];
    var s1 := Set(s0, INIT, x.(state := Running, lock := Own, cpu := 0, pc := Resumed(ForkRet))).(cpus := [INIT]);
    var s2 := Set(s1, INIT, s1.procs[INIT].(lock := Free, pc := User));
    var s3 := Set(Goto(s2, INIT, ForkWait(1)), 1, none.(state := Used, pid := 2, maker := INIT)).(nextpid := 3);
    assert Pick(s0, s1, INIT, 0) && ComeBack(s1, s2, INIT) && ForkStart(s2, s3, INIT, 1);
    Longer([s0], s1, INIT, 0);
    Longer([s0, s1], s2, INIT, 0);
    Longer([s0, s1, s2], s3, INIT, 1);
    run := [s0, s1, s2, s3];
  }

  /** A process may be preempted between the locks of kfork(): it waits for a CPU while its child is
      half made. */
  lemma PreemptedFork() returns (run: seq<State>)
    ensures Run(run)
    ensures var s := run[|run| - 1];
            && |s.procs| == 2 && s.procs[1].state.Used? && s.procs[1].maker == INIT
            && s.procs[INIT].state.Runnable? && s.procs[INIT].lock.Free? && s.cpus == [NONE]
  {
    run := Forked();
    var s3 := run[|run| - 1];
    var s4 := Set(s3, INIT, s3.procs[INIT].(pc := OtherSched(InForkWait(1)), lock := Own, state := Runnable));
    var s5 := Set(s4, INIT, s4.procs[INIT].(pc := Off(InForkWait(1)), lock := Sched(0)));
    var s6 := Set(s5, INIT, s5.procs[INIT].(lock := Free, cpu := NONE)).(cpus := [NONE]);
    assert GiveUp(s3, s4, INIT) && Swtch(s4, s5, INIT) && Retire(s5, s6, INIT, 0);
    Longer(run, s4, INIT, 0);
    Longer(run + [s4], s5, INIT, 0);
    Longer(run + [s4] + [s5], s6, INIT, 0);
    run := run + [s4] + [s5] + [s6];
  }

  /** A process that is asleep is on a channel, so that a wakeup() can find it; one that is not in sleep()
      any more is on none, so that none does. */
  lemma AsleepOnChannel(run: seq<State>, i: nat, q: nat)
    requires Run(run) && i < |run| && q < |run[i].procs|
    ensures run[i].procs[q].state.Sleeping? ==> !run[i].procs[q].chan.NoChan?
    ensures run[i].procs[q].pc.User? || run[i].procs[q].state.Unused? ==> run[i].procs[q].chan.NoChan?
  {
    RunKeepsInv(run, i);
    assert At(run[i], q) && Named(run[i], q);
  }

  /** No pid is reaped twice, and a reaped pid is nobody's any more. */
  lemma ReapedOnce(run: seq<State>, i: nat, q: nat)
    requires Run(run) && i < |run| && q < |run[i].procs|
    ensures forall j, k :: 0 <= j < k < |run[i].reaped| ==> run[i].reaped[j] != run[i].reaped[k]
    ensures !run[i].procs[q].state.Unused? ==> run[i].procs[q].pid !in run[i].reaped
  {
    RunKeepsInv(run, i);
    assert Named(run[i], q);
  }

  /** A RUNNING process is c->proc of exactly one CPU, and no process that the scheduler can pick is
      c->proc of any. */
  lemma RunningOnOneCpu(run: seq<State>, i: nat, q: nat, c: nat)
    requires Run(run) && i < |run| && q < |run[i].procs| && c < |run[i].cpus|
    ensures var s := run[i];
            var x := s.procs[q];
            && (x.state.Running? ==> 0 <= x.cpu < |s.cpus| && (s.cpus[c] == q <==> c == x.cpu))
            && (x.state.Runnable? && x.lock.Free? ==> s.cpus[c] != q)
  {
    RunKeepsInv(run, i);
    var s := run[i];
    assert At(s, q) && OnCpu(s, c);
  }
}
