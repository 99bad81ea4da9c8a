/**
Processes, CPUs and locks as proc.c uses them, one step per lock operation or critical
section.  A spinlock is owned by a CPU, as in spinlock.c, so p->lock can pass from a
scheduler to the process it switches to.  What a process does next is its `Pc`; a critical
section that acquires and releases one p->lock is one step, enabled while that lock is free.
*/
module ProcModel {

  datatype PState = UNUSED | USED | SLEEPING | RUNNABLE | RUNNING | ZOMBIE

  /** Condition lock 0 is wait_lock; the others stand for every other lock passed to sleep. */
  const WAIT_LOCK: int := 0

  /** What sleep returns to: kwait's loop, or other code holding its condition lock. */
  datatype After = ToWait | ToHold

  /** What wakeup returns to. */
  datatype Caller = FromHold(lk: int) | FromReparent(next: int) | FromExit

  /** Where a process continues once the scheduler switches back to it. */
  datatype Resume =
    | Forkret
    | Yielded(back: Pc)
    | Slept(chan: int, lk: int, after: After)
    | Never

  datatype Pc =
    | Unborn                                        // no process here yet
    | Run                                           // user code, or kernel code without locks
    | Hold(lk: int)                                 // holds a condition lock other than wait_lock
    | YieldSet(back: Pc)                            // yield, p->lock held
    | ToSched(res: Resume)                          // about to swtch, state already set
    | Off(res: Resume)                              // not on a CPU: res is in p->context
    | Resumed(res: Resume)                          // back from swtch, p->lock held
    | Sleep1(chan: int, lk: int, after: After)      // sleep: lk held
    | Sleep2(chan: int, lk: int, after: After)      // lk and p->lock held
    | Sleep3(chan: int, lk: int, after: After)      // p->lock held
    | Reacquire(lk: int, after: After)              // sleep: about to take lk again
    | Wake(chan: int, next: int, caller: Caller)    // wakeup, at process `next`
    | Exit0                                         // kexit, about to take wait_lock
    | Reparent(next: int)                           // wait_lock held, at process `next`
    | Exit1                                         // children given away, parent woken
    | Exit2                                         // wait_lock and p->lock held
    | Exit3                                         // the same, state ZOMBIE
    | Wait0                                         // kwait, about to take wait_lock
    | Scan(next: int, kids: bool)                   // wait_lock held, at process `next`
    | WaitDone                                      // wait_lock held, about to return
    | Fork1(np: int)                                // kfork: np from allocproc, np->lock held
    | Fork2(np: int)                                // np->lock released
    | Fork3(np: int)                                // wait_lock held
    | Fork4(np: int)                                // the same, np->parent set
    | Fork5(np: int)                                // wait_lock released

  /** lock is the owning CPU or -1; `on` is the CPU executing this process or -1; `maker` forked it. */
  datatype Proc = Proc(st: PState, chan: int, killed: bool, parent: int, pid: int, lock: int, pc: Pc, on: int,
      maker: int)

  /** The scheduler loop of a CPU, or the process it executes. */
  datatype Mode = Idle | Have(p: int) | Go(p: int) | Back(p: int) | InProc(p: int)

  /** An interrupt handler on a CPU: holding a condition lock, or inside wakeup at process `next`. */
  datatype Irq = NoIrq | IrqHold(lk: int) | IrqWake(chan: int, next: int, lk: int)

  /** cur is c->proc, as an index or -1; while irq is not NoIrq what `mode` says is interrupted. */
  datatype Cpu = Cpu(cur: int, mode: Mode, irq: Irq)

  /** exited and reaped list pids in the order of the ZOMBIE stores and of kwait's returns. */
  datatype State = State(
    procs: seq<Proc>, cpus: seq<Cpu>, locks: seq<int>, init: int, nextpid: int, exited: seq<int>, reaped: seq<int>)

  // ---------------------------------------------------------------------------------
  // What a process holds

  function LockOf(k: Caller): int {
    if k.FromHold? then k.lk else WAIT_LOCK
  }

  /** The process is inside a stretch of code that holds its own p->lock. */
  ghost predicate HoldsOwn(pc: Pc) {
    pc.YieldSet? || pc.ToSched? || pc.Resumed? || pc.Sleep2? || pc.Sleep3? || pc.Exit2? || pc.Exit3?
  }

  ghost predicate HoldsLock(pc: Pc, l: int) {
    match pc
    case Hold(lk) => l == lk
    case Sleep1(_, lk, _) => l == lk
    case Sleep2(_, lk, _) => l == lk
    case Wake(_, _, k) => l == LockOf(k)
    case _ => l == WAIT_LOCK && (pc.Reparent? || pc.Exit1? || pc.Exit2? || pc.Exit3? || pc.Scan? || pc.WaitDone?
                || pc.Fork3? || pc.Fork4?)
  }

  /** Code that holds no spinlock, where a timer interrupt may call yield. */
  ghost predicate Unlocked(pc: Pc) {
    pc.Run? || pc.Reacquire? || pc.Exit0? || pc.Wait0? || pc.Fork2? || pc.Fork5?
  }

  /** The process being made by kfork, across yields, or -1. */
  ghost function Making(pc: Pc): int {
    match pc
    case Fork1(np) => np
    case Fork2(np) => np
    case Fork3(np) => np
    case Fork4(np) => np
    case Fork5(np) => np
    case YieldSet(back) => Making(back)
    case ToSched(res) => if res.Yielded? then Making(res.back) else -1
    case Off(res) => if res.Yielded? then Making(res.back) else -1
    case Resumed(res) => if res.Yielded? then Making(res.back) else -1
    case _ => -1
  }

  /** kfork has set np->parent. */
  ghost predicate ParentSet(pc: Pc) {
    match pc
    case YieldSet(back) => ParentSet(back)
    case ToSched(res) => res.Yielded? && ParentSet(res.back)
    case Off(res) => res.Yielded? && ParentSet(res.back)
    case Resumed(res) => res.Yielded? && ParentSet(res.back)
    case _ => pc.Fork4? || pc.Fork5?
  }

  // ---------------------------------------------------------------------------------
  // Updates

  ghost predicate P(s: State, p: int) {
    0 <= p < |s.procs|
  }

  ghost predicate C(s: State, c: int) {
    0 <= c < |s.cpus|
  }

  ghost predicate L(s: State, l: int) {
    0 <= l < |s.locks|
  }

  function Put(s: State, p: int, r: Proc): State
    requires P(s, p)
  {
    s.(procs := s.procs[p := r])
  }

  function PutLock(s: State, l: int, owner: int): State
    requires L(s, l)
  {
    s.(locks := s.locks[l := owner])
  }

  function PutCpu(s: State, c: int, u: Cpu): State
    requires C(s, c)
  {
    s.(cpus := s.cpus[c := u])
  }

  /** What freeproc leaves. */
  function Freed(r: Proc): Proc {
    r.(st := UNUSED, chan := -1, killed := false, parent := -1, pid := 0, pc := Unborn, maker := -1)
  }

  // ---------------------------------------------------------------------------------
  // The scheduler of CPU c

  datatype SchedStep = Take(p: int) | Skip | Choose | SwitchTo | Return

  ghost predicate SchedNext(s: State, c: int, e: SchedStep, s': State) {
    C(s, c) && s.cpus[c].irq.NoIrq? && var u := s.cpus[c];
    match e
    case Take(p) =>
      && u.mode.Idle? && P(s, p) && s.procs[p].lock == -1
      && s' == PutCpu(Put(s, p, s.procs[p].(lock := c)), c, u.(mode := Have(p)))
    case Skip =>
      && u.mode.Have? && P(s, u.mode.p) && s.procs[u.mode.p].st != RUNNABLE
      && s' == PutCpu(Put(s, u.mode.p, s.procs[u.mode.p].(lock := -1)), c, u.(mode := Idle))
    case Choose =>
      && u.mode.Have? && P(s, u.mode.p) && s.procs[u.mode.p].st == RUNNABLE
      && s' == PutCpu(Put(s, u.mode.p, s.procs[u.mode.p].(st := RUNNING)), c, u.(cur := u.mode.p, mode := Go(u.mode.p)))
    case SwitchTo =>
      && u.mode.Go? && P(s, u.mode.p) && s.procs[u.mode.p].pc.Off?
      && s' == PutCpu(Put(s, u.mode.p, s.procs[u.mode.p].(on := c, pc := Resumed(s.procs[u.mode.p].pc.res))), c,
           u.(mode := InProc(u.mode.p)))
    case Return =>
      && u.mode.Back? && P(s, u.mode.p)
      && s' == PutCpu(Put(s, u.mode.p, s.procs[u.mode.p].(lock := -1)), c, u.(cur := -1, mode := Idle))
  }

  // ---------------------------------------------------------------------------------
  // Steps of process p on CPU c that touch only its own record and one condition lock

  datatype LocalStep =
    | YieldAcquire | YieldStore | Resume
    | Lock(l: int) | Unlock
    | SleepCall(chan: int) | SleepAcquire | SleepRelease | SleepStore | SleepReacquire
    | WakeCall(chan: int) | WakeSelf | WakeEnd
    | ExitCall | ExitAcquire | ReparentSkip | ReparentEnd | ExitLock | ExitStore | ExitRelease
    | WaitCall | WaitAcquire | ScanSkip | ScanEnd | CopyFails | WaitRelease
    | ForkAcquire | ForkReleaseWait

  /** Where Resumed(res) goes once p->lock is released. */
  function Landing(res: Resume): Pc {
    match res
    case Forkret => Run
    case Yielded(back) => back
    case Slept(_, lk, after) => Reacquire(lk, after)
    case Never => Run
  }

  /** The end of wakeup's loop. */
  function WakeReturn(k: Caller): Pc {
    match k
    case FromHold(lk) => Hold(lk)
    case FromReparent(next) => Reparent(next)
    case FromExit => Exit1
  }

  /** CPU c executes process p. */
  ghost predicate Here(s: State, c: int, p: int) {
    P(s, p) && C(s, c) && L(s, WAIT_LOCK) && s.cpus[c].mode == InProc(p) && s.cpus[c].irq.NoIrq?
  }

  /** yield, returning from swtch, and other kernel code with its condition locks. */
  ghost predicate YieldNext(s: State, c: int, p: int, e: LocalStep, s': State)
    requires Here(s, c, p)
  {
    var r := s.procs[p];
    match e
    // yield
    case YieldAcquire => Unlocked(r.pc) && r.lock == -1 && s' == Put(s, p, r.(lock := c, pc := YieldSet(r.pc)))
    case YieldStore => r.pc.YieldSet? && s' == Put(s, p, r.(st := RUNNABLE, pc := ToSched(Yielded(r.pc.back))))
    // forkret, the end of yield, the end of sleep
    case Resume =>
      && r.pc.Resumed? && !r.pc.res.Never?
      && s' == Put(s, p, r.(lock := -1, chan := if r.pc.res.Slept? then -1 else r.chan, pc := Landing(r.pc.res)))
    // other kernel code and its condition locks
    case Lock(l) => r.pc.Run? && L(s, l) && l != WAIT_LOCK && s.locks[l] == -1
                    && s' == PutLock(Put(s, p, r.(pc := Hold(l))), l, c)
    case Unlock => r.pc.Hold? && L(s, r.pc.lk) && s' == PutLock(Put(s, p, r.(pc := Run)), r.pc.lk, -1)
    case _ => false
  }

  /** sleep. */
  ghost predicate SleepNext(s: State, c: int, p: int, e: LocalStep, s': State)
    requires Here(s, c, p)
  {
    var r := s.procs[p];
    match e
    case SleepCall(chan) => r.pc.Hold? && s' == Put(s, p, r.(pc := Sleep1(chan, r.pc.lk, ToHold)))
    case SleepAcquire => r.pc.Sleep1? && r.lock == -1
                         && s' == Put(s, p, r.(lock := c, pc := Sleep2(r.pc.chan, r.pc.lk, r.pc.after)))
    case SleepRelease =>
      && r.pc.Sleep2? && L(s, r.pc.lk)
      && s' == PutLock(Put(s, p, r.(pc := Sleep3(r.pc.chan, r.pc.lk, r.pc.after))), r.pc.lk, -1)
    case SleepStore =>
      && r.pc.Sleep3?
      && s' == Put(s, p, r.(st := SLEEPING, chan := r.pc.chan, pc := ToSched(Slept(r.pc.chan, r.pc.lk, r.pc.after))))
    case SleepReacquire =>
      && r.pc.Reacquire? && L(s, r.pc.lk) && s.locks[r.pc.lk] == -1
      && s' == PutLock(Put(s, p, r.(pc := if r.pc.after.ToWait? then Scan(0, false) else Hold(r.pc.lk))), r.pc.lk, c)
    case _ => false
  }

  /** wakeup. */
  ghost predicate WakeNext(s: State, c: int, p: int, e: LocalStep, s': State)
    requires Here(s, c, p)
  {
    var r := s.procs[p];
    match e
    case WakeCall(chan) => r.pc.Hold? && s' == Put(s, p, r.(pc := Wake(chan, 0, FromHold(r.pc.lk))))
    case WakeSelf => r.pc.Wake? && r.pc.next == p && s' == Put(s, p, r.(pc := Wake(r.pc.chan, p + 1, r.pc.caller)))
    case WakeEnd => r.pc.Wake? && r.pc.next == |s.procs| && s' == Put(s, p, r.(pc := WakeReturn(r.pc.caller)))
    case _ => false
  }

  /** kexit. */
  ghost predicate ExitNext(s: State, c: int, p: int, e: LocalStep, s': State)
    requires Here(s, c, p)
  {
    var r := s.procs[p];
    match e
    // kexit
    case ExitCall => r.pc.Run? && p != s.init && s' == Put(s, p, r.(pc := Exit0))
    case ExitAcquire => r.pc.Exit0? && s.locks[WAIT_LOCK] == -1
                        && s' == PutLock(Put(s, p, r.(pc := Reparent(0))), WAIT_LOCK, c)
    case ReparentSkip =>
      && r.pc.Reparent? && P(s, r.pc.next) && s.procs[r.pc.next].parent != p
      && s' == Put(s, p, r.(pc := Reparent(r.pc.next + 1)))
    case ReparentEnd => r.pc.Reparent? && r.pc.next == |s.procs|
                        && s' == Put(s, p, r.(pc := Wake(r.parent, 0, FromExit)))
    case ExitLock => r.pc.Exit1? && r.lock == -1 && s' == Put(s, p, r.(lock := c, pc := Exit2))
    case ExitStore => r.pc.Exit2? && s' == Put(s, p, r.(st := ZOMBIE, pc := Exit3)).(exited := s.exited + [r.pid])
    case ExitRelease => r.pc.Exit3? && s' == PutLock(Put(s, p, r.(pc := ToSched(Never))), WAIT_LOCK, -1)
    case _ => false
  }

  /** kwait, and kfork around setting np->parent. */
  ghost predicate WaitNext(s: State, c: int, p: int, e: LocalStep, s': State)
    requires Here(s, c, p)
  {
    var r := s.procs[p];
    match e
    // kwait
    case WaitCall => r.pc.Run? && s' == Put(s, p, r.(pc := Wait0))
    case WaitAcquire => r.pc.Wait0? && s.locks[WAIT_LOCK] == -1
                        && s' == PutLock(Put(s, p, r.(pc := Scan(0, false))), WAIT_LOCK, c)
    case ScanSkip =>
      && r.pc.Scan? && P(s, r.pc.next) && var q := s.procs[r.pc.next];
      && (q.parent == p ==> q.lock == -1 && q.st != ZOMBIE)
      && s' == Put(s, p, r.(pc := Scan(r.pc.next + 1, r.pc.kids || q.parent == p)))
    case ScanEnd =>
      && r.pc.Scan? && r.pc.next == |s.procs|
      && s' == Put(s, p, r.(pc := if !r.pc.kids || r.killed then WaitDone else Sleep1(p, WAIT_LOCK, ToWait)))
    case CopyFails =>
      && r.pc.Scan? && P(s, r.pc.next) && s.procs[r.pc.next].parent == p && s.procs[r.pc.next].lock == -1
      && s.procs[r.pc.next].st == ZOMBIE && s' == Put(s, p, r.(pc := WaitDone))
    case WaitRelease => r.pc.WaitDone? && s' == PutLock(Put(s, p, r.(pc := Run)), WAIT_LOCK, -1)
    // kfork, around setting np->parent
    case ForkAcquire => r.pc.Fork2? && s.locks[WAIT_LOCK] == -1
                        && s' == PutLock(Put(s, p, r.(pc := Fork3(r.pc.np))), WAIT_LOCK, c)
    case ForkReleaseWait => r.pc.Fork4? && s' == PutLock(Put(s, p, r.(pc := Fork5(r.pc.np))), WAIT_LOCK, -1)
    case _ => false
  }

  /** Process p, executing on CPU c, takes a step of its own. */
  ghost predicate LocalNext(s: State, c: int, p: int, e: LocalStep, s': State) {
    && Here(s, c, p)
    && (|| YieldNext(s, c, p, e, s') || SleepNext(s, c, p, e, s') || WakeNext(s, c, p, e, s')
        || ExitNext(s, c, p, e, s') || WaitNext(s, c, p, e, s'))
  }

  // ---------------------------------------------------------------------------------
  // Steps of process p that also change another process q

  datatype RemoteStep =
    | WakeVisit | ReparentGive | Reap | Kill
    | ForkAlloc | ForkFail | ForkRelease | ForkParent | ForkRun

  /** CPU c executes process p, and q is another one. */
  ghost predicate Two(s: State, c: int, p: int, q: int) {
    P(s, p) && P(s, q) && p != q && C(s, c) && s.cpus[c].mode == InProc(p) && s.cpus[c].irq.NoIrq?
  }

  /** wakeup, reparent, kwait and kkill at process q. */
  ghost predicate VisitNext(s: State, c: int, p: int, q: int, e: RemoteStep, s': State)
    requires Two(s, c, p, q)
  {
    var r, o := s.procs[p], s.procs[q];
    match e
    case WakeVisit =>
      && r.pc.Wake? && r.pc.next == q && o.lock == -1
      && s' == Put(Put(s, p, r.(pc := Wake(r.pc.chan, q + 1, r.pc.caller))), q,
                   if o.st == SLEEPING && o.chan == r.pc.chan then o.(st := RUNNABLE) else o)
    case ReparentGive =>
      && r.pc.Reparent? && r.pc.next == q && o.parent == p
      && s' == Put(Put(s, p, r.(pc := Wake(s.init, 0, FromReparent(q + 1)))), q, o.(parent := s.init))
    case Reap =>
      && r.pc.Scan? && r.pc.next == q && o.parent == p && o.lock == -1 && o.st == ZOMBIE
      && s' == Put(Put(s, p, r.(pc := WaitDone)), q, Freed(o)).(reaped := s.reaped + [o.pid])
    case Kill =>
      && r.pc.Run? && o.lock == -1
      && s' == Put(s, q, o.(killed := true, st := if o.st == SLEEPING then RUNNABLE else o.st))
    case _ => false
  }

  /** allocproc and kfork, making process q. */
  ghost predicate ForkNext(s: State, c: int, p: int, q: int, e: RemoteStep, s': State)
    requires Two(s, c, p, q)
  {
    var r, o := s.procs[p], s.procs[q];
    match e
    case ForkAlloc =>
      && r.pc.Run? && o.lock == -1 && o.st == UNUSED
      && s' == Put(Put(s, p, r.(pc := Fork1(q))), q,
           o.(st := USED, pid := s.nextpid, lock := c, maker := p)).(nextpid := s.nextpid + 1)
    case ForkFail =>
      && r.pc.Fork1? && r.pc.np == q
      && s' == Put(Put(s, p, r.(pc := Run)), q, Freed(o).(lock := -1))
    case ForkRelease =>
      && r.pc.Fork1? && r.pc.np == q
      && s' == Put(Put(s, p, r.(pc := Fork2(q))), q, o.(lock := -1))
    case ForkParent =>
      && r.pc.Fork3? && r.pc.np == q
      && s' == Put(Put(s, p, r.(pc := Fork4(q))), q, o.(parent := p))
    case ForkRun =>
      && r.pc.Fork5? && r.pc.np == q && o.lock == -1
      && s' == Put(Put(s, p, r.(pc := Run)), q, o.(st := RUNNABLE, pc := Off(Forkret), maker := -1))
    case _ => false
  }

  ghost predicate RemoteNext(s: State, c: int, p: int, q: int, e: RemoteStep, s': State) {
    Two(s, c, p, q) && (VisitNext(s, c, p, q, e, s') || ForkNext(s, c, p, q, e, s'))
  }

  /** swtch to the scheduler: the process's context is saved and CPU c is back in scheduler(). */
  ghost predicate SwitchOut(s: State, c: int, p: int, s': State) {
    && P(s, p) && C(s, c) && s.cpus[c].mode == InProc(p) && s.cpus[c].irq.NoIrq? && s.procs[p].pc.ToSched?
    && s' == PutCpu(Put(s, p, s.procs[p].(on := -1, pc := Off(s.procs[p].pc.res))), c, s.cpus[c].(mode := Back(p)))
  }

  // ---------------------------------------------------------------------------------
  // Interrupt handlers

  datatype IrqStep = IrqLock(l: int) | IrqCall(chan: int) | IrqVisit(q: int) | IrqSelf | IrqEnd | IrqUnlock

  /** CPU c holds no spinlock: scheduler() between processes, or kernel or user code without locks. */
  ghost predicate Interruptible(s: State, c: int)
    requires C(s, c)
  {
    var m := s.cpus[c].mode;
    m.Idle? || (m.InProc? && P(s, m.p) && Unlocked(s.procs[m.p].pc))
  }

  /** A handler such as clockintr or virtio_disk_intr: any number of wakeups under one condition lock. */
  ghost predicate IrqNext(s: State, c: int, e: IrqStep, s': State) {
    C(s, c) && var u := s.cpus[c];
    match e
    case IrqLock(l) =>
      && u.irq.NoIrq? && Interruptible(s, c) && L(s, l) && l != WAIT_LOCK && s.locks[l] == -1
      && s' == PutLock(PutCpu(s, c, u.(irq := IrqHold(l))), l, c)
    case IrqCall(chan) => u.irq.IrqHold? && s' == PutCpu(s, c, u.(irq := IrqWake(chan, 0, u.irq.lk)))
    case IrqVisit(q) =>
      && u.irq.IrqWake? && u.irq.next == q && P(s, q) && u.cur != q && s.procs[q].lock == -1 && var o := s.procs[q];
      && s' == Put(PutCpu(s, c, u.(irq := IrqWake(u.irq.chan, q + 1, u.irq.lk))), q,
                   if o.st == SLEEPING && o.chan == u.irq.chan then o.(st := RUNNABLE) else o)
    case IrqSelf =>
      && u.irq.IrqWake? && P(s, u.irq.next) && u.cur == u.irq.next
      && s' == PutCpu(s, c, u.(irq := IrqWake(u.irq.chan, u.irq.next + 1, u.irq.lk)))
    case IrqEnd => u.irq.IrqWake? && u.irq.next == |s.procs| && s' == PutCpu(s, c, u.(irq := IrqHold(u.irq.lk)))
    case IrqUnlock =>
      u.irq.IrqHold? && L(s, u.irq.lk) && s' == PutLock(PutCpu(s, c, u.(irq := NoIrq)), u.irq.lk, -1)
  }

  datatype Event =
    | Sched(e: SchedStep)
    | Out(p: int)
    | Local(p: int, l: LocalStep)
    | Remote(p: int, q: int, r: RemoteStep)
    | Interrupt(i: IrqStep)

  ghost predicate Next(s: State, c: int, e: Event, s': State) {
    match e
    case Sched(e) => SchedNext(s, c, e, s')
    case Out(p) => SwitchOut(s, c, p, s')
    case Local(p, l) => LocalNext(s, c, p, l, s')
    case Remote(p, q, r) => RemoteNext(s, c, p, q, r, s')
    case Interrupt(i) => IrqNext(s, c, i, s')
  }

  /** After userinit: one process, ready to run; every lock free, every CPU in its scheduler. */
  ghost predicate Init(s: State) {
    && P(s, s.init) && L(s, WAIT_LOCK)
    && (forall c :: C(s, c) ==> s.cpus[c] == Cpu(-1, Idle, NoIrq))
    && (forall l :: L(s, l) ==> s.locks[l] == -1)
    && s.procs[s.init] == Proc(RUNNABLE, -1, false, -1, 1, -1, Off(Forkret), -1, -1)
    && (forall p :: P(s, p) && p != s.init ==> s.procs[p] == Proc(UNUSED, -1, false, -1, 0, -1, Unborn, -1, -1))
    && s.nextpid == 2 && s.exited == [] && s.reaped == []
  }

  ghost predicate IsRun(states: seq<State>, steps: seq<(int, Event)>) {
    && |states| == |steps| + 1 && Init(states[0])
    && forall i :: 0 <= i < |steps| ==> Next(states[i], steps[i].0, steps[i].1, states[i + 1])
  }
}
