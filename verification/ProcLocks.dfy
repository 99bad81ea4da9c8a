/**
Who holds which lock, in every reachable state: a lock's owner is the CPU whose code is
inside the section that holds it, a process executes on one CPU, and its saved context is
only touched with its lock held.
*/
module ProcLocks {
  import opened ProcModel

  /** What the state of a process not executing its own code can be. */
  ghost predicate ParkedOk(res: Resume, st: PState, chan: int) {
    match res
    case Never => st == ZOMBIE
    case Slept(ch, _, _) => st == RUNNABLE || (st == SLEEPING && chan == ch)
    case _ => st == RUNNABLE
  }

  ghost predicate StateOk(r: Proc) {
    match r.pc
    case Unborn => r.st == UNUSED || r.st == USED
    case ToSched(res) => ParkedOk(res, r.st, r.chan)
    case Off(res) => ParkedOk(res, r.st, r.chan) || (r.st == RUNNING && !res.Never?)
    case Resumed(res) => r.st == RUNNING && !res.Never?
    case Exit3 => r.st == ZOMBIE
    case _ => r.st == RUNNING
  }

  ghost predicate SleepArgs(p: int, chan: int, lk: int, after: After) {
    if after.ToWait? then lk == WAIT_LOCK && chan == p else lk != WAIT_LOCK
  }

  ghost predicate ResumeArgs(p: int, res: Resume) {
    match res
    case Yielded(back) => Unlocked(back) && (back.Reacquire? ==> SleepArgs(p, p, back.lk, back.after))
    case Slept(chan, lk, after) => SleepArgs(p, chan, lk, after)
    case _ => true
  }

  /** kwait sleeps on its own process under wait_lock; other code never does. */
  ghost predicate ArgsOk(p: int, pc: Pc) {
    match pc
    case Hold(lk) => lk != WAIT_LOCK
    case YieldSet(back) => ResumeArgs(p, Yielded(back))
    case ToSched(res) => ResumeArgs(p, res)
    case Off(res) => ResumeArgs(p, res)
    case Resumed(res) => ResumeArgs(p, res)
    case Sleep1(chan, lk, after) => SleepArgs(p, chan, lk, after)
    case Sleep2(chan, lk, after) => SleepArgs(p, chan, lk, after)
    case Sleep3(chan, lk, after) => SleepArgs(p, chan, lk, after)
    case Reacquire(lk, after) => SleepArgs(p, p, lk, after)
    case Wake(_, _, k) => k.FromHold? ==> k.lk != WAIT_LOCK
    case _ => true
  }

  ghost predicate CpuOk(s: State, c: int)
    requires C(s, c)
  {
    var u := s.cpus[c];
    match u.mode
    case Idle => u.cur == -1
    case Have(p) => u.cur == -1 && P(s, p) && s.procs[p].lock == c
    case Go(p) => u.cur == p && P(s, p) && s.procs[p].lock == c && s.procs[p].st == RUNNING && s.procs[p].pc.Off?
    case Back(p) => u.cur == p && P(s, p) && s.procs[p].lock == c && s.procs[p].st != RUNNING && s.procs[p].pc.Off?
    case InProc(p) => u.cur == p && P(s, p) && s.procs[p].on == c
  }

  ghost predicate ProcOk(s: State, p: int)
    requires P(s, p)
  {
    var r := s.procs[p];
    && StateOk(r) && ArgsOk(p, r.pc)
    && (r.on == -1 <==> r.pc.Unborn? || r.pc.Off?)
    && (r.on != -1 ==> C(s, r.on) && s.cpus[r.on].mode == InProc(p))
    && (r.pc.Off? && r.st == RUNNING ==> C(s, r.lock) && s.cpus[r.lock].mode == Go(p))
    && (HoldsOwn(r.pc) ==> r.lock == r.on)
    && (r.pc.Fork1? ==> P(s, r.pc.np) && r.pc.np != p && s.procs[r.pc.np].lock == r.on)
  }

  /** The process kfork is making belongs to it alone. */
  ghost predicate MakingOk(s: State, p: int)
    requires P(s, p)
  {
    var q := Making(s.procs[p].pc);
    q != -1 ==> P(s, q) && q != p && s.procs[q].st == USED && s.procs[q].maker == p && s.procs[p].st != USED
  }

  ghost predicate HoldsOk(s: State, p: int, l: int)
    requires P(s, p)
  {
    HoldsLock(s.procs[p].pc, l) ==> L(s, l) && s.locks[l] == s.procs[p].on
  }

  /** The CPU that owns q->lock is in a section that holds it. */
  ghost predicate OwnerOk(s: State, q: int)
    requires P(s, q)
  {
    var c := s.procs[q].lock;
    c != -1 ==>
      && C(s, c) && var m := s.cpus[c].mode;
      || m == Have(q) || m == Go(q) || m == Back(q)
      || (m == InProc(q) && HoldsOwn(s.procs[q].pc))
      || (m.InProc? && P(s, m.p) && s.procs[m.p].pc == Fork1(q))
  }

  ghost predicate CondOk(s: State, l: int)
    requires L(s, l)
  {
    var c := s.locks[l];
    c != -1 ==> C(s, c) && if IrqHolds(s.cpus[c].irq, l) then true else CodeHolds(s, c, l)
  }

  ghost predicate IrqHolds(irq: Irq, l: int) {
    !irq.NoIrq? && irq.lk == l
  }

  /** The process CPU c executes is in code that holds condition lock l. */
  ghost predicate CodeHolds(s: State, c: int, l: int)
    requires C(s, c)
  {
    s.cpus[c].mode.InProc? && P(s, s.cpus[c].mode.p) && HoldsLock(s.procs[s.cpus[c].mode.p].pc, l)
  }

  /** A handler runs over code that holds no lock, and owns its condition lock. */
  ghost predicate IrqOk(s: State, c: int)
    requires C(s, c)
  {
    var irq := s.cpus[c].irq;
    !irq.NoIrq? ==> Interruptible(s, c) && irq.lk != WAIT_LOCK && L(s, irq.lk) && s.locks[irq.lk] == c
  }

  ghost predicate Core(s: State) {
    && L(s, WAIT_LOCK)
    && (forall c {:trigger CpuOk(s, c)} :: C(s, c) ==> CpuOk(s, c))
    && (forall p {:trigger ProcOk(s, p)} :: P(s, p) ==> ProcOk(s, p))
    && (forall p {:trigger MakingOk(s, p)} :: P(s, p) ==> MakingOk(s, p))
    && (forall p, l {:trigger HoldsOk(s, p, l)} :: P(s, p) ==> HoldsOk(s, p, l))
    && (forall q {:trigger OwnerOk(s, q)} :: P(s, q) ==> OwnerOk(s, q))
    && (forall l {:trigger CondOk(s, l)} :: L(s, l) ==> CondOk(s, l))
    && (forall c {:trigger IrqOk(s, c)} :: C(s, c) ==> IrqOk(s, c))
  }

  // ---------------------------------------------------------------------------------
  // Steps that change one process's own record and its condition lock

  /** Only p's record and locks owned by c or free may differ. */
  ghost predicate Changed(s: State, c: int, p: int, r': Proc, s': State)
    requires P(s, p)
  {
    && s'.procs == s.procs[p := r'] && s'.cpus == s.cpus && |s'.locks| == |s.locks|
    && (forall l :: L(s, l) ==>
          s'.locks[l] == s.locks[l] || (s.locks[l] == c && s'.locks[l] == -1) || (s.locks[l] == -1 && s'.locks[l] == c))
  }

  ghost predicate OwnLockOk(c: int, r: Proc, r': Proc) {
    if HoldsOwn(r'.pc) then r'.lock == c && (r.lock == -1 || HoldsOwn(r.pc))
    else r'.lock == if HoldsOwn(r.pc) then -1 else r.lock
  }

  ghost predicate CondLockOk(s': State, c: int, r': Proc, l: int) {
    && (HoldsLock(r'.pc, l) ==> L(s', l))
    && (L(s', l) ==> (s'.locks[l] == c <==> HoldsLock(r'.pc, l)))
  }

  ghost predicate LocalOk(s: State, c: int, p: int, r': Proc, s': State) {
    && P(s, p) && C(s, c) && s.cpus[c].mode == InProc(p) && s.cpus[c].irq.NoIrq?
    && Changed(s, c, p, r', s') && var r := s.procs[p];
    && r'.on == r.on && StateOk(r') && ArgsOk(p, r'.pc) && !r'.pc.Off? && !r'.pc.Unborn? && !r.pc.Fork1?
    && !r'.pc.Fork1?
    && Making(r'.pc) == Making(r.pc) && r'.maker == r.maker
    && OwnLockOk(c, r, r') && (forall l {:trigger CondLockOk(s', c, r', l)} :: CondLockOk(s', c, r', l))
  }

  lemma OwnerIs(s: State, c: int, p: int)
    requires Core(s) && P(s, p) && C(s, c) && s.cpus[c].mode == InProc(p) && s.cpus[c].irq.NoIrq?
    ensures s.procs[p].on == c && !s.procs[p].pc.Off? && !s.procs[p].pc.Unborn? && ProcOk(s, p) && MakingOk(s, p)
    ensures CpuOk(s, c)
    ensures forall l {:trigger HoldsLock(s.procs[p].pc, l)} ::
              (HoldsLock(s.procs[p].pc, l) ==> L(s, l))
                && (L(s, l) ==> (s.locks[l] == c <==> HoldsLock(s.procs[p].pc, l)))
  {
    assert CpuOk(s, c) && ProcOk(s, p) && MakingOk(s, p);
    forall l
      ensures HoldsLock(s.procs[p].pc, l) ==> L(s, l)
      ensures L(s, l) ==> (s.locks[l] == c <==> HoldsLock(s.procs[p].pc, l))
    {
      assert HoldsOk(s, p, l);
      if L(s, l) {
        assert CondOk(s, l);
      }
    }
  }

  lemma LocalProc(s: State, c: int, p: int, r': Proc, s': State, q: int)
    requires Core(s) && LocalOk(s, c, p, r', s') && P(s', q)
    ensures ProcOk(s', q) && OwnerOk(s', q) && MakingOk(s', q)
  {
    OwnerIs(s, c, p);
    assert MakingOk(s, q) && ProcOk(s, q) && OwnerOk(s, q) && ProcOk(s, p) && OwnerOk(s, p);
    if s.procs[q].pc.Fork1? && s.procs[q].pc.np == p {
      assert CpuOk(s, s.procs[q].on);
    }
  }

  lemma LocalCond(s: State, c: int, p: int, r': Proc, s': State, q: int, l: int)
    requires Core(s) && LocalOk(s, c, p, r', s') && P(s', q)
    ensures HoldsOk(s', q, l) && (L(s', l) ==> CondOk(s', l))
  {
    OwnerIs(s, c, p);
    assert HoldsOk(s, q, l) && CondLockOk(s', c, r', l) && ProcOk(s, q);
    if L(s, l) {
      assert CondOk(s, l);
    }
  }

  lemma LocalCpu(s: State, c: int, p: int, r': Proc, s': State, d: int)
    requires Core(s) && LocalOk(s, c, p, r', s') && C(s', d)
    ensures CpuOk(s', d) && IrqOk(s', d)
  {
    OwnerIs(s, c, p);
    assert CpuOk(s, d) && IrqOk(s, d) && ProcOk(s, p) && OwnerOk(s, p);
  }

  lemma LocalCore(s: State, c: int, p: int, r': Proc, s': State)
    requires Core(s) && LocalOk(s, c, p, r', s')
    ensures Core(s')
  {
    forall d | C(s', d) ensures CpuOk(s', d) && IrqOk(s', d) { LocalCpu(s, c, p, r', s', d); }
    forall q | P(s', q) ensures ProcOk(s', q) && OwnerOk(s', q) && MakingOk(s', q) { LocalProc(s, c, p, r', s', q); }
    forall q, l | P(s', q) ensures HoldsOk(s', q, l) { LocalCond(s, c, p, r', s', q, l); }
    forall l | L(s', l) ensures CondOk(s', l) { LocalCond(s, c, p, r', s', p, l); }
  }

  /** What a local step does to the record of p, and to nothing else. */
  ghost predicate RecordOk(s: State, c: int, p: int, s': State)
    requires P(s, p)
  {
    && |s'.procs| == |s.procs| && s'.procs == s.procs[p := s'.procs[p]] && s'.cpus == s.cpus && |s'.locks| == |s.locks|
    && s'.init == s.init && s'.nextpid == s.nextpid && s'.reaped == s.reaped && var r, r' := s.procs[p], s'.procs[p];
    && r'.on == r.on && StateOk(r') && ArgsOk(p, r'.pc) && !r'.pc.Off? && !r'.pc.Unborn? && !r.pc.Fork1?
    && !r'.pc.Fork1?
    && Making(r'.pc) == Making(r.pc) && ParentSet(r'.pc) == ParentSet(r.pc) && r'.maker == r.maker
    && OwnLockOk(c, r, r')
  }

  /** What a local step does to condition lock l. */
  ghost predicate LockStepOk(s: State, c: int, p: int, s': State, l: int)
    requires P(s', p)
  {
    && CondLockOk(s', c, s'.procs[p], l)
    && (L(s, l) ==>
          && L(s', l)
          && (|| s'.locks[l] == s.locks[l] || (s.locks[l] == c && s'.locks[l] == -1)
              || (s.locks[l] == -1 && s'.locks[l] == c)))
  }

  ghost predicate LockKnown(s: State, c: int, p: int, l: int)
    requires P(s, p)
  {
    && (HoldsLock(s.procs[p].pc, l) ==> L(s, l))
    && (L(s, l) ==> (s.locks[l] == c <==> HoldsLock(s.procs[p].pc, l)))
  }

  lemma YieldRecord(s: State, c: int, p: int, e: LocalStep, s': State)
    requires Here(s, c, p) && YieldNext(s, c, p, e, s') && ProcOk(s, p) && s.procs[p].on == c
    ensures RecordOk(s, c, p, s')
  {
  }

  lemma YieldLock(s: State, c: int, p: int, e: LocalStep, s': State, l: int)
    requires Here(s, c, p) && YieldNext(s, c, p, e, s') && ProcOk(s, p) && P(s', p) && LockKnown(s, c, p, l)
    ensures LockStepOk(s, c, p, s', l)
  {
  }

  lemma SleepRecord(s: State, c: int, p: int, e: LocalStep, s': State)
    requires Here(s, c, p) && SleepNext(s, c, p, e, s') && ProcOk(s, p) && s.procs[p].on == c
    ensures RecordOk(s, c, p, s')
  {
  }

  lemma WakeRecord(s: State, c: int, p: int, e: LocalStep, s': State)
    requires Here(s, c, p) && WakeNext(s, c, p, e, s') && ProcOk(s, p) && s.procs[p].on == c
    ensures RecordOk(s, c, p, s')
  {
  }

  lemma SleepLock(s: State, c: int, p: int, e: LocalStep, s': State, l: int)
    requires Here(s, c, p) && SleepNext(s, c, p, e, s') && ProcOk(s, p) && P(s', p) && LockKnown(s, c, p, l)
    ensures LockStepOk(s, c, p, s', l)
  {
  }

  lemma WakeLock(s: State, c: int, p: int, e: LocalStep, s': State, l: int)
    requires Here(s, c, p) && WakeNext(s, c, p, e, s') && ProcOk(s, p) && P(s', p) && LockKnown(s, c, p, l)
    ensures LockStepOk(s, c, p, s', l)
  {
  }

  lemma ExitRecord(s: State, c: int, p: int, e: LocalStep, s': State)
    requires Here(s, c, p) && ExitNext(s, c, p, e, s') && ProcOk(s, p) && s.procs[p].on == c
    ensures RecordOk(s, c, p, s')
  {
  }

  lemma ExitLock(s: State, c: int, p: int, e: LocalStep, s': State, l: int)
    requires Here(s, c, p) && ExitNext(s, c, p, e, s') && ProcOk(s, p) && P(s', p) && LockKnown(s, c, p, l)
    ensures LockStepOk(s, c, p, s', l)
  {
  }

  lemma WaitRecord(s: State, c: int, p: int, e: LocalStep, s': State)
    requires Here(s, c, p) && WaitNext(s, c, p, e, s') && ProcOk(s, p) && s.procs[p].on == c
    ensures RecordOk(s, c, p, s')
  {
  }

  lemma WaitLock(s: State, c: int, p: int, e: LocalStep, s': State, l: int)
    requires Here(s, c, p) && WaitNext(s, c, p, e, s') && ProcOk(s, p) && P(s', p) && LockKnown(s, c, p, l)
    ensures LockStepOk(s, c, p, s', l)
  {
  }

  lemma LocalRecord(s: State, c: int, p: int, e: LocalStep, s': State)
    requires LocalNext(s, c, p, e, s') && ProcOk(s, p) && s.procs[p].on == c
    ensures RecordOk(s, c, p, s')
  {
    hide YieldNext, SleepNext, WakeNext, ExitNext, WaitNext, ProcOk, RecordOk;
    if YieldNext(s, c, p, e, s') {
      YieldRecord(s, c, p, e, s');
    } else if SleepNext(s, c, p, e, s') {
      SleepRecord(s, c, p, e, s');
    } else if WakeNext(s, c, p, e, s') {
      WakeRecord(s, c, p, e, s');
    } else if ExitNext(s, c, p, e, s') {
      ExitRecord(s, c, p, e, s');
    } else {
      WaitRecord(s, c, p, e, s');
    }
  }

  lemma LocalLock(s: State, c: int, p: int, e: LocalStep, s': State, l: int)
    requires LocalNext(s, c, p, e, s') && ProcOk(s, p) && P(s', p) && LockKnown(s, c, p, l)
    ensures LockStepOk(s, c, p, s', l)
  {
    hide YieldNext, SleepNext, WakeNext, ExitNext, WaitNext, ProcOk, LockKnown, LockStepOk;
    if YieldNext(s, c, p, e, s') {
      YieldLock(s, c, p, e, s', l);
    } else if SleepNext(s, c, p, e, s') {
      SleepLock(s, c, p, e, s', l);
    } else if WakeNext(s, c, p, e, s') {
      WakeLock(s, c, p, e, s', l);
    } else if ExitNext(s, c, p, e, s') {
      ExitLock(s, c, p, e, s', l);
    } else {
      WaitLock(s, c, p, e, s', l);
    }
  }

  /** Every step of a process's own is of that kind. */
  lemma LocalIsOk(s: State, c: int, p: int, e: LocalStep, s': State)
    requires Core(s) && LocalNext(s, c, p, e, s')
    ensures P(s, p) && |s'.procs| == |s.procs| && LocalOk(s, c, p, s'.procs[p], s')
  {
    OwnerIs(s, c, p);
    LocalRecord(s, c, p, e, s');
    forall l
      ensures CondLockOk(s', c, s'.procs[p], l)
      ensures L(s, l) ==>
                || s'.locks[l] == s.locks[l] || (s.locks[l] == c && s'.locks[l] == -1)
                || (s.locks[l] == -1 && s'.locks[l] == c)
    {
      hide LocalNext;
      assert HoldsLock(s.procs[p].pc, l) ==> L(s, l);
      LocalLock(s, c, p, e, s', l);
    }
  }

  // ---------------------------------------------------------------------------------
  // Steps that also change another process

  ghost predicate OtherLockOk(c: int, q: int, r: Proc, r': Proc, o: Proc, o': Proc) {
    if r'.pc.Fork1? then r'.pc == Fork1(q) && !r.pc.Fork1? && o.lock == -1 && o'.lock == c
    else if r.pc.Fork1? then r.pc == Fork1(q) && o'.lock == -1
    else o'.lock == o.lock && (o.lock == -1 || (o'.st == o.st && o'.pc == o.pc))
  }

  /** Nobody else is making q, before or after. */
  ghost predicate OtherMakingOk(p: int, q: int, r: Proc, r': Proc, o: Proc, o': Proc) {
    && r'.st != USED && r'.maker == r.maker
    && (Making(r'.pc) == Making(r.pc) || Making(r'.pc) == -1 || Making(r'.pc) == q)
    && (Making(r'.pc) == q ==> o'.st == USED && o'.maker == p)
    && (o.st == USED ==> (o'.st == USED && o'.maker == o.maker) || o.maker == p)
    && (o'.st == USED && o.st != USED ==> o'.pc.Unborn?)
    && (Making(o'.pc) == -1 || o'.pc == o.pc)
  }

  ghost predicate OtherOk(q: int, o: Proc, o': Proc) {
    && o'.on == o.on && StateOk(o') && ArgsOk(q, o'.pc)
    && (o'.pc == o.pc || (o.on == -1 && (o'.pc.Unborn? || o'.pc.Off?) && o'.st != RUNNING))
    && (o'.st == RUNNING <==> o.st == RUNNING)
  }

  ghost predicate RemoteOk(s: State, c: int, p: int, q: int, s': State) {
    && P(s, p) && P(s, q) && p != q && C(s, c) && s.cpus[c].mode == InProc(p) && s.cpus[c].irq.NoIrq?
    && |s'.procs| == |s.procs|
    && var r, r', o, o' := s.procs[p], s'.procs[p], s.procs[q], s'.procs[q];
    && s'.procs == s.procs[p := r'][q := o'] && s'.cpus == s.cpus && s'.locks == s.locks
    && StateOk(r') && ArgsOk(p, r'.pc) && r'.on == r.on && r'.lock == r.lock && !r'.pc.Off? && !r'.pc.Unborn?
    && HoldsOwn(r'.pc) == HoldsOwn(r.pc) && (forall l :: HoldsLock(r'.pc, l) == HoldsLock(r.pc, l))
    && OtherOk(q, o, o') && OtherLockOk(c, q, r, r', o, o') && OtherMakingOk(p, q, r, r', o, o')
  }

  ghost predicate RemoteRecordOk(s: State, p: int, q: int, s': State)
    requires P(s, p) && P(s, q)
  {
    && |s'.procs| == |s.procs| && s'.cpus == s.cpus && s'.locks == s.locks
    && var r, r', o, o' := s.procs[p], s'.procs[p], s.procs[q], s'.procs[q];
    && s'.procs == s.procs[p := r'][q := o']
    && StateOk(r') && ArgsOk(p, r'.pc) && r'.on == r.on && r'.lock == r.lock && !r'.pc.Off? && !r'.pc.Unborn?
    && HoldsOwn(r'.pc) == HoldsOwn(r.pc) && OtherOk(q, o, o')
  }

  ghost predicate RemoteLocksOk(s: State, c: int, p: int, q: int, s': State)
    requires P(s, p) && P(s, q) && |s'.procs| == |s.procs|
  {
    && var r, r', o, o' := s.procs[p], s'.procs[p], s.procs[q], s'.procs[q];
    && (forall l :: HoldsLock(r'.pc, l) == HoldsLock(r.pc, l))
    && OtherLockOk(c, q, r, r', o, o') && OtherMakingOk(p, q, r, r', o, o')
  }

  lemma VisitRecord(s: State, c: int, p: int, q: int, e: RemoteStep, s': State)
    requires Two(s, c, p, q) && VisitNext(s, c, p, q, e, s') && ProcOk(s, p) && ProcOk(s, q) && MakingOk(s, p)
    requires s.procs[p].on == c
    ensures RemoteRecordOk(s, p, q, s')
  {
  }

  lemma VisitLocks(s: State, c: int, p: int, q: int, e: RemoteStep, s': State)
    requires Two(s, c, p, q) && VisitNext(s, c, p, q, e, s') && ProcOk(s, p) && ProcOk(s, q) && MakingOk(s, p)
    requires s.procs[p].on == c
    requires |s'.procs| == |s.procs|
    ensures RemoteLocksOk(s, c, p, q, s')
  {
  }

  lemma ForkRecord(s: State, c: int, p: int, q: int, e: RemoteStep, s': State)
    requires Two(s, c, p, q) && ForkNext(s, c, p, q, e, s') && ProcOk(s, p) && ProcOk(s, q) && MakingOk(s, p)
    requires s.procs[p].on == c
    ensures RemoteRecordOk(s, p, q, s')
  {
  }

  lemma ForkLocks(s: State, c: int, p: int, q: int, e: RemoteStep, s': State)
    requires Two(s, c, p, q) && ForkNext(s, c, p, q, e, s') && ProcOk(s, p) && ProcOk(s, q) && MakingOk(s, p)
    requires s.procs[p].on == c
    requires |s'.procs| == |s.procs|
    ensures RemoteLocksOk(s, c, p, q, s')
  {
  }

  lemma RemoteIsOk(s: State, c: int, p: int, q: int, e: RemoteStep, s': State)
    requires Core(s) && RemoteNext(s, c, p, q, e, s')
    ensures RemoteOk(s, c, p, q, s')
  {
    OwnerIs(s, c, p);
    assert ProcOk(s, q);
    hide Core, VisitNext, ForkNext, ProcOk, MakingOk;
    if VisitNext(s, c, p, q, e, s') {
      VisitRecord(s, c, p, q, e, s');
      VisitLocks(s, c, p, q, e, s');
    } else {
      ForkRecord(s, c, p, q, e, s');
      ForkLocks(s, c, p, q, e, s');
    }
  }

  lemma RemoteProc(s: State, c: int, p: int, q: int, s': State, x: int)
    requires Core(s) && RemoteOk(s, c, p, q, s') && P(s', x)
    ensures ProcOk(s', x)
  {
    OwnerIs(s, c, p);
    assert ProcOk(s, x) && OwnerOk(s, x) && OwnerOk(s, p) && ProcOk(s, q) && OwnerOk(s, q);
    if s.procs[x].pc.Fork1? && s.procs[x].pc.np == q {
      assert CpuOk(s, s.procs[x].on);
    }
  }

  lemma RemoteOwner(s: State, c: int, p: int, q: int, s': State, x: int)
    requires Core(s) && RemoteOk(s, c, p, q, s') && P(s', x)
    ensures OwnerOk(s', x) && MakingOk(s', x)
  {
    OwnerIs(s, c, p);
    assert MakingOk(s, x) && OwnerOk(s, x) && OwnerOk(s, p) && ProcOk(s, q) && OwnerOk(s, q);
  }

  lemma RemoteCore(s: State, c: int, p: int, q: int, s': State)
    requires Core(s) && RemoteOk(s, c, p, q, s')
    ensures Core(s')
  {
    OwnerIs(s, c, p);
    forall x | P(s', x) ensures ProcOk(s', x) && OwnerOk(s', x) && MakingOk(s', x) {
      RemoteProc(s, c, p, q, s', x);
      RemoteOwner(s, c, p, q, s', x);
    }
    forall d | C(s', d) ensures CpuOk(s', d) && IrqOk(s', d) {
      assert CpuOk(s, d) && IrqOk(s, d) && ProcOk(s, p) && ProcOk(s, q) && OwnerOk(s, q);
    }
    forall x, l | P(s', x) ensures HoldsOk(s', x, l) {
      assert HoldsOk(s, x, l) && ProcOk(s, q) && HoldsLock(s'.procs[p].pc, l) == HoldsLock(s.procs[p].pc, l);
    }
    forall l | L(s', l) ensures CondOk(s', l) {
      assert CondOk(s, l) && ProcOk(s, q) && HoldsLock(s'.procs[p].pc, l) == HoldsLock(s.procs[p].pc, l);
    }
  }

  // ---------------------------------------------------------------------------------
  // The scheduler, and swtch

  /** CPU c and process p hand p->lock or control to each other. */
  ghost predicate Handed(s: State, c: int, p: int, s': State) {
    && P(s, p) && C(s, c) && |s'.procs| == |s.procs| && |s'.cpus| == |s.cpus|
    && s'.procs == s.procs[p := s'.procs[p]] && s'.cpus == s.cpus[c := s'.cpus[c]] && s'.locks == s.locks
    && s.cpus[c].irq.NoIrq? && s'.cpus[c].irq.NoIrq?
    && (forall l :: HoldsLock(s'.procs[p].pc, l) == HoldsLock(s.procs[p].pc, l))
    && (s.procs[p].pc.Fork1? || s'.procs[p].pc.Fork1? ==> s.procs[p].pc == s'.procs[p].pc)
    && Making(s.procs[p].pc) == Making(s'.procs[p].pc) && s'.procs[p].maker == s.procs[p].maker
    && (s'.procs[p].st == USED <==> s.procs[p].st == USED)
    && (s.cpus[c].mode.Idle? || (s.cpus[c].mode.p == p && (s.cpus[c].mode.InProc? ==> s.procs[p].pc.ToSched?)))
    && (s.procs[p].lock == -1 || s.procs[p].lock == c) && (s'.procs[p].lock == -1 || s'.procs[p].lock == c)
    && (s'.procs[p].on == s.procs[p].on || s.procs[p].on == -1 || s.procs[p].on == c)
    && (s'.procs[p].pc == s.procs[p].pc || s.procs[p].on == -1 || s.procs[p].on == c)
  }

  ghost function Mover(s: State, c: int, e: SchedStep): int
    requires C(s, c)
  {
    if e.Take? then e.p else if s.cpus[c].mode.Idle? then 0 else s.cpus[c].mode.p
  }

  lemma SchedOwn(s: State, c: int, e: SchedStep, s': State)
    requires Core(s) && SchedNext(s, c, e, s')
    ensures C(s, c) && var p := Mover(s, c, e); Handed(s, c, p, s') && CpuOk(s', c) && ProcOk(s', p) && OwnerOk(s', p)
  {
    var p := Mover(s, c, e);
    assert CpuOk(s, c) && ProcOk(s, p) && OwnerOk(s, p);
  }

  lemma OutOwn(s: State, c: int, p: int, s': State)
    requires Core(s) && SwitchOut(s, c, p, s')
    ensures Handed(s, c, p, s') && CpuOk(s', c) && ProcOk(s', p) && OwnerOk(s', p)
  {
    OwnerIs(s, c, p);
  }

  /** A hand-off leaves the other CPUs and processes alone. */
  lemma HandedProc(s: State, c: int, p: int, s': State, x: int)
    requires Core(s) && Handed(s, c, p, s') && P(s', x)
    ensures x != p ==> ProcOk(s', x) && OwnerOk(s', x)
    ensures MakingOk(s', x)
  {
    assert ProcOk(s, x) && OwnerOk(s, x) && MakingOk(s, x);
    assert CpuOk(s, c) && ProcOk(s, p) && OwnerOk(s, p) && MakingOk(s, p);
  }

  lemma HandedCpu(s: State, c: int, p: int, s': State, d: int)
    requires Core(s) && Handed(s, c, p, s') && C(s', d)
    ensures d != c ==> CpuOk(s', d)
    ensures IrqOk(s', d)
  {
    assert CpuOk(s, d) && CpuOk(s, c) && ProcOk(s, p) && OwnerOk(s, p) && IrqOk(s, d);
  }

  lemma HandedConds(s: State, c: int, p: int, s': State, x: int, l: int)
    requires Core(s) && Handed(s, c, p, s') && P(s', x) && ProcOk(s', p)
    ensures HoldsOk(s', x, l) && (L(s', l) ==> CondOk(s', l))
  {
    assert HoldsOk(s, x, l) && HoldsOk(s, p, l) && CpuOk(s, c) && ProcOk(s, x);
    assert HoldsLock(s'.procs[p].pc, l) == HoldsLock(s.procs[p].pc, l);
    if L(s, l) {
      assert CondOk(s, l);
    }
  }

  lemma HandedCore(s: State, c: int, p: int, s': State)
    requires Core(s) && Handed(s, c, p, s') && CpuOk(s', c) && ProcOk(s', p) && OwnerOk(s', p)
    ensures Core(s')
  {
    forall d | C(s', d) ensures CpuOk(s', d) && IrqOk(s', d) { HandedCpu(s, c, p, s', d); }
    forall x | P(s', x) ensures ProcOk(s', x) && OwnerOk(s', x) && MakingOk(s', x) { HandedProc(s, c, p, s', x); }
    forall x, l | P(s', x) ensures HoldsOk(s', x, l) { HandedConds(s, c, p, s', x, l); }
    forall l | L(s', l) ensures CondOk(s', l) { HandedConds(s, c, p, s', p, l); }
  }

  // ---------------------------------------------------------------------------------
  // Interrupt handlers

  /** A handler's step changes its CPU's irq, one condition lock, and may make q runnable. */
  ghost predicate Handled(s: State, c: int, q: int, s': State) {
    && P(s, q) && C(s, c) && |s'.procs| == |s.procs| && |s'.cpus| == |s.cpus| && |s'.locks| == |s.locks|
    && s'.init == s.init && s'.nextpid == s.nextpid && s'.exited == s.exited && s'.reaped == s.reaped
    && s'.cpus == s.cpus[c := s.cpus[c].(irq := s'.cpus[c].irq)]
    && (s'.procs == s.procs || (s.procs[q].lock == -1 && s.procs[q].st == SLEEPING &&
                                s'.procs == s.procs[q := s.procs[q].(st := RUNNABLE)]))
  }

  /** What it does to condition lock l. */
  ghost predicate HandledLock(s: State, c: int, s': State, l: int)
    requires C(s, c) && C(s', c) && |s'.locks| == |s.locks|
  {
    L(s, l) ==>
      if IrqHolds(s'.cpus[c].irq, l) then s'.locks[l] == c && (s.locks[l] == -1 || IrqHolds(s.cpus[c].irq, l))
      else s'.locks[l] == if IrqHolds(s.cpus[c].irq, l) then -1 else s.locks[l]
  }

  ghost function Visited(s: State, e: IrqStep): int {
    if e.IrqVisit? then e.q else s.init
  }

  lemma IrqIsOk(s: State, c: int, e: IrqStep, s': State)
    requires Core(s) && IrqNext(s, c, e, s') && P(s, s.init)
    ensures Handled(s, c, Visited(s, e), s') && IrqOk(s', c)
    ensures forall l {:trigger HandledLock(s, c, s', l)} :: HandledLock(s, c, s', l)
  {
    assert IrqOk(s, c);
  }

  lemma HandledProc(s: State, c: int, q: int, s': State, x: int)
    requires Core(s) && Handled(s, c, q, s') && P(s', x)
    ensures ProcOk(s', x) && OwnerOk(s', x) && MakingOk(s', x)
  {
    assert ProcOk(s, x) && OwnerOk(s, x) && MakingOk(s, x) && ProcOk(s, q);
  }

  lemma HandledCpu(s: State, c: int, q: int, s': State, d: int)
    requires Core(s) && Handled(s, c, q, s') && C(s', d) && IrqOk(s', c)
    requires forall l {:trigger HandledLock(s, c, s', l)} :: HandledLock(s, c, s', l)
    ensures CpuOk(s', d) && IrqOk(s', d)
  {
    assert CpuOk(s, d) && IrqOk(s, d) && ProcOk(s, q);
    if !s.cpus[d].irq.NoIrq? && d != c {
      assert HandledLock(s, c, s', s.cpus[d].irq.lk) && IrqOk(s, c);
    }
  }

  lemma HandledConds(s: State, c: int, q: int, s': State, x: int, l: int)
    requires Core(s) && Handled(s, c, q, s') && P(s', x) && HandledLock(s, c, s', l) && IrqOk(s', c)
    ensures HoldsOk(s', x, l) && (L(s', l) ==> CondOk(s', l))
  {
    assert HoldsOk(s, x, l) && ProcOk(s, q) && ProcOk(s, x) && IrqOk(s, c);
    if L(s, l) {
      assert CondOk(s, l);
    }
  }

  lemma HandledCore(s: State, c: int, q: int, s': State)
    requires Core(s) && Handled(s, c, q, s') && IrqOk(s', c)
    requires forall l {:trigger HandledLock(s, c, s', l)} :: HandledLock(s, c, s', l)
    ensures Core(s')
  {
    forall d | C(s', d) ensures CpuOk(s', d) && IrqOk(s', d) { HandledCpu(s, c, q, s', d); }
    forall x | P(s', x) ensures ProcOk(s', x) && OwnerOk(s', x) && MakingOk(s', x) { HandledProc(s, c, q, s', x); }
    forall x, l | P(s', x) ensures HoldsOk(s', x, l) {
      assert HandledLock(s, c, s', l);
      HandledConds(s, c, q, s', x, l);
    }
    forall l | L(s', l) ensures CondOk(s', l) { assert HandledLock(s, c, s', l); HandledConds(s, c, q, s', q, l); }
  }

  lemma NextCore(s: State, c: int, e: Event, s': State)
    requires Core(s) && P(s, s.init) && Next(s, c, e, s')
    ensures Core(s')
  {
    hide Core, SchedNext, SwitchOut, LocalNext, RemoteNext, IrqNext, LocalOk, RemoteOk, Handed, Handled, HandledLock;
    hide CpuOk, ProcOk, OwnerOk, IrqOk;
    match e
    case Sched(e) => SchedOwn(s, c, e, s'); HandedCore(s, c, Mover(s, c, e), s');
    case Out(p) => OutOwn(s, c, p, s'); HandedCore(s, c, p, s');
    case Local(p, l) => LocalIsOk(s, c, p, l, s'); LocalCore(s, c, p, s'.procs[p], s');
    case Remote(p, q, r) => RemoteIsOk(s, c, p, q, r, s'); RemoteCore(s, c, p, q, s');
    case Interrupt(i) => IrqIsOk(s, c, i, s'); HandledCore(s, c, Visited(s, i), s');
  }

  lemma InitCore(s: State)
    requires Init(s)
    ensures Core(s)
  {
  }
}
