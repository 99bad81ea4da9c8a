/** Sleeping and waking: no wakeup made under the condition lock misses a sleeper. */
module ProcWakeups {
  import opened ProcModel
  import opened ProcLocks
  import opened ProcFamily

  /** What a process that has released its condition lock inside sleep waits for. */
  datatype Key = Awake | On(chan: int, lk: int)

  ghost function KeyOf(r: Proc): Key {
    match r.pc
    case Sleep3(chan, lk, _) => On(chan, lk)
    case ToSched(res) => if res.Slept? && r.st == SLEEPING then On(res.chan, res.lk) else Awake
    case Off(res) => if res.Slept? && r.st == SLEEPING then On(res.chan, res.lk) else Awake
    case _ => Awake
  }

  /** p has released lk inside sleep(chan, lk) and has not been woken since. */
  ghost predicate Asleep(s: State, p: int, chan: int, lk: int)
    requires P(s, p)
  {
    KeyOf(s.procs[p]) == On(chan, lk)
  }

  /** p sleeps in kwait. */
  ghost predicate Waiting(s: State, p: int) {
    P(s, p) && Asleep(s, p, p, WAIT_LOCK)
  }

  /** A wakeup in progress has left nobody asleep among those it has visited. */
  ghost predicate WakeOk(s: State, w: int, p: int)
    requires P(s, w)
  {
    var pc := s.procs[w].pc;
    pc.Wake? && P(s, p) && p < pc.next && p != w ==> !Asleep(s, p, pc.chan, LockOf(pc.caller))
  }

  /** What kexit's wakeups are for. */
  ghost predicate ExitOk(s: State, w: int)
    requires P(s, w)
  {
    var r := s.procs[w];
    && (r.pc.Wake? && r.pc.caller.FromReparent? ==> r.pc.chan == s.init)
    && (r.pc.Wake? && r.pc.caller.FromExit? ==> r.pc.chan == r.parent)
    && (r.pc.Exit1? || r.pc.Exit2? ==> !Waiting(s, r.parent))
  }

  /** How far kwait's scan has got without meeting a zombie child. */
  ghost function Scanned(pc: Pc, n: nat): int {
    match pc
    case Scan(next, _) => next
    case Sleep1(_, _, after) => if after.ToWait? then n else 0
    case Sleep2(_, _, after) => if after.ToWait? then n else 0
    case _ => 0
  }

  ghost predicate ScanOk(s: State, p: int, j: int)
    requires P(s, p)
  {
    P(s, j) && j < Scanned(s.procs[p].pc, |s.procs|) && s.procs[j].parent == p ==> s.procs[j].st != ZOMBIE
  }

  /** The holder of wait_lock, in reparent, has still to wake init. */
  ghost predicate Rousing(s: State, w: int) {
    P(s, w) && Roused(s.procs[w].pc, s.init)
  }

  ghost predicate Roused(pc: Pc, init: int) {
    pc.Wake? && pc.caller.FromReparent? && pc.next <= init
  }

  ghost predicate ZombieOk(s: State, q: int)
    requires P(s, q)
  {
    var p := s.procs[q].parent;
    s.procs[q].st == ZOMBIE && Waiting(s, p) ==> p == s.init && exists w :: Rousing(s, w)
  }

  ghost predicate Wakeups(s: State) {
    && (forall w, p {:trigger WakeOk(s, w, p)} :: P(s, w) ==> WakeOk(s, w, p))
    && (forall w {:trigger ExitOk(s, w)} :: P(s, w) ==> ExitOk(s, w))
    && (forall p, j {:trigger ScanOk(s, p, j)} :: P(s, p) ==> ScanOk(s, p, j))
    && (forall q {:trigger ZombieOk(s, q)} :: P(s, q) ==> ZombieOk(s, q))
  }

  /** A condition lock has one holder. */
  lemma Exclusive(s: State, w: int, p: int, l: int)
    requires Core(s) && P(s, w) && P(s, p) && HoldsLock(s.procs[w].pc, l) && HoldsLock(s.procs[p].pc, l)
    ensures w == p
  {
    assert HoldsOk(s, w, l) && HoldsOk(s, p, l) && ProcOk(s, w) && ProcOk(s, p);
  }

  // ---------------------------------------------------------------------------------
  // Steps of one process p: what they may do to sleepers and zombies

  /** A step of p's own starts a wakeup, passes over p itself, or ends one. */
  ghost predicate WakeStep(s: State, p: int, r: Proc, pc': Pc) {
    && (pc'.Wake? ==>
          || WakeStart(s, r, pc') || pc' == r.pc
          || (r.pc.Wake? && r.pc.next == p && pc' == Wake(r.pc.chan, p + 1, r.pc.caller)))
    && (Roused(r.pc, s.init) && p != s.init ==> Roused(pc', s.init))
    && (pc'.Exit1? || pc'.Exit2? ==>
          r.pc == pc' || r.pc.Exit1? || (r.pc.Wake? && r.pc.caller.FromExit? && r.pc.next == |s.procs|))
  }

  ghost predicate WakeStart(s: State, r: Proc, pc': Pc)
    requires pc'.Wake?
  {
    pc'.next == 0 && (pc'.caller.FromReparent? ==> pc'.chan == s.init)
      && (pc'.caller.FromExit? ==> pc'.chan == r.parent)
  }

  /** p falls asleep only on releasing the lock it holds, and becomes a zombie only at the end of kexit. */
  ghost predicate SleepStep(s: State, p: int, s': State) {
    && P(s, p) && |s'.procs| == |s.procs| && s'.init == s.init && s'.procs == s.procs[p := s'.procs[p]]
    && var r, r' := s.procs[p], s'.procs[p];
    && r'.parent == r.parent && WakeStep(s, p, r, r'.pc)
    && (KeyOf(r') == Awake || KeyOf(r') == KeyOf(r) || (r.pc.Sleep2? && KeyOf(r') == On(r.pc.chan, r.pc.lk)))
    && (r'.st == ZOMBIE ==> r.st == ZOMBIE || r.pc.Exit2?)
    && (forall j :: P(s, j) && j < Scanned(r'.pc, |s.procs|) ==>
           j < Scanned(r.pc, |s.procs|) || s.procs[j].parent != p || s.procs[j].st != ZOMBIE)
  }

  lemma SleepStepWake(s: State, p: int, s': State, w: int, x: int)
    requires Core(s) && Wakeups(s) && SleepStep(s, p, s') && P(s', w)
    ensures WakeOk(s', w, x)
  {
    assert WakeOk(s, w, x);
    var pc := s'.procs[w].pc;
    if x == p && w != p && pc.Wake? && Asleep(s', p, pc.chan, LockOf(pc.caller))
      && !Asleep(s, p, pc.chan, LockOf(pc.caller)) {
      Exclusive(s, w, p, LockOf(pc.caller));
    }
  }

  lemma SleepStepExit(s: State, p: int, s': State, w: int)
    requires Core(s) && Family(s) && Wakeups(s) && SleepStep(s, p, s') && P(s', w)
    ensures ExitOk(s', w)
  {
    assert ExitOk(s, w) && KinOk(s, w) && ProcOk(s, w);
    var parent := s.procs[w].parent;
    if w == p {
      assert ClearedOk(s, p, p) && WakeOk(s, p, parent);
    } else if parent == p && (s.procs[w].pc.Exit1? || s.procs[w].pc.Exit2?) && Waiting(s', p) {
      Exclusive(s, w, p, WAIT_LOCK);
    }
  }

  lemma SleepStepScan(s: State, p: int, s': State, x: int, j: int)
    requires Core(s) && Family(s) && Wakeups(s) && SleepStep(s, p, s') && P(s', x)
    ensures ScanOk(s', x, j)
  {
    assert ScanOk(s, x, j) && ClearedOk(s, p, p) && ProcOk(s, x);
    if j == p && s.procs[p].pc.Exit2? && x != p && 0 < Scanned(s.procs[x].pc, |s.procs|) {
      Exclusive(s, x, p, WAIT_LOCK);
    }
  }

  lemma SleepStepZombie(s: State, p: int, s': State, q: int)
    requires Core(s) && Family(s) && Wakeups(s) && SleepStep(s, p, s') && P(s', q)
    ensures ZombieOk(s', q)
  {
    assert ZombieOk(s, q) && ProcOk(s, p) && KinOk(s, p) && ExitOk(s, p) && ClearedOk(s, p, p) && ScanOk(s, p, q);
    var parent := s'.procs[q].parent;
    if s'.procs[q].st == ZOMBIE && Waiting(s', parent) {
      assert Waiting(s, parent);
      var w :| Rousing(s, w);
      assert Rousing(s', w);
    }
  }

  lemma SleepStepOk(s: State, p: int, s': State)
    requires Core(s) && Family(s) && Wakeups(s) && SleepStep(s, p, s')
    ensures Wakeups(s')
  {
    hide Core, Family, SleepStep;
    forall w, x | P(s', w) ensures WakeOk(s', w, x) { SleepStepWake(s, p, s', w, x); }
    forall w | P(s', w) ensures ExitOk(s', w) { SleepStepExit(s, p, s', w); }
    forall x, j | P(s', x) ensures ScanOk(s', x, j) { SleepStepScan(s, p, s', x, j); }
    forall q | P(s', q) ensures ZombieOk(s', q) { SleepStepZombie(s, p, s', q); }
  }

  lemma YieldWakes(s: State, c: int, p: int, e: LocalStep, s': State)
    requires Here(s, c, p) && YieldNext(s, c, p, e, s') && StateOk(s.procs[p]) && ArgsOk(p, s.procs[p].pc)
    requires P(s, s.init)
    ensures SleepStep(s, p, s')
  {
  }

  lemma SleepWakes(s: State, c: int, p: int, e: LocalStep, s': State)
    requires Here(s, c, p) && SleepNext(s, c, p, e, s') && StateOk(s.procs[p]) && ArgsOk(p, s.procs[p].pc)
    requires P(s, s.init)
    ensures SleepStep(s, p, s')
  {
  }

  lemma WakeWakes(s: State, c: int, p: int, e: LocalStep, s': State)
    requires Here(s, c, p) && WakeNext(s, c, p, e, s') && StateOk(s.procs[p]) && ArgsOk(p, s.procs[p].pc)
    requires P(s, s.init)
    ensures SleepStep(s, p, s')
  {
  }

  lemma ExitWakes(s: State, c: int, p: int, e: LocalStep, s': State)
    requires Here(s, c, p) && ExitNext(s, c, p, e, s') && StateOk(s.procs[p]) && ArgsOk(p, s.procs[p].pc)
    requires P(s, s.init)
    ensures SleepStep(s, p, s')
  {
  }

  lemma WaitWakes(s: State, c: int, p: int, e: LocalStep, s': State)
    requires Here(s, c, p) && WaitNext(s, c, p, e, s') && StateOk(s.procs[p]) && ArgsOk(p, s.procs[p].pc)
    requires P(s, s.init)
    ensures SleepStep(s, p, s')
  {
  }

  lemma LocalWakes(s: State, c: int, p: int, e: LocalStep, s': State)
    requires LocalNext(s, c, p, e, s') && ProcOk(s, p) && P(s, s.init)
    ensures SleepStep(s, p, s')
  {
    hide YieldNext, SleepNext, WakeNext, ExitNext, WaitNext, SleepStep;
    if YieldNext(s, c, p, e, s') {
      YieldWakes(s, c, p, e, s');
    } else if SleepNext(s, c, p, e, s') {
      SleepWakes(s, c, p, e, s');
    } else if WakeNext(s, c, p, e, s') {
      WakeWakes(s, c, p, e, s');
    } else if ExitNext(s, c, p, e, s') {
      ExitWakes(s, c, p, e, s');
    } else {
      WaitWakes(s, c, p, e, s');
    }
  }

  lemma SchedWakes(s: State, c: int, e: SchedStep, s': State)
    requires Core(s) && SchedNext(s, c, e, s')
    ensures C(s, c) && SleepStep(s, Mover(s, c, e), s')
  {
    assert CpuOk(s, c) && ProcOk(s, Mover(s, c, e));
  }

  lemma OutWakes(s: State, c: int, p: int, s': State)
    requires SwitchOut(s, c, p, s') && ProcOk(s, p)
    ensures SleepStep(s, p, s')
  {
  }

  lemma IrqWakes(s: State, c: int, q: int, s': State)
    requires Core(s) && Handled(s, c, q, s')
    ensures SleepStep(s, q, s')
  {
    assert ProcOk(s, q);
  }

  // ---------------------------------------------------------------------------------
  // Steps of p that change q

  ghost predicate RemoteWake(s: State, p: int, q: int, s': State)
    requires P(s, p) && P(s, q) && |s'.procs| == |s.procs|
  {
    var pc, pc' := s.procs[p].pc, s'.procs[p].pc;
    && (pc'.Wake? ==> (pc'.next == 0 && pc'.caller.FromReparent? && pc'.chan == s.init)
                      || (pc.Wake? && pc.next == q && pc' == Wake(pc.chan, q + 1, pc.caller)
                           && !Asleep(s', q, pc.chan, LockOf(pc.caller))) || pc' == pc)
    && (Roused(pc, s.init) ==>
          Roused(pc', s.init) || (pc.next == q == s.init && pc' == Wake(pc.chan, q + 1, pc.caller)))
    && !pc'.Exit1? && !pc'.Exit2? && Scanned(pc', |s.procs|) == 0
  }

  /** A step of p can wake q, give it away, or free it, but not put it to sleep or make it a zombie. */
  ghost predicate RemoteSleep(s: State, p: int, q: int, s': State) {
    && P(s, p) && P(s, q) && p != q && |s'.procs| == |s.procs| && s'.init == s.init
    && var r, r', o, o' := s.procs[p], s'.procs[p], s.procs[q], s'.procs[q];
    && s'.procs == s.procs[p := r'][q := o'] && r'.parent == r.parent && r'.st == r.st && RemoteWake(s, p, q, s')
    && KeyOf(r') == Awake && (KeyOf(o') == Awake || KeyOf(o') == KeyOf(o))
    && (o'.pc == o.pc || (!o.pc.Wake? && (o'.pc == Unborn || o'.pc == Off(Forkret))))
    && (o'.st == ZOMBIE ==> o.st == ZOMBIE)
    && (o'.parent == o.parent || (o'.pc == Unborn && o'.st != ZOMBIE)
           || (HoldsLock(r.pc, WAIT_LOCK) && (o'.st == ZOMBIE ==> o'.parent == s.init && Roused(r'.pc, s.init))))
  }

  lemma RemoteWakeOk(s: State, p: int, q: int, s': State, w: int, x: int)
    requires Wakeups(s) && RemoteSleep(s, p, q, s') && P(s', w)
    ensures WakeOk(s', w, x)
  {
    assert WakeOk(s, w, x);
  }

  lemma RemoteExitOk(s: State, p: int, q: int, s': State, w: int)
    requires Core(s) && Wakeups(s) && RemoteSleep(s, p, q, s') && P(s', w)
    ensures ExitOk(s', w)
  {
    assert ExitOk(s, w) && ProcOk(s, w);
    if w == q && s'.procs[q].parent != s.procs[q].parent && HoldsLock(s.procs[q].pc, WAIT_LOCK)
      && HoldsLock(s.procs[p].pc, WAIT_LOCK) {
      Exclusive(s, p, q, WAIT_LOCK);
    }
  }

  lemma RemoteScanOk(s: State, p: int, q: int, s': State, x: int, j: int)
    requires Core(s) && Wakeups(s) && RemoteSleep(s, p, q, s') && P(s', x)
    ensures ScanOk(s', x, j)
  {
    assert ScanOk(s, x, j) && ProcOk(s, x);
    if j == q && x != p && HoldsLock(s.procs[x].pc, WAIT_LOCK) && HoldsLock(s.procs[p].pc, WAIT_LOCK) {
      Exclusive(s, x, p, WAIT_LOCK);
    }
  }

  lemma RemoteZombieOk(s: State, p: int, q: int, s': State, y: int)
    requires Wakeups(s) && RemoteSleep(s, p, q, s') && P(s', y) && P(s, s.init) && s.procs[p].st != ZOMBIE
    ensures ZombieOk(s', y)
  {
    assert ZombieOk(s, y) && ExitOk(s, p);
    if s'.procs[y].st == ZOMBIE && Waiting(s', s'.procs[y].parent) {
      if s'.procs[y].parent != s.procs[y].parent {
        assert Rousing(s', p);
      } else {
        assert Waiting(s, s.procs[y].parent);
        var w :| Rousing(s, w);
        assert Rousing(s', w);
      }
    }
  }

  lemma VisitSleep(s: State, c: int, p: int, q: int, e: RemoteStep, s': State)
    requires Two(s, c, p, q) && VisitNext(s, c, p, q, e, s') && ProcOk(s, p) && ProcOk(s, q) && MakingOk(s, p)
    requires P(s, s.init)
    ensures RemoteSleep(s, p, q, s')
  {
  }

  lemma ForkSleep(s: State, c: int, p: int, q: int, e: RemoteStep, s': State)
    requires Two(s, c, p, q) && ForkNext(s, c, p, q, e, s') && ProcOk(s, p) && ProcOk(s, q) && MakingOk(s, p)
    requires P(s, s.init)
    ensures RemoteSleep(s, p, q, s')
  {
  }

  lemma RemoteWakeups(s: State, c: int, p: int, q: int, e: RemoteStep, s': State)
    requires Core(s) && Family(s) && Wakeups(s) && RemoteNext(s, c, p, q, e, s')
    ensures Wakeups(s')
  {
    OwnerIs(s, c, p);
    assert ProcOk(s, q);
    hide Core, Wakeups, RemoteSleep, VisitNext, ForkNext, WakeOk, ExitOk, ScanOk, ZombieOk;
    if VisitNext(s, c, p, q, e, s') { VisitSleep(s, c, p, q, e, s'); } else { ForkSleep(s, c, p, q, e, s'); }
    RemoteWakeupsKept(s, p, q, s');
  }

  lemma RemoteWakeupsKept(s: State, p: int, q: int, s': State)
    requires Core(s) && Wakeups(s) && RemoteSleep(s, p, q, s') && P(s, s.init) && s.procs[p].st != ZOMBIE
    ensures Wakeups(s')
  {
    hide Core, RemoteSleep;
    forall w, x | P(s', w) ensures WakeOk(s', w, x) { RemoteWakeOk(s, p, q, s', w, x); }
    forall w | P(s', w) ensures ExitOk(s', w) { RemoteExitOk(s, p, q, s', w); }
    forall x, j | P(s', x) ensures ScanOk(s', x, j) { RemoteScanOk(s, p, q, s', x, j); }
    forall y | P(s', y) ensures ZombieOk(s', y) { RemoteZombieOk(s, p, q, s', y); }
  }

  lemma NextWakeups(s: State, c: int, e: Event, s': State)
    requires Core(s) && Family(s) && Wakeups(s) && Next(s, c, e, s')
    ensures Wakeups(s')
  {
    hide Wakeups, SleepStep, SchedNext;
    match e
    case Sched(e) => SchedWakes(s, c, e, s'); SleepStepOk(s, Mover(s, c, e), s');
    case Out(p) => assert ProcOk(s, p); OutWakes(s, c, p, s'); SleepStepOk(s, p, s');
    case Local(p, l) => assert ProcOk(s, p); LocalWakes(s, c, p, l, s'); SleepStepOk(s, p, s');
    case Remote(p, q, r) => RemoteWakeups(s, c, p, q, r, s');
    case Interrupt(i) =>
      IrqIsOk(s, c, i, s');
      IrqWakes(s, c, Visited(s, i), s');
      SleepStepOk(s, Visited(s, i), s');
  }

  // ---------------------------------------------------------------------------------
  // Wakeups by interrupt handlers

  /** So has a wakeup made by a handler. */
  ghost predicate IrqWakeOk(s: State, c: int, p: int)
    requires C(s, c)
  {
    var irq := s.cpus[c].irq;
    irq.IrqWake? && P(s, p) && p < irq.next ==> !Asleep(s, p, irq.chan, irq.lk)
  }

  ghost predicate IrqWakeups(s: State) {
    forall c, p {:trigger IrqWakeOk(s, c, p)} :: C(s, c) ==> IrqWakeOk(s, c, p)
  }

  /** x fell asleep in this step only by releasing the lock it held. */
  ghost predicate FellAsleep(s: State, s': State, x: int)
    requires P(s, x) && P(s', x)
  {
    var r, r' := s.procs[x], s'.procs[x];
    KeyOf(r') == Awake || KeyOf(r') == KeyOf(r) || (r.pc.Sleep2? && KeyOf(r') == On(r.pc.chan, r.pc.lk))
  }

  /** A handler holds its lock over code without locks, so no process releases that lock meanwhile. */
  lemma NotUnderHandler(s: State, s': State, c: int, x: int)
    requires Core(s) && C(s, c) && P(s, x) && P(s', x) && FellAsleep(s, s', x) && !s.cpus[c].irq.NoIrq?
    ensures forall chan :: Asleep(s', x, chan, s.cpus[c].irq.lk) ==> Asleep(s, x, chan, s.cpus[c].irq.lk)
  {
    assert IrqOk(s, c) && ProcOk(s, x) && HoldsOk(s, x, s.cpus[c].irq.lk);
  }

  /** The process a handler interrupted is not asleep. */
  lemma SelfAwake(s: State, c: int)
    requires Core(s) && C(s, c) && !s.cpus[c].irq.NoIrq? && P(s, s.cpus[c].cur)
    ensures KeyOf(s.procs[s.cpus[c].cur]) == Awake
  {
    assert IrqOk(s, c) && CpuOk(s, c);
  }

  /** What the step does to each process and each handler. */
  lemma StepSleepers(s: State, c: int, e: Event, s': State, x: int)
    requires Core(s) && Family(s) && Next(s, c, e, s') && P(s, x)
    ensures P(s', x) && FellAsleep(s, s', x)
  {
    hide SchedNext, YieldNext, SleepNext, WakeNext, ExitNext, WaitNext, VisitNext, ForkNext, IrqNext;
    match e
    case Sched(e) => SchedWakes(s, c, e, s');
    case Out(p) => assert ProcOk(s, p); OutWakes(s, c, p, s');
    case Local(p, l) => assert ProcOk(s, p); LocalWakes(s, c, p, l, s');
    case Remote(p, q, r) =>
      OwnerIs(s, c, p);
      assert ProcOk(s, q);
      if VisitNext(s, c, p, q, r, s') { VisitSleep(s, c, p, q, r, s'); } else { ForkSleep(s, c, p, q, r, s'); }
    case Interrupt(i) => IrqIsOk(s, c, i, s'); IrqWakes(s, c, Visited(s, i), s');
  }

  lemma StepHandlers(s: State, c: int, e: Event, s': State, d: int)
    requires Core(s) && P(s, s.init) && Next(s, c, e, s') && C(s', d)
    ensures C(s, d) && |s'.procs| == |s.procs| && (s'.cpus[d].irq == s.cpus[d].irq || (d == c && e.Interrupt?))
  {
    hide YieldNext, SleepNext, WakeNext, ExitNext, WaitNext, VisitNext, ForkNext;
    match e
    case Local(p, l) => assert ProcOk(s, p); OwnerIs(s, c, p); LocalRecord(s, c, p, l, s');
    case Remote(p, q, r) => RemoteIsOk(s, c, p, q, r, s');
    case _ =>
  }

  lemma HandlerStep(s: State, c: int, i: IrqStep, s': State, x: int)
    requires Core(s) && Family(s) && IrqWakeups(s) && IrqNext(s, c, i, s') && C(s', c) && P(s', x)
    ensures IrqWakeOk(s', c, x)
  {
    assert IrqWakeOk(s, c, x) && ProcOk(s, x);
    if i.IrqSelf? {
      SelfAwake(s, c);
    }
  }

  lemma NextIrqWakeups(s: State, c: int, e: Event, s': State)
    requires Core(s) && Family(s) && IrqWakeups(s) && Next(s, c, e, s')
    ensures IrqWakeups(s')
  {
    hide Core, KeyOf;
    forall d, x | C(s', d)
      ensures IrqWakeOk(s', d, x)
    {
      StepHandlers(s, c, e, s', d);
      if P(s', x) {
        if d == c && e.Interrupt? {
          HandlerStep(s, c, e.i, s', x);
        } else if s.cpus[d].irq.IrqWake? {
          assert IrqWakeOk(s, d, x);
          StepSleepers(s, c, e, s', x);
          NotUnderHandler(s, s', d, x);
        }
      }
    }
  }

  lemma InitWakeups(s: State)
    requires Init(s)
    ensures Wakeups(s) && IrqWakeups(s)
  {
  }
}
