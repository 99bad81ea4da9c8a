/** What holds in every state of every run of the process layer. */
module ProcTheorems {
  import opened Basics
  import opened ProcModel
  import opened ProcLocks
  import opened ProcFamily
  import opened ProcWakeups

  // ---------------------------------------------------------------------------------
  // Process ids

  ghost predicate PidOk(s: State, p: int)
    requires P(s, p)
  {
    var r := s.procs[p];
    r.st != UNUSED ==>
      && 0 < r.pid < s.nextpid && r.pid !in s.reaped
      && (r.st == ZOMBIE <==> r.pid in s.exited)
  }

  ghost predicate PidsApart(s: State, p: int, q: int)
    requires P(s, p) && P(s, q)
  {
    s.procs[p].st != UNUSED && s.procs[q].st != UNUSED && s.procs[p].pid == s.procs[q].pid ==> p == q
  }

  /** Each exit is of a pid not seen before, and what has been reaped are exits whose zombie is gone. */
  ghost predicate Pids(s: State) {
    && (forall p {:trigger PidOk(s, p)} :: P(s, p) ==> PidOk(s, p))
    && (forall p, q {:trigger PidsApart(s, p, q)} :: P(s, p) && P(s, q) ==> PidsApart(s, p, q))
    && Distinct(s.exited) && Distinct(s.reaped) && 0 < s.nextpid
    && (forall x :: x in s.exited ==> 0 < x < s.nextpid)
    && (forall x :: x in s.reaped ==> x in s.exited)
    && (forall x :: x in s.exited && x !in s.reaped ==> exists q :: ZombieOf(s, q, x))
  }

  ghost predicate ZombieOf(s: State, q: int, x: int) {
    P(s, q) && s.procs[q].st == ZOMBIE && s.procs[q].pid == x
  }

  lemma DistinctSnoc(a: seq<int>, x: int)
    requires Distinct(a) && x !in a
    ensures Distinct(a + [x])
  {
  }

  /** A step that leaves pids alone; p may be one that becomes a zombie. */
  ghost predicate PidStep(s: State, p: int, s': State) {
    && P(s, p) && |s'.procs| == |s.procs| && s'.nextpid == s.nextpid && s'.reaped == s.reaped
    && (forall q :: P(s, q) && q != p ==>
          && s'.procs[q].pid == s.procs[q].pid && (s'.procs[q].st == UNUSED <==> s.procs[q].st == UNUSED)
          && (s'.procs[q].st == ZOMBIE <==> s.procs[q].st == ZOMBIE))
    && s'.procs[p].pid == s.procs[p].pid && (s'.procs[p].st == UNUSED <==> s.procs[p].st == UNUSED)
    && if s'.exited == s.exited then (s'.procs[p].st == ZOMBIE <==> s.procs[p].st == ZOMBIE)
       else s'.exited == s.exited + [s.procs[p].pid] && s.procs[p].st == RUNNING && s'.procs[p].st == ZOMBIE
  }

  lemma PidStepOk(s: State, p: int, s': State)
    requires Pids(s) && PidStep(s, p, s')
    ensures Pids(s')
  {
    assert PidOk(s, p);
    if s'.exited != s.exited {
      DistinctSnoc(s.exited, s.procs[p].pid);
    }
    forall q | P(s', q) ensures PidOk(s', q) {
      assert PidOk(s, q) && PidsApart(s, p, q);
    }
    forall x, y | P(s', x) && P(s', y) ensures PidsApart(s', x, y) {
      assert PidsApart(s, x, y);
    }
    forall x | x in s'.exited && x !in s'.reaped
      ensures exists q :: ZombieOf(s', q, x)
    {
      if x in s.exited {
        var q :| ZombieOf(s, q, x);
        assert ZombieOf(s', q, x);
      } else {
        assert ZombieOf(s', p, x);
      }
    }
  }

  lemma YieldPids(s: State, c: int, p: int, e: LocalStep, s': State)
    requires Here(s, c, p) && YieldNext(s, c, p, e, s') && StateOk(s.procs[p])
    ensures PidStep(s, p, s')
  {
  }

  lemma SleepPids(s: State, c: int, p: int, e: LocalStep, s': State)
    requires Here(s, c, p) && SleepNext(s, c, p, e, s') && StateOk(s.procs[p])
    ensures PidStep(s, p, s')
  {
  }

  lemma WakePids(s: State, c: int, p: int, e: LocalStep, s': State)
    requires Here(s, c, p) && WakeNext(s, c, p, e, s') && StateOk(s.procs[p])
    ensures PidStep(s, p, s')
  {
  }

  lemma ExitPids(s: State, c: int, p: int, e: LocalStep, s': State)
    requires Here(s, c, p) && ExitNext(s, c, p, e, s') && StateOk(s.procs[p])
    ensures PidStep(s, p, s')
  {
  }

  lemma WaitPids(s: State, c: int, p: int, e: LocalStep, s': State)
    requires Here(s, c, p) && WaitNext(s, c, p, e, s') && StateOk(s.procs[p])
    ensures PidStep(s, p, s')
  {
  }

  /** Visits other than a reap, and the steps of kfork between alloc and failure, leave pids alone. */
  lemma RemotePids(s: State, c: int, p: int, q: int, e: RemoteStep, s': State)
    requires RemoteNext(s, c, p, q, e, s') && !e.Reap? && !e.ForkAlloc? && !e.ForkFail? && MakingOk(s, p)
    ensures PidStep(s, p, s')
  {
  }

  lemma ReapPids(s: State, c: int, p: int, q: int, s': State)
    requires Pids(s) && RemoteNext(s, c, p, q, Reap, s') && StateOk(s.procs[p])
    ensures Pids(s')
  {
    assert PidOk(s, q);
    DistinctSnoc(s.reaped, s.procs[q].pid);
    forall x | P(s', x) ensures PidOk(s', x) { assert PidOk(s, x) && PidsApart(s, x, q); }
    forall x, y | P(s', x) && P(s', y) ensures PidsApart(s', x, y) { assert PidsApart(s, x, y); }
    forall x | x in s'.exited && x !in s'.reaped
      ensures exists y :: ZombieOf(s', y, x)
    {
      var y :| ZombieOf(s, y, x);
      assert ZombieOf(s', y, x);
    }
  }

  lemma ForkPids(s: State, c: int, p: int, q: int, e: RemoteStep, s': State)
    requires Pids(s) && RemoteNext(s, c, p, q, e, s') && (e.ForkAlloc? || e.ForkFail?) && StateOk(s.procs[p])
    requires MakingOk(s, p)
    ensures Pids(s')
  {
    assert PidOk(s, q);
    forall x | P(s', x) ensures PidOk(s', x) { assert PidOk(s, x); }
    forall x, y | P(s', x) && P(s', y) ensures PidsApart(s', x, y) {
      assert PidsApart(s, x, y) && PidOk(s, x) && PidOk(s, y);
    }
    forall x | x in s'.exited && x !in s'.reaped
      ensures exists y :: ZombieOf(s', y, x)
    {
      var y :| ZombieOf(s, y, x);
      assert ZombieOf(s', y, x);
    }
  }

  lemma NextPids(s: State, c: int, e: Event, s': State)
    requires Core(s) && P(s, s.init) && Pids(s) && Next(s, c, e, s')
    ensures Pids(s')
  {
    hide Pids, YieldNext, SleepNext, WakeNext, ExitNext, WaitNext, VisitNext, ForkNext;
    match e
    case Sched(e) =>
      assert CpuOk(s, c) && ProcOk(s, Mover(s, c, e));
      PidStepOk(s, Mover(s, c, e), s');
    case Out(p) => PidStepOk(s, p, s');
    case Local(p, l) =>
      assert ProcOk(s, p);
      if YieldNext(s, c, p, l, s') { YieldPids(s, c, p, l, s'); }
      else if SleepNext(s, c, p, l, s') { SleepPids(s, c, p, l, s'); }
      else if WakeNext(s, c, p, l, s') { WakePids(s, c, p, l, s'); }
      else if ExitNext(s, c, p, l, s') { ExitPids(s, c, p, l, s'); }
      else { WaitPids(s, c, p, l, s'); }
      PidStepOk(s, p, s');
    case Remote(p, q, r) =>
      assert ProcOk(s, p) && MakingOk(s, p);
      if r.Reap? { ReapPids(s, c, p, q, s'); }
      else if r.ForkAlloc? || r.ForkFail? { ForkPids(s, c, p, q, r, s'); }
      else { RemotePids(s, c, p, q, r, s'); PidStepOk(s, p, s'); }
    case Interrupt(i) => IrqIsOk(s, c, i, s'); PidStepOk(s, Visited(s, i), s');
  }

  // ---------------------------------------------------------------------------------
  // The invariant of every run

  ghost predicate Inv(s: State) {
    Core(s) && Family(s) && Wakeups(s) && IrqWakeups(s) && Pids(s)
  }

  lemma InvStep(s: State, c: int, e: Event, s': State)
    requires Inv(s) && Next(s, c, e, s')
    ensures Inv(s')
  {
    assert P(s, s.init);
    hide Core, Family, Wakeups, IrqWakeups, Pids, Next;
    NextCore(s, c, e, s');
    NextFamily(s, c, e, s');
    NextWakeups(s, c, e, s');
    NextIrqWakeups(s, c, e, s');
    NextPids(s, c, e, s');
  }

  lemma {:induction false} RunInv(states: seq<State>, steps: seq<(int, Event)>, i: nat)
    requires IsRun(states, steps) && i < |states|
    ensures Inv(states[i])
  {
    if i == 0 {
      InitCore(states[0]);
      InitFamily(states[0]);
      InitWakeups(states[0]);
    } else {
      RunInv(states, steps, i - 1);
      InvStep(states[i - 1], steps[i - 1].0, steps[i - 1].1, states[i]);
    }
  }

  // ---------------------------------------------------------------------------------
  // The scheduler

  /** A RUNNING process is c->proc of exactly one CPU, and no process is c->proc of two. */
  lemma OneCpuEach(states: seq<State>, steps: seq<(int, Event)>, i: nat, p: int)
    requires IsRun(states, steps) && i < |states| && P(states[i], p)
    ensures var s := states[i];
            && (forall c, d :: C(s, c) && C(s, d) && s.cpus[c].cur == p && s.cpus[d].cur == p ==> c == d)
            && (s.procs[p].st == RUNNING ==> exists c :: C(s, c) && s.cpus[c].cur == p)
  {
    RunInv(states, steps, i);
    var s := states[i];
    hide IsRun, Family, Wakeups, Pids;
    assert ProcOk(s, p);
    forall c, d | C(s, c) && C(s, d) && s.cpus[c].cur == p && s.cpus[d].cur == p
      ensures c == d
    {
      assert CpuOk(s, c) && CpuOk(s, d);
    }
    if s.procs[p].st == RUNNING {
      var c := if s.procs[p].on == -1 then s.procs[p].lock else s.procs[p].on;
      assert C(s, c) && CpuOk(s, c);
    }
  }

  /** CPU c owns p->lock and no other lock: what sched demands. */
  ghost predicate HoldsOnly(s: State, c: int, p: int) {
    && P(s, p) && s.procs[p].lock == c
    && (forall q :: P(s, q) && q != p ==> s.procs[q].lock != c)
    && (forall l :: L(s, l) ==> s.locks[l] != c)
  }

  /** CPU c is about to swtch to p or away from it. */
  ghost predicate AtSwitch(s: State, c: int, p: int)
    requires C(s, c) && P(s, p)
  {
    s.cpus[c].mode == Go(p) || (s.cpus[c].mode == InProc(p) && s.procs[p].pc.ToSched?)
  }

  /**
  Every swtch that loads or saves p's context is made by the CPU that owns p->lock; sched's
  panics cannot happen; and the context a scheduler switches to is one that was saved.
  */
  lemma ContextUnderLock(states: seq<State>, steps: seq<(int, Event)>, i: nat, c: int, p: int)
    requires IsRun(states, steps) && i < |states| && C(states[i], c)
    ensures var s := states[i];
            && (s.cpus[c].mode == InProc(p) && P(s, p) && s.procs[p].pc.ToSched? ==>
                   HoldsOnly(s, c, p) && s.procs[p].st != RUNNING)
            && (s.cpus[c].mode == Go(p) ==> HoldsOnly(s, c, p) && s.procs[p].pc.Off? && s.procs[p].on == -1)
  {
    RunInv(states, steps, i);
    var s := states[i];
    hide IsRun, Family, Wakeups, Pids;
    assert CpuOk(s, c) && IrqOk(s, c);
    if P(s, p) {
      assert ProcOk(s, p);
      forall q | P(s, q)
        ensures q != p && AtSwitch(s, c, p) ==> s.procs[q].lock != c
      {
        assert OwnerOk(s, q);
      }
      forall l | L(s, l)
        ensures AtSwitch(s, c, p) ==> s.locks[l] != c
      {
        assert CondOk(s, l);
      }
    }
  }

  // ---------------------------------------------------------------------------------
  // Sleep and wakeup

  /**
  When wakeup(chan) returns to a caller holding the condition lock lk, no process is left that
  released lk inside sleep(chan, lk) and has not been woken.
  */
  lemma NoLostWakeup(states: seq<State>, steps: seq<(int, Event)>, i: nat, w: int, p: int)
    requires IsRun(states, steps) && i < |states| && P(states[i], w) && P(states[i], p) && p != w
    requires states[i].procs[w].pc.Wake? && states[i].procs[w].pc.next == |states[i].procs|
    ensures var s, pc := states[i], states[i].procs[w].pc;
            && L(s, LockOf(pc.caller)) && s.locks[LockOf(pc.caller)] == s.procs[w].on
            && !Asleep(s, p, pc.chan, LockOf(pc.caller))
  {
    RunInv(states, steps, i);
    hide IsRun, Family, Pids;
    assert WakeOk(states[i], w, p) && HoldsOk(states[i], w, LockOf(states[i].procs[w].pc.caller));
  }

  /** The same of a wakeup made by an interrupt handler, on a CPU with or without a process. */
  lemma NoLostInterruptWakeup(states: seq<State>, steps: seq<(int, Event)>, i: nat, c: int, p: int)
    requires IsRun(states, steps) && i < |states| && C(states[i], c) && P(states[i], p)
    requires states[i].cpus[c].irq.IrqWake? && states[i].cpus[c].irq.next == |states[i].procs|
    ensures var s, irq := states[i], states[i].cpus[c].irq;
            L(s, irq.lk) && s.locks[irq.lk] == c && !Asleep(s, p, irq.chan, irq.lk)
  {
    RunInv(states, steps, i);
    hide IsRun, Family, Pids;
    assert IrqWakeOk(states[i], c, p) && IrqOk(states[i], c);
  }

  // ---------------------------------------------------------------------------------
  // Exit and wait

  /** While wait_lock is free, no process sleeps in kwait with a zombie child. */
  lemma NoMissedExit(states: seq<State>, steps: seq<(int, Event)>, i: nat, p: int, q: int)
    requires IsRun(states, steps) && i < |states| && P(states[i], p) && P(states[i], q)
    requires L(states[i], WAIT_LOCK) && states[i].locks[WAIT_LOCK] == -1
    ensures !(Waiting(states[i], p) && states[i].procs[q].parent == p && states[i].procs[q].st == ZOMBIE)
  {
    RunInv(states, steps, i);
    var s := states[i];
    hide IsRun, Family, Pids;
    assert ZombieOk(s, q);
    forall w | P(s, w)
      ensures !Rousing(s, w)
    {
      assert HoldsOk(s, w, WAIT_LOCK) && ProcOk(s, w);
    }
  }

  /** No ZOMBIE, UNUSED or half-made process is anyone's parent; only init has none of its own. */
  lemma NoDeadParent(states: seq<State>, steps: seq<(int, Event)>, i: nat, q: int)
    requires IsRun(states, steps) && i < |states| && P(states[i], q)
    ensures var s, r := states[i], states[i].procs[q];
            && (r.parent != -1 ==> P(s, r.parent) && Alive(s.procs[r.parent].st))
            && (Alive(r.st) || r.st == ZOMBIE ==> (r.parent == -1 <==> q == s.init))
  {
    RunInv(states, steps, i);
    assert KinOk(states[i], q);
  }

  /** Each exit is reaped at most once, and is reaped or still a zombie. */
  lemma ReapedOnce(states: seq<State>, steps: seq<(int, Event)>, i: nat, x: int)
    requires IsRun(states, steps) && i < |states|
    ensures var s := states[i];
            && Distinct(s.exited) && Distinct(s.reaped) && (x in s.reaped ==> x in s.exited)
            && (x in s.exited ==> (x !in s.reaped <==> exists q :: ZombieOf(s, q, x)))
  {
    RunInv(states, steps, i);
    var s := states[i];
    hide IsRun, Core, Family, Wakeups;
    if q :| ZombieOf(s, q, x) {
      assert PidOk(s, q);
    }
  }

  /** kwait frees only its caller's own child, off every CPU for good, and reports its pid. */
  lemma ReapIsOfOwnChild(states: seq<State>, steps: seq<(int, Event)>, i: nat, c: int, p: int, q: int)
    requires IsRun(states, steps) && i < |steps| && steps[i] == (c, Remote(p, q, Reap))
    ensures var s, s' := states[i], states[i + 1];
            && P(s, q) && s.procs[q].parent == p && s.procs[q].pc == Off(Never) && s.procs[q].on == -1
            && s'.reaped == s.reaped + [s.procs[q].pid] && s.procs[q].pid !in s.reaped
            && forall d :: C(s, d) ==> s.cpus[d].cur != q
  {
    RunInv(states, steps, i);
    var s := states[i];
    assert Next(s, c, Remote(p, q, Reap), states[i + 1]);
    ZombieIsOff(s, q);
    assert PidOk(s, q);
    hide IsRun, Family, Wakeups;
    forall d | C(s, d)
      ensures s.cpus[d].cur != q
    {
      assert CpuOk(s, d);
    }
  }
}
