/** Parents and children: what fork, exit, wait and reparent keep. */
module ProcFamily {
  import opened ProcModel
  import opened ProcLocks

  ghost predicate Alive(st: PState) {
    st == SLEEPING || st == RUNNABLE || st == RUNNING
  }

  /** The process has called kexit. */
  ghost predicate Exiting(pc: Pc) {
    match pc
    case YieldSet(back) => Exiting(back)
    case ToSched(res) => res.Never? || (res.Yielded? && Exiting(res.back))
    case Off(res) => res.Never? || (res.Yielded? && Exiting(res.back))
    case Resumed(res) => res.Never? || (res.Yielded? && Exiting(res.back))
    case Wake(_, _, k) => !k.FromHold?
    case _ => pc.Exit0? || pc.Reparent? || pc.Exit1? || pc.Exit2? || pc.Exit3?
  }

  /** How far reparent has got: no process below this index is still a child. */
  ghost function Cleared(pc: Pc, n: nat): int {
    match pc
    case Reparent(next) => next
    case Wake(_, _, k) => if k.FromReparent? then k.next else if k.FromExit? then n else 0
    case ToSched(res) => if res.Never? then n else 0
    case Off(res) => if res.Never? then n else 0
    case _ => if pc.Exit1? || pc.Exit2? || pc.Exit3? then n else 0
  }

  ghost predicate KinOk(s: State, q: int)
    requires P(s, q)
  {
    ParentOk(s, q) && MadeOk(s, q) && (q == s.init ==> !Exiting(s.procs[q].pc))
  }

  /** Parents are alive; every process that has lived has one, except init. */
  ghost predicate ParentOk(s: State, q: int)
    requires P(s, q)
  {
    var r := s.procs[q];
    && (r.parent == -1 || (P(s, r.parent) && Alive(s.procs[r.parent].st)))
    && (r.st == UNUSED ==> r.parent == -1)
    && (if q == s.init then Alive(r.st) && r.parent == -1 else Alive(r.st) || r.st == ZOMBIE ==> r.parent != -1)
  }

  /** The process kfork is making is its child as soon as np->parent is set. */
  ghost predicate MadeOk(s: State, p: int)
    requires P(s, p)
  {
    var q := Making(s.procs[p].pc);
    q != -1 && P(s, q) ==> s.procs[q].parent == if ParentSet(s.procs[p].pc) then p else -1
  }

  ghost predicate ClearedOk(s: State, p: int, j: int)
    requires P(s, p)
  {
    P(s, j) && j < Cleared(s.procs[p].pc, |s.procs|) ==> s.procs[j].parent != p
  }

  ghost predicate Family(s: State) {
    && P(s, s.init)
    && (forall q {:trigger KinOk(s, q)} :: P(s, q) ==> KinOk(s, q))
    && (forall p, j {:trigger ClearedOk(s, p, j)} :: P(s, p) ==> ClearedOk(s, p, j))
  }

  // ---------------------------------------------------------------------------------
  // Steps of one process

  ghost predicate KinStep(s: State, p: int, s': State) {
    && P(s, p) && |s'.procs| == |s.procs| && s'.init == s.init && s'.procs == s.procs[p := s'.procs[p]]
    && var r, r' := s.procs[p], s'.procs[p];
    && r'.parent == r.parent
    && (Exiting(r'.pc) ==> Exiting(r.pc) || p != s.init)
    && (r'.st == UNUSED <==> r.st == UNUSED) && (r'.st == USED <==> r.st == USED)
    && (r.st == ZOMBIE ==> r'.st == ZOMBIE)
    && (r'.st == ZOMBIE ==> r.st == ZOMBIE || (Cleared(r.pc, |s.procs|) == |s.procs| && Exiting(r.pc)))
    && (forall j :: P(s, j) && j < Cleared(r'.pc, |s.procs|) ==> j < Cleared(r.pc, |s.procs|) || s.procs[j].parent != p)
  }

  ghost predicate SameMaking(pc: Pc, pc': Pc) {
    Making(pc') == Making(pc) && ParentSet(pc') == ParentSet(pc)
  }

  lemma KinStepOk(s: State, p: int, s': State)
    requires Family(s) && KinStep(s, p, s') && SameMaking(s.procs[p].pc, s'.procs[p].pc)
    ensures Family(s')
  {
    assert KinOk(s, p);
    forall q | P(s', q) ensures KinOk(s', q) {
      assert KinOk(s, q) && ClearedOk(s, p, q);
    }
    forall x, j | P(s', x) ensures ClearedOk(s', x, j) {
      assert ClearedOk(s, x, j);
    }
  }

  lemma YieldKin(s: State, c: int, p: int, e: LocalStep, s': State)
    requires Here(s, c, p) && YieldNext(s, c, p, e, s') && StateOk(s.procs[p]) && ArgsOk(p, s.procs[p].pc)
    ensures KinStep(s, p, s')
  {
  }

  lemma SleepKin(s: State, c: int, p: int, e: LocalStep, s': State)
    requires Here(s, c, p) && SleepNext(s, c, p, e, s') && StateOk(s.procs[p])
    ensures KinStep(s, p, s')
  {
  }

  lemma WakeKin(s: State, c: int, p: int, e: LocalStep, s': State)
    requires Here(s, c, p) && WakeNext(s, c, p, e, s') && StateOk(s.procs[p])
    ensures KinStep(s, p, s')
  {
  }

  lemma ExitKin(s: State, c: int, p: int, e: LocalStep, s': State)
    requires Here(s, c, p) && ExitNext(s, c, p, e, s') && StateOk(s.procs[p])
    ensures KinStep(s, p, s')
  {
  }

  lemma WaitKin(s: State, c: int, p: int, e: LocalStep, s': State)
    requires Here(s, c, p) && WaitNext(s, c, p, e, s') && StateOk(s.procs[p])
    ensures KinStep(s, p, s')
  {
  }

  lemma LocalKin(s: State, c: int, p: int, e: LocalStep, s': State)
    requires Core(s) && LocalNext(s, c, p, e, s')
    ensures KinStep(s, p, s') && SameMaking(s.procs[p].pc, s'.procs[p].pc)
  {
    OwnerIs(s, c, p);
    LocalRecord(s, c, p, e, s');
    hide Core, YieldNext, SleepNext, WakeNext, ExitNext, WaitNext, ProcOk, KinStep;
    if YieldNext(s, c, p, e, s') {
      YieldKin(s, c, p, e, s');
    } else if SleepNext(s, c, p, e, s') {
      SleepKin(s, c, p, e, s');
    } else if WakeNext(s, c, p, e, s') {
      WakeKin(s, c, p, e, s');
    } else if ExitNext(s, c, p, e, s') {
      ExitKin(s, c, p, e, s');
    } else {
      WaitKin(s, c, p, e, s');
    }
  }

  lemma SchedKin(s: State, c: int, e: SchedStep, s': State)
    requires SchedNext(s, c, e, s') && CpuOk(s, c)
    ensures var p := Mover(s, c, e); KinStep(s, p, s') && SameMaking(s.procs[p].pc, s'.procs[p].pc)
  {
  }

  lemma OutKin(s: State, c: int, p: int, s': State)
    requires SwitchOut(s, c, p, s') && ProcOk(s, p)
    ensures KinStep(s, p, s') && SameMaking(s.procs[p].pc, s'.procs[p].pc)
  {
  }

  lemma IrqKin(s: State, c: int, q: int, s': State)
    requires Core(s) && Handled(s, c, q, s')
    ensures KinStep(s, q, s') && SameMaking(s.procs[q].pc, s'.procs[q].pc)
  {
    assert ProcOk(s, q);
  }

  // ---------------------------------------------------------------------------------
  // Steps that change another process

  /** A zombie whose lock is free has switched away for good. */
  lemma ZombieIsOff(s: State, q: int)
    requires Core(s) && P(s, q) && s.procs[q].st == ZOMBIE && s.procs[q].lock == -1
    ensures s.procs[q].pc == Off(Never) && s.procs[q].on == -1
  {
    assert ProcOk(s, q);
  }

  /** What a step of p does to the kinship of q. */
  ghost predicate RemoteKin(s: State, p: int, q: int, s': State) {
    && P(s, p) && P(s, q) && p != q && |s'.procs| == |s.procs| && s'.init == s.init
    && var r, r', o, o' := s.procs[p], s'.procs[p], s.procs[q], s'.procs[q];
    && s'.procs == s.procs[p := r'][q := o'] && r'.parent == r.parent && r'.st == r.st
    && Exiting(r'.pc) == Exiting(r.pc)
    && (Making(r'.pc) == -1 || (Making(r'.pc) == q && o'.parent == if ParentSet(r'.pc) then p else -1))
    && (Making(o'.pc) == -1 || o'.pc == o.pc) && (Exiting(o'.pc) ==> Exiting(o.pc))
    && (Alive(o.st) ==> Alive(o'.st)) && (o'.st == UNUSED ==> o'.parent == -1)
    && (q != s.init && (Alive(o'.st) || o'.st == ZOMBIE) ==> o'.parent != -1)
    && (o'.parent == o.parent || (o'.parent == -1 && q != s.init) || (o'.parent == s.init && o.parent == p)
           || (o'.parent == p && o.maker == p && o.st == USED))
    && (o'.parent != o.parent && o.st == USED ==> o.parent == p || o.maker == p)
  }

  lemma KinAfter(s: State, p: int, q: int, s': State, x: int)
    requires RemoteKin(s, p, q, s') && P(s, x) && KinOk(s, x) && KinOk(s, q) && MakingOk(s, x) && P(s, s.init)
    requires KinOk(s, s.init)
    requires Alive(s.procs[p].st)
    ensures KinOk(s', x)
  {
  }

  lemma VisitKin(s: State, c: int, p: int, q: int, e: RemoteStep, s': State)
    requires Two(s, c, p, q) && VisitNext(s, c, p, q, e, s')
    requires StateOk(s.procs[p]) && StateOk(s.procs[q]) && MakingOk(s, p) && ParentOk(s, q) && MadeOk(s, p)
    requires P(s, s.init)
    ensures RemoteKin(s, p, q, s')
  {
  }

  lemma VisitCleared(s: State, c: int, p: int, q: int, e: RemoteStep, s': State, x: int, j: int)
    requires Two(s, c, p, q) && VisitNext(s, c, p, q, e, s') && P(s, x) && |s'.procs| == |s.procs|
    requires StateOk(s.procs[q]) && StateOk(s.procs[x]) && KinOk(s, q) && ClearedOk(s, x, j) && P(s, s.init)
    requires KinOk(s, s.init)
    ensures ClearedOk(s', x, j)
  {
  }

  lemma ForkKin(s: State, c: int, p: int, q: int, e: RemoteStep, s': State)
    requires Two(s, c, p, q) && ForkNext(s, c, p, q, e, s')
    requires StateOk(s.procs[p]) && StateOk(s.procs[q]) && MakingOk(s, p) && ParentOk(s, q) && MadeOk(s, p)
    requires P(s, s.init)
    ensures RemoteKin(s, p, q, s')
  {
  }

  lemma ForkCleared(s: State, c: int, p: int, q: int, e: RemoteStep, s': State, x: int, j: int)
    requires Two(s, c, p, q) && ForkNext(s, c, p, q, e, s') && P(s, x) && |s'.procs| == |s.procs|
    requires StateOk(s.procs[q]) && StateOk(s.procs[x]) && KinOk(s, q) && ClearedOk(s, x, j) && P(s, s.init)
    requires KinOk(s, s.init)
    ensures ClearedOk(s', x, j)
  {
  }

  lemma RemoteFamily(s: State, c: int, p: int, q: int, e: RemoteStep, s': State)
    requires Core(s) && Family(s) && RemoteNext(s, c, p, q, e, s')
    ensures Family(s')
  {
    OwnerIs(s, c, p);
    assert ProcOk(s, q) && KinOk(s, p) && KinOk(s, q) && KinOk(s, s.init);
    if VisitNext(s, c, p, q, e, s') { VisitKin(s, c, p, q, e, s'); } else { ForkKin(s, c, p, q, e, s'); }
    forall x | P(s', x) ensures KinOk(s', x) {
      assert MakingOk(s, x) && KinOk(s, x);
      KinAfter(s, p, q, s', x);
    }
    forall x, j | P(s', x) ensures ClearedOk(s', x, j) {
      assert ProcOk(s, x) && ClearedOk(s, x, j);
      if VisitNext(s, c, p, q, e, s') {
        VisitCleared(s, c, p, q, e, s', x, j);
      } else {
        ForkCleared(s, c, p, q, e, s', x, j);
      }
    }
  }

  lemma NextFamily(s: State, c: int, e: Event, s': State)
    requires Core(s) && Family(s) && Next(s, c, e, s')
    ensures Family(s')
  {
    match e
    case Sched(e) => assert CpuOk(s, c); SchedKin(s, c, e, s'); KinStepOk(s, Mover(s, c, e), s');
    case Out(p) => assert ProcOk(s, p); OutKin(s, c, p, s'); KinStepOk(s, p, s');
    case Local(p, l) => LocalKin(s, c, p, l, s'); KinStepOk(s, p, s');
    case Remote(p, q, r) => RemoteFamily(s, c, p, q, r, s');
    case Interrupt(i) =>
      IrqIsOk(s, c, i, s');
      IrqKin(s, c, Visited(s, i), s');
      KinStepOk(s, Visited(s, i), s');
  }

  lemma InitFamily(s: State)
    requires Init(s)
    ensures Family(s)
  {
  }
}
