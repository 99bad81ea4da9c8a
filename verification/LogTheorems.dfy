/** What the log promises the file system, as statements about every run. */
module LogTheorems {
  import opened LogLayout
  import opened LogProtocol
  import opened LogRefinement
  import opened Params
  import opened Totals

  // ---------------------------------------------------------------------------------
  // Runs of the specification

  ghost predicate SpecRun(specs: seq<Spec>, events: seq<Event>) {
    && |specs| == |events| + 1
    && forall i :: 0 <= i < |events| ==> SpecNext(specs[i], events[i], specs[i + 1])
  }

  ghost predicate Geometry(states: seq<State>) {
    forall i :: 0 <= i < |states| ==> states[i].start + LOGBLOCKS < |states[i].disk|
  }

  /**
  Whole-run refinement.  Whatever the interleaving and wherever the crashes fall, each
  step is the specification step its event names: reads return the last write, a commit
  moves everything written so far to disk at once and only between operations, a crash
  falls back to the last commit, and recovery changes nothing.
  */
  lemma RunRefines(states: seq<State>, events: seq<Event>) returns (specs: seq<Spec>)
    requires Run(states, events)
    ensures Geometry(states) && SpecRun(specs, events)
    ensures forall i :: 0 <= i < |states| ==> specs[i] == Abs(states[i])
  {
    forall i | 0 <= i < |states|
      ensures states[i].start + LOGBLOCKS < |states[i].disk|
    {
      RunInv(states, events, i);
    }
    specs := seq(|states|, i requires 0 <= i < |states| => Abs(states[i]));
    forall i | 0 <= i < |events|
      ensures SpecNext(specs[i], events[i], specs[i + 1])
    {
      RunInv(states, events, i);
      StepRefines(states[i], events[i], states[i + 1]);
    }
  }

  predicate NoneIn(events: seq<Event>, lo: nat, hi: nat, bad: set<Event>) {
    hi <= |events| && forall i :: lo <= i < hi ==> events[i] !in bad
  }

  lemma {:induction false} DurableConstant(specs: seq<Spec>, events: seq<Event>, lo: nat, hi: nat)
    requires SpecRun(specs, events) && lo <= hi < |specs| && NoneIn(events, lo, hi, {Commit})
    ensures specs[hi].durable == specs[lo].durable
    decreases hi - lo
  {
    if lo < hi {
      DurableConstant(specs, events, lo, hi - 1);
      assert SpecNext(specs[hi - 1], events[hi - 1], specs[hi]);
    }
  }

  lemma {:induction false} StaysActive(specs: seq<Spec>, events: seq<Event>, t: nat, i: nat, k: nat)
    requires SpecRun(specs, events) && i < k < |specs|
    requires events[i] == Begin(t) && NoneIn(events, i, k, {End(t), Crash})
    ensures t < |specs[k].active| && specs[k].active[t]
    decreases k
  {
    assert SpecNext(specs[k - 1], events[k - 1], specs[k]);
    if i < k - 1 {
      StaysActive(specs, events, t, i, k - 1);
    }
  }

  predicate WritesTo(e: Event, b: int) {
    e.Write? && e.b == b
  }

  lemma {:induction false} StaysVisible(specs: seq<Spec>, events: seq<Event>, w: nat, k: nat)
    requires SpecRun(specs, events) && w < k < |specs| && events[w].Write?
    requires forall i :: w < i < k ==> !WritesTo(events[i], events[w].b) && events[i] != Crash
    ensures events[w].b in specs[k].volatile && specs[k].volatile[events[w].b] == events[w].v
    decreases k
  {
    assert SpecNext(specs[k - 1], events[k - 1], specs[k]);
    if w < k - 1 {
      StaysVisible(specs, events, w, k - 1);
    }
  }

  // ---------------------------------------------------------------------------------
  // Runs of the protocol

  /**
  Crash atomicity.  When recovery finishes at event k, however many crashes and partial
  recoveries came before, the header is clear and the home blocks hold exactly what the
  file system saw at the last commit: all of that transaction and nothing later.
  */
  lemma RecoveryRestoresCommit(states: seq<State>, events: seq<Event>, c: nat, k: nat)
    requires Run(states, events) && c < k < |events|
    requires events[c] == Commit && events[k] == Recovered && NoneIn(events, c + 1, k, {Commit})
    ensures Geometry(states)
    ensures HeaderBlocks(states[k + 1].disk[states[k + 1].start]) == []
    ensures HomeBlocks(states[k + 1].start, states[k + 1].disk) == View(states[c])
  {
    var specs := RunRefines(states, events);
    assert SpecNext(specs[c], Commit, specs[c + 1]);
    assert SpecNext(specs[k], Recovered, specs[k + 1]);
    DurableConstant(specs, events, c + 1, k);
    CommitPointIsUp(states, events, c);
    RecoveryClears(states, events, k);
  }

  /** With no commit at all, recovery gives back the image the run started from. */
  lemma RecoveryWithoutCommit(states: seq<State>, events: seq<Event>, k: nat)
    requires Run(states, events) && k < |events| && events[k] == Recovered && NoneIn(events, 0, k, {Commit})
    ensures Geometry(states)
    ensures HeaderBlocks(states[k + 1].disk[states[k + 1].start]) == []
    ensures HomeBlocks(states[k + 1].start, states[k + 1].disk) == Image(states[0].start, states[0].disk)
  {
    var specs := RunRefines(states, events);
    assert SpecNext(specs[k], Recovered, specs[k + 1]);
    DurableConstant(specs, events, 0, k);
    RecoveryClears(states, events, k);
  }

  lemma CommitPointIsUp(states: seq<State>, events: seq<Event>, c: nat)
    requires Run(states, events) && c < |events| && events[c] == Commit
    ensures Up(states[c])
  {
    assert Next(states[c], events[c], states[c + 1]);
  }

  lemma RecoveryClears(states: seq<State>, events: seq<Event>, k: nat)
    requires Run(states, events) && k < |events| && events[k] == Recovered && Geometry(states)
    ensures HeaderBlocks(states[k + 1].disk[states[k + 1].start]) == []
    ensures HomeBlocks(states[k + 1].start, states[k + 1].disk) == Image(states[k + 1].start, states[k + 1].disk)
  {
    assert Next(states[k], events[k], states[k + 1]);
    EmptyHeader(states[k + 1].start, states[k + 1].disk);
  }

  /** Group commit: no commit falls between the begin and the end of an operation. */
  lemma CommitsSplitNoOperation(states: seq<State>, events: seq<Event>, t: nat, i: nat, c: nat)
    requires Run(states, events) && i < c < |events|
    requires events[i] == Begin(t) && NoneIn(events, i, c, {End(t), Crash})
    ensures events[c] != Commit
  {
    var specs := RunRefines(states, events);
    StaysActive(specs, events, t, i, c);
    assert SpecNext(specs[c], events[c], specs[c + 1]);
  }

  /** bread returns the last contents written, however often the buffer was recycled. */
  lemma ReadsSeeLastWrite(states: seq<State>, events: seq<Event>, w: nat, k: nat)
    requires Run(states, events) && w < k < |events| && events[w].Write? && events[k].Read?
    requires events[k].b == events[w].b
    requires forall i :: w < i < k ==> !WritesTo(events[i], events[w].b) && events[i] != Crash
    ensures events[k].v == events[w].v
  {
    var specs := RunRefines(states, events);
    StaysVisible(specs, events, w, k);
    assert SpecNext(specs[k], events[k], specs[k + 1]);
  }

  /** Only install_trans writes home blocks. */
  lemma OnlyInstallWritesHome(s: State, e: Event, s': State, b: int)
    requires |s.lh| <= LOGBLOCKS && Next(s, e, s') && Home(s.start, |s.disk|, b)
    ensures |s'.disk| == |s.disk|
    ensures s'.disk[b] != s.disk[b] ==> Install(s, s') || RecoverInstall(s, s')
  {
  }

  lemma HomeWritesAreLogged(s: State, s': State, b: int)
    requires Inv(s) && (Install(s, s') || RecoverInstall(s, s')) && Home(s.start, |s.disk|, b)
    ensures |s'.disk| == |s.disk|
    ensures s'.disk[b] != s.disk[b] ==>
              b in HeaderBlocks(s.disk[s.start]) && s'.disk[b] == RecoveredBlock(s.start, s.disk, b)
  {
    hide LogArea, Coherent, Counted, Locked, Reserved, PinsListed, Listed;
    HeaderIsListed(s);
    LogBufClean(s, s.start + 1 + s.phase.tail);
    FindAt(s.start, |s.disk|, s.lh, s.phase.tail);
  }

  /**
  Write-ahead: a home block on disk changes only when the on-disk header already lists it,
  and then it becomes the logged copy.
  */
  lemma WriteAhead(states: seq<State>, events: seq<Event>, k: nat, b: int)
    requires Run(states, events) && k < |events|
    requires Home(states[k].start, |states[k].disk|, b)
    ensures states[k].start + LOGBLOCKS < |states[k].disk| == |states[k + 1].disk|
    ensures states[k + 1].disk[b] != states[k].disk[b] ==>
              var s := states[k];
              && b in HeaderBlocks(s.disk[s.start])
              && states[k + 1].disk[b] == RecoveredBlock(s.start, s.disk, b)
  {
    RunInv(states, events, k);
    OnlyInstallWritesHome(states[k], events[k], states[k + 1], b);
    if states[k + 1].disk[b] != states[k].disk[b] {
      HomeWritesAreLogged(states[k], states[k + 1], b);
    }
  }

  /** Once the committer is done, everything the file system shows is on disk. */
  lemma FinishedIsDurable(states: seq<State>, events: seq<Event>, k: nat)
    requires Run(states, events) && k < |states| && states[k].phase == Finished
    ensures states[k].start + LOGBLOCKS < |states[k].disk|
    ensures View(states[k]) == Image(states[k].start, states[k].disk)
  {
    var s := states[k];
    RunInv(states, events, k);
    NoPinsLeft(s);
    CleanView(s);
    EmptyHeader(s.start, s.disk);
  }

  /** While the log commits or recovers nobody is inside an operation: end_op cannot panic. */
  lemma OneCommitter(states: seq<State>, events: seq<Event>, k: nat)
    requires Run(states, events) && k < |states| && states[k].phase != Idle
    ensures states[k].outstanding == 0
    ensures forall t :: 0 <= t < |states[k].threads| ==> !states[k].threads[t].inOp
  {
    RunInv(states, events, k);
    NobodyInOp(states[k]);
  }

  /**
  When log_write panics inside an operation: exactly when the log is full, and then every
  operation in progress has used up its whole reservation.
  */
  lemma PanicMeansReservationsSpent(states: seq<State>, events: seq<Event>, k: nat, t: nat)
    requires Run(states, events) && k < |states| && t < |states[k].threads| && states[k].threads[t].inOp
    ensures LogWritePanics(states[k]) <==> |states[k].lh| == LOGBLOCKS
    ensures LogWritePanics(states[k]) ==>
              forall i :: 0 <= i < |states[k].threads| && states[k].threads[i].inOp ==>
                states[k].threads[i].used == MAXOPBLOCKS
  {
    var s := states[k];
    RunInv(states, events, k);
    InOpIdle(s, t);
    TotalZero(UnusedVec(s.threads));
    if Total(UnusedVec(s.threads)) == 0 {
      forall i | 0 <= i < |s.threads| && s.threads[i].inOp
        ensures s.threads[i].used == MAXOPBLOCKS
      {
        assert UnusedVec(s.threads)[i] == 0;
      }
    }
  }

  /**
  The log never holds more than LOGBLOCKS blocks and unused reservations together, so an
  operation with some of its reservation left never meets log_write's panic.
  */
  lemma ReservationsFit(states: seq<State>, events: seq<Event>, k: nat, t: nat)
    requires Run(states, events) && k < |states| && t < |states[k].threads|
    ensures |states[k].lh| + Total(UnusedVec(states[k].threads)) <= LOGBLOCKS
    ensures states[k].threads[t].inOp && states[k].threads[t].used < MAXOPBLOCKS ==> !LogWritePanics(states[k])
  {
    RunInv(states, events, k);
    if states[k].threads[t].inOp {
      PanicMeansReservationsSpent(states, events, k, t);
    }
  }
}
