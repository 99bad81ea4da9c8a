/**
A run that ends where log_write panics although no operation went over its reservation: three
operations log ten blocks each, and one of them calls log_write again on a block it has
already logged.  The check for a full log comes before the search for the block.
*/
module LogPanic {
  import opened Basics
  import opened LogLayout
  import opened LogProtocol
  import opened Params

  const FIRST: int := 31
  const Zero: Block := Block([])

  /** A disk with the log at block 0 and home blocks from FIRST on. */
  function Disk(header: Block): (disk: seq<Block>)
    ensures |disk| == 2 * LOGBLOCKS + 2
  {
    [header] + seq(2 * LOGBLOCKS + 1, _ => Zero)
  }

  /** The first n home blocks. */
  function Blocks(n: nat): (bs: set<int>)
    ensures forall b :: b in bs <==> FIRST <= b < FIRST + n
  {
    if n == 0 then {} else Blocks(n - 1) + {FIRST + n - 1}
  }

  function InOrder(n: nat): seq<int> {
    seq(n, i => FIRST + i)
  }

  function Pinned(n: nat): (m: map<int, Buf>)
    ensures |m| == n && m.Keys == Blocks(n)
    ensures forall b :: b in m ==> m[b] == Buf(true, Zero, 1, None, false)
  {
    if n == 0 then map[] else Pinned(n - 1)[FIRST + n - 1 := Buf(true, Zero, 1, None, false)]
  }

  /** What the operation of thread t has used once n blocks are logged, ten to a thread. */
  function UsedBy(n: nat, t: nat): nat {
    if n <= MAXOPBLOCKS * t then 0
    else if n >= MAXOPBLOCKS * (t + 1) then MAXOPBLOCKS
    else n - MAXOPBLOCKS * t
  }

  function Operations(n: nat): (threads: seq<Thread>)
    ensures |threads| == 3 && forall t :: 0 <= t < 3 ==> threads[t] == Thread(true, UsedBy(n, t), {})
  {
    seq(3, (t: nat) => Thread(true, UsedBy(n, t), {}))
  }

  /** The thread that logs block FIRST + n. */
  function Who(n: nat): (t: nat)
    requires n < LOGBLOCKS
    ensures t < 3
  {
    n / MAXOPBLOCKS
  }

  /** The first n home blocks logged and released, with the cache otherwise as given. */
  function Logged(n: nat, cache: map<int, Buf>): State {
    State(0, Disk(Block([0])), cache, InOrder(n), Blocks(n), 3, Idle, 0, Operations(n))
  }

  lemma RunSnoc(states: seq<State>, events: seq<Event>, e: Event, s: State)
    returns (states': seq<State>, events': seq<Event>)
    requires Run(states, events) && Next(states[|events|], e, s)
    ensures Run(states', events') && states'[|events'|] == s
  {
    hide Next, Init;
    states', events' := states + [s], events + [e];
    forall i | 0 <= i < |events'|
      ensures Next(states'[i], events'[i], states'[i + 1])
    {
      if i < |events| {
        assert Next(states[i], events[i], states[i + 1]);
      }
    }
  }

  lemma LogWriteNext(s: State, s': State, t: nat, b: int)
    requires LogWrite(s, s', t, b)
    ensures Next(s, Internal, s')
  {
    hide LogWrite, CacheStep, CommitStep;
  }

  lemma CacheNext(s: State, s': State, t: nat, b: int, victim: Option<int>)
    requires Brelse(s, s', t, b) || BgetRecycle(s, s', t, b, victim, Zero) || Acquire(s, s', t, b) || Load(s, s', t, b)
    ensures Next(s, Internal, s')
  {
    hide LogWrite, Brelse, BgetHit, BgetRecycle, Acquire, Load, CommitStep;
  }

  // ---------------------------------------------------------------------------------
  // Boot

  function Boot(): State {
    State(0, Disk(Zero), map[], [], {}, 0, ReadHead, 0, [IdleThread, IdleThread, IdleThread])
  }

  /** The header block as the recovering thread holds it. */
  function Header(data: Block, valid: bool, lock: Option<nat>): map<int, Buf> {
    map[0 := Buf(valid, data, 1, lock, false)]
  }

  function Recovery(data: Block, valid: bool, lock: Option<nat>, phase: Phase): State {
    State(0, Disk(Zero), Header(data, valid, lock), [], {}, 0, phase, 0,
      [IdleThread.(refs := {0}), IdleThread, IdleThread])
  }

  /** The header is cleared and the recovering thread still holds it. */
  function Cleared(): State {
    State(0, Disk(Block([0])), Header(Block([0]), true, Some(0)), [], {}, 0, Idle, 0,
          [IdleThread.(refs := {0}), IdleThread, IdleThread])
  }

  lemma BootReads()
    ensures Init(Boot())
    ensures BgetRecycle(Boot(), Recovery(Zero, false, None, ReadHead), 0, 0, None, Zero)
    ensures Acquire(Recovery(Zero, false, None, ReadHead), Recovery(Zero, false, Some(0), ReadHead), 0, 0)
    ensures Load(Recovery(Zero, false, Some(0), ReadHead), Recovery(Zero, true, Some(0), ReadHead), 0, 0)
  {
    assert Boot().threads == seq(3, _ => IdleThread);
    assert IdleThread.refs + {0} == {0};
  }

  lemma BootRecovers()
    ensures RecoverHead(Recovery(Zero, true, Some(0), ReadHead), Recovery(Zero, true, Some(0), Recovering(0)))
    ensures RecoverDone(Recovery(Zero, true, Some(0), Recovering(0)), Recovery(Zero, true, Some(0), RecoverClear))
    ensures RecoverClearHead(Recovery(Zero, true, Some(0), RecoverClear), Cleared())
  {
    assert PutHeader(Zero, []) == Block([0]);
    assert Disk(Zero)[0 := Block([0])] == Disk(Block([0]));
  }

  /** Recovery finds an empty log and clears the header. */
  lemma Booted() returns (states: seq<State>, events: seq<Event>)
    ensures Run(states, events) && states[|events|] == Cleared()
  {
    BootReads();
    BootRecovers();
    hide Init, BgetRecycle, Acquire, Load, RecoverHead, RecoverDone, RecoverClearHead, CacheStep, Recovery, Boot,
      Cleared;
    var s1, s2 := Recovery(Zero, false, None, ReadHead), Recovery(Zero, false, Some(0), ReadHead);
    var s3, s4 := Recovery(Zero, true, Some(0), ReadHead), Recovery(Zero, true, Some(0), Recovering(0));
    var s5 := Recovery(Zero, true, Some(0), RecoverClear);
    states, events := [Boot()], [];
    CacheNext(Boot(), s1, 0, 0, None);
    states, events := RunSnoc(states, events, Internal, s1);
    CacheNext(s1, s2, 0, 0, None);
    states, events := RunSnoc(states, events, Internal, s2);
    CacheNext(s2, s3, 0, 0, None);
    states, events := RunSnoc(states, events, Internal, s3);
    states, events := RunSnoc(states, events, Internal, s4);
    states, events := RunSnoc(states, events, Internal, s5);
    states, events := RunSnoc(states, events, Recovered, Cleared());
  }

  function Begun(k: nat): (threads: seq<Thread>)
    ensures |threads| == 3 && forall t :: 0 <= t < 3 ==> threads[t] == Thread(t < k, 0, {})
  {
    seq(3, (t: nat) => Thread(t < k, 0, {}))
  }

  /** k operations have begun; the header's buffer is cached and unreferenced. */
  function Between(k: nat): State {
    State(0, Disk(Block([0])), map[0 := Buf(true, Block([0]), 0, None, false)], [], {}, k, Idle, 0, Begun(k))
  }

  lemma FirstRelease()
    ensures Brelse(Cleared(), Between(0), 0, 0)
  {
    hide Disk;
    assert Cleared().threads[0].refs - {0} == {};
    assert Begun(0) == Cleared().threads[0 := Thread(false, 0, {})];
  }

  lemma BeginNext(k: nat)
    requires k < 3
    ensures BeginOp(Between(k), Between(k + 1), k)
  {
    hide Disk, Begun;
    assert Begun(k + 1) == Begun(k)[k := Thread(true, 0, {})];
  }

  /** Then three operations begin. */
  lemma Started() returns (states: seq<State>, events: seq<Event>)
    ensures Run(states, events)
    ensures states[|events|] == Logged(0, map[0 := Buf(true, Block([0]), 0, None, false)])
  {
    hide Init, Brelse, BeginOp, Cleared, Disk, Begun, Operations, InOrder;
    states, events := Booted();
    FirstRelease();
    CacheNext(Cleared(), Between(0), 0, 0, None);
    states, events := RunSnoc(states, events, Internal, Between(0));
    for k := 0 to 3
      invariant Run(states, events) && states[|events|] == Between(k)
    {
      BeginNext(k);
      states, events := RunSnoc(states, events, Begin(k), Between(k + 1));
    }
    AllBegun();
  }

  lemma AllBegun()
    ensures Logged(0, map[0 := Buf(true, Block([0]), 0, None, false)]) == Between(3)
  {
    assert Operations(0) == Begun(3);
  }

  // ---------------------------------------------------------------------------------
  // One more block

  /** The buffer of block FIRST + n while it is being read and logged. */
  function Busy(n: nat, buf: Buf): map<int, Buf> {
    Pinned(n)[FIRST + n := buf]
  }

  /** With k blocks listed, thread t has a reference to block FIRST + n. */
  function Using(k: nat, n: nat, t: nat, buf: Buf): State
    requires t < 3
  {
    var s := Logged(k, Busy(n, buf));
    s.(threads := s.threads[t := Thread(true, UsedBy(k, t), {FIRST + n})])
  }

  /** Block FIRST + n fetched but not logged. */
  function Reading(n: nat, buf: Buf): State
    requires n < LOGBLOCKS
  {
    Using(n, n, Who(n), buf)
  }

  /** Block FIRST + n logged but not yet released. */
  function Writing(n: nat): State
    requires n < LOGBLOCKS
  {
    Using(n + 1, n, Who(n), Buf(true, Zero, 2, Some(Who(n)), false))
  }

  lemma Fetch(n: nat, t: nat, cache: map<int, Buf>, victim: Option<int>)
    requires n < LOGBLOCKS && t < 3
    requires if victim == None then cache == Pinned(n)
             else n == 0 && victim == Some(0) && cache == map[0 := Buf(true, Block([0]), 0, None, false)]
    ensures BgetRecycle(Logged(n, cache), Using(n, n, t, Buf(false, Zero, 1, None, false)), t, FIRST + n, victim, Zero)
  {
    hide UsedBy, Disk, Operations, Blocks, Pinned;
    var b, s := FIRST + n, Logged(n, cache);
    assert s.threads[t].refs + {b} == {b};
    if victim.Some? {
      assert cache - {0} == map[];
      NonePinned();
    }
  }

  lemma NonePinned()
    ensures Pinned(0) == map[]
  {
  }

  lemma Fetched(n: nat, t: nat)
    requires n < LOGBLOCKS && t < 3
    ensures Acquire(Using(n, n, t, Buf(false, Zero, 1, None, false)),
                    Using(n, n, t, Buf(false, Zero, 1, Some(t), false)), t, FIRST + n)
    ensures Load(Using(n, n, t, Buf(false, Zero, 1, Some(t), false)),
                 Using(n, n, t, Buf(true, Zero, 1, Some(t), false)), t, FIRST + n)
  {
    hide UsedBy, Operations, Pinned, Blocks;
  }

  /** Logging one more block uses one more of its thread's reservation and of no other's. */
  lemma UsedMore(n: nat)
    requires n < LOGBLOCKS
    ensures UsedBy(n, Who(n)) < MAXOPBLOCKS && UsedBy(n + 1, Who(n)) == UsedBy(n, Who(n)) + 1
    ensures forall t :: 0 <= t < 3 && t != Who(n) ==> UsedBy(n + 1, t) == UsedBy(n, t)
  {
  }

  lemma LogIt(n: nat, t: nat)
    requires n < LOGBLOCKS && t == Who(n)
    ensures LogWrite(Using(n, n, t, Buf(true, Zero, 1, Some(t), false)),
                     Using(n + 1, n, t, Buf(true, Zero, 2, Some(t), false)), t, FIRST + n)
  {
    hide Operations, UsedBy, Disk, Who, Pinned, Blocks, InOrder;
    ThreadsMore(n, t);
    ListMore(n);
  }

  lemma ListMore(n: nat)
    ensures InOrder(n + 1) == InOrder(n) + [FIRST + n] && FIRST + n !in InOrder(n) && |InOrder(n)| == n
    ensures Blocks(n + 1) == Blocks(n) + {FIRST + n}
  {
  }

  lemma ThreadsMore(n: nat, t: nat)
    requires n < LOGBLOCKS && t == Who(n)
    ensures UsedBy(n, t) < MAXOPBLOCKS
    ensures var b := FIRST + n;
            Operations(n + 1)[t := Thread(true, UsedBy(n + 1, t), {b})] ==
            Operations(n)[t := Thread(true, UsedBy(n, t), {b})][t := Thread(true, UsedBy(n, t) + 1, {b})]
  {
    hide Operations, UsedBy, Who;
    UsedMore(n);
  }

  lemma Release(n: nat, t: nat)
    requires n < LOGBLOCKS && t < 3
    ensures Brelse(Using(n + 1, n, t, Buf(true, Zero, 2, Some(t), false)), Logged(n + 1, Pinned(n + 1)), t, FIRST + n)
  {
    hide Operations, UsedBy, Disk, Blocks, InOrder;
    var b, s, s' := FIRST + n, Using(n + 1, n, t, Buf(true, Zero, 2, Some(t), false)), Logged(n + 1, Pinned(n + 1));
    assert s.threads[t].refs - {b} == {};
    assert s'.threads == s.threads[t := Thread(true, UsedBy(n + 1, t), {})];
    assert s'.cache == s.cache[b := s.cache[b].(lock := None, refcnt := 1)];
  }

  /** Block FIRST + n is fetched and logged. */
  lemma OneMore(states: seq<State>, events: seq<Event>, n: nat, cache: map<int, Buf>, victim: Option<int>)
    returns (states': seq<State>, events': seq<Event>)
    requires n < LOGBLOCKS && Run(states, events) && states[|events|] == Logged(n, cache)
    requires if victim == None then cache == Pinned(n)
             else n == 0 && victim == Some(0) && cache == map[0 := Buf(true, Block([0]), 0, None, false)]
    ensures Run(states', events') && states'[|events'|] == Writing(n)
  {
    hide Next, Using, Logged, Pinned, LogWrite, Brelse, BgetRecycle, Acquire, Load, Init, Who;
    var t, b := Who(n), FIRST + n;
    var s1, s2 := Reading(n, Buf(false, Zero, 1, None, false)), Reading(n, Buf(false, Zero, 1, Some(t), false));
    var s3, s4 := Reading(n, Buf(true, Zero, 1, Some(t), false)), Writing(n);
    Fetch(n, t, cache, victim);
    CacheNext(states[|events|], s1, t, b, victim);
    states', events' := RunSnoc(states, events, Internal, s1);
    Fetched(n, t);
    CacheNext(s1, s2, t, b, None);
    states', events' := RunSnoc(states', events', Internal, s2);
    CacheNext(s2, s3, t, b, None);
    states', events' := RunSnoc(states', events', Internal, s3);
    LogIt(n, t);
    LogWriteNext(s3, s4, t, b);
    states', events' := RunSnoc(states', events', Internal, s4);
  }

  /** n blocks have been logged and released, and one more logged. */
  lemma {:induction false} Fill(n: nat) returns (states: seq<State>, events: seq<Event>)
    requires n < LOGBLOCKS
    ensures Run(states, events) && states[|events|] == Writing(n)
  {
    hide Next, Using, Logged, Pinned, LogWrite, Brelse, Init, Who;
    if n == 0 {
      states, events := Started();
      states, events := OneMore(states, events, 0, map[0 := Buf(true, Block([0]), 0, None, false)], Some(0));
    } else {
      states, events := Fill(n - 1);
      Release(n - 1, Who(n - 1));
      CacheNext(Writing(n - 1), Logged(n, Pinned(n)), Who(n - 1), FIRST + n - 1, None);
      states, events := RunSnoc(states, events, Internal, Logged(n, Pinned(n)));
      states, events := OneMore(states, events, n, Pinned(n), None);
    }
  }

  /** A thread inside its operation holds a block it has logged, and to log it again is the panic. */
  lemma PanicReached() returns (states: seq<State>, events: seq<Event>, t: nat, b: int)
    ensures Run(states, events)
    ensures var s := states[|events|];
            && t < |s.threads| && s.threads[t].inOp && HoldsValid(s, t, b) && b in s.lh && LogWritePanics(s)
            && forall u :: 0 <= u < |s.threads| ==> s.threads[u].used <= MAXOPBLOCKS
  {
    states, events := Fill(LOGBLOCKS - 1);
    t, b := 2, FIRST + LOGBLOCKS - 1;
    var s := states[|events|];
    assert s.lh[LOGBLOCKS - 1] == b;
  }
}
