/**
Group commit over the buffer cache, as a state machine whose steps are the critical
sections and the single block writes of log.c and bio.c.  Any number of threads run
begin_op / bread / modify / log_write / brelse / end_op, the last end_op commits, and a
crash may strike between any two steps, recovery included.  `Spec` and `SpecNext` are the
store this refines: there a whole transaction becomes durable at once.
*/
module LogProtocol {
  import opened Basics
  import opened LogLayout
  import opened Params

  /**
  A cached block: struct buf with its sleep-lock holder.  `dirty` records that the holder
  has changed the contents and not yet called log_write.
  */
  datatype Buf = Buf(valid: bool, data: Block, refcnt: nat, lock: Option<nat>, dirty: bool)

  /**
  A thread of the kernel: whether it is between begin_op and end_op, how many blocks its
  operation has added to the log, and the blocks it has passed to bget and not yet to brelse.
  */
  datatype Thread = Thread(inOp: bool, used: nat, refs: set<int>)

  const IdleThread := Thread(false, 0, {})

  /** Where commit() or recover_from_log() stands; `Idle` means log.committing is 0. */
  datatype Phase =
    | Idle
    | Logging(tail: nat)
    | Installing(tail: nat)
    | Clearing
    | Finished
    | ReadHead
    | Recovering(tail: nat)
    | RecoverClear

  /** `pins` records the blocks log_write has pinned and install_trans has not unpinned. */
  datatype State = State(
    start: nat,
    disk: seq<Block>,
    cache: map<int, Buf>,
    lh: seq<int>,
    pins: set<int>,
    outstanding: nat,
    phase: Phase,
    boss: nat,
    threads: seq<Thread>)

  datatype Event =
    | Internal
    | Begin(t: nat)
    | Read(t: nat, b: int, v: Block)
    | Write(t: nat, b: int, v: Block)
    | End(t: nat)
    | Commit
    | Crash
    | Recovered

  // ---------------------------------------------------------------------------------
  // Steps

  predicate Up(s: State) {
    !s.phase.ReadHead? && !s.phase.Recovering? && !s.phase.RecoverClear?
  }

  predicate Holds(s: State, t: nat, b: int) {
    b in s.cache && s.cache[b].lock == Some(t)
  }

  /** bread has returned: the lock is held and the contents have been read. */
  predicate HoldsValid(s: State, t: nat, b: int) {
    Holds(s, t, b) && s.cache[b].valid
  }

  predicate BeginOp(s: State, s': State, t: nat) {
    && t < |s.threads| && !s.threads[t].inOp
    && s.phase == Idle
    && |s.lh| + (s.outstanding + 1) * MAXOPBLOCKS <= LOGBLOCKS
    && s' == s.(outstanding := s.outstanding + 1,
                threads := s.threads[t := s.threads[t].(inOp := true, used := 0)])
  }

  /** bget finds the block cached and takes a reference; the lock comes later. */
  predicate BgetHit(s: State, s': State, t: nat, b: int) {
    && t < |s.threads| && b in s.cache && b !in s.threads[t].refs
    && s' == s.(cache := s.cache[b := s.cache[b].(refcnt := s.cache[b].refcnt + 1)],
                threads := s.threads[t := s.threads[t].(refs := s.threads[t].refs + {b})])
  }

  /**
  bget takes over an unreferenced buffer, or one that never held a block.  `junk` is what
  the buffer happens to contain until the block is read.
  */
  predicate BgetRecycle(s: State, s': State, t: nat, b: int, victim: Option<int>, junk: Block) {
    && t < |s.threads| && 0 <= b < |s.disk| && b !in s.cache && b !in s.threads[t].refs
    && (match victim
        case Some(v) => v in s.cache && s.cache[v].refcnt == 0
        case None => |s.cache| < NBUF)
    && var kept := if victim.Some? then s.cache - {victim.value} else s.cache;
    s' == s.(cache := kept[b := Buf(false, junk, 1, None, false)],
             threads := s.threads[t := s.threads[t].(refs := s.threads[t].refs + {b})])
  }

  predicate Acquire(s: State, s': State, t: nat, b: int) {
    && t < |s.threads| && b in s.threads[t].refs && b in s.cache && s.cache[b].lock == None
    && s' == s.(cache := s.cache[b := s.cache[b].(lock := Some(t))])
  }

  /** bread of a buffer that is not valid: one disk read under the buffer's lock. */
  predicate Load(s: State, s': State, t: nat, b: int) {
    && t < |s.threads| && Holds(s, t, b) && !s.cache[b].valid && 0 <= b < |s.disk|
    && s' == s.(cache := s.cache[b := s.cache[b].(valid := true, data := s.disk[b])])
  }

  predicate ReadBuf(s: State, s': State, t: nat, b: int, v: Block) {
    && t < |s.threads| && Up(s) && HoldsValid(s, t, b) && Home(s.start, |s.disk|, b)
    && v == s.cache[b].data && s' == s
  }

  /** A system call changes a buffer it has read; it owes a log_write before brelse. */
  predicate Modify(s: State, s': State, t: nat, b: int, v: Block) {
    && t < |s.threads| && s.threads[t].inOp
    && HoldsValid(s, t, b) && Home(s.start, |s.disk|, b)
    && s' == s.(cache := s.cache[b := s.cache[b].(data := v, dirty := true)])
  }

  /** The two panics of log_write. */
  predicate LogWritePanics(s: State) {
    |s.lh| >= LOGBLOCKS || s.outstanding < 1
  }

  /** A new block is pinned and listed; a listed one is absorbed. */
  ghost predicate LogWrite(s: State, s': State, t: nat, b: int) {
    && t < |s.threads| && s.threads[t].inOp
    && HoldsValid(s, t, b) && Home(s.start, |s.disk|, b)
    && !LogWritePanics(s)
    && var buf, th := s.cache[b].(dirty := false), s.threads[t];
    if Find(s.lh, b) < |s.lh| then
      s' == s.(cache := s.cache[b := buf])
    else
      && th.used < MAXOPBLOCKS
      && s' == s.(lh := s.lh + [b], pins := s.pins + {b},
                  cache := s.cache[b := buf.(refcnt := buf.refcnt + 1)],
                  threads := s.threads[t := th.(used := th.used + 1)])
  }

  predicate Brelse(s: State, s': State, t: nat, b: int) {
    && t < |s.threads| && Holds(s, t, b) && s.cache[b].refcnt > 0
    && !s.cache[b].dirty
    && s' == s.(cache := s.cache[b := s.cache[b].(lock := None, refcnt := s.cache[b].refcnt - 1)],
                threads := s.threads[t := s.threads[t].(refs := s.threads[t].refs - {b})])
  }

  /** The last operation out becomes the committer. */
  ghost predicate EndOp(s: State, s': State, t: nat) {
    && t < |s.threads| && s.threads[t].inOp
    && (forall b :: Holds(s, t, b) ==> !s.cache[b].dirty)
    && s.outstanding > 0 && s.phase == Idle
    && var left := s.outstanding - 1;
    s' == s.(outstanding := left,
             phase := if left == 0 then Logging(0) else Idle,
             boss := if left == 0 then t else s.boss,
             threads := s.threads[t := s.threads[t].(inOp := false)])
  }

  /** bwrite of buffer `b` with new contents: one atomic block write. */
  function WriteThrough(s: State, b: int, v: Block): State
    requires b in s.cache && 0 <= b < |s.disk|
  {
    s.(cache := s.cache[b := s.cache[b].(data := v)], disk := s.disk[b := v])
  }

  /** One iteration of write_log. */
  predicate WriteLog(s: State, s': State) {
    && s.phase.Logging? && s.phase.tail < |s.lh|
    && var to, from := s.start + 1 + s.phase.tail, s.lh[s.phase.tail];
    && HoldsValid(s, s.boss, to) && HoldsValid(s, s.boss, from) && to < |s.disk|
    && s' == WriteThrough(s, to, s.cache[from].data).(phase := Logging(s.phase.tail + 1))
  }

  /** write_head with the whole log written: the commit point. */
  predicate CommitHead(s: State, s': State) {
    && s.phase == Logging(|s.lh|) && 0 < |s.lh| <= LOGBLOCKS
    && HoldsValid(s, s.boss, s.start) && s.start < |s.disk|
    && s' == WriteThrough(s, s.start, PutHeader(s.cache[s.start].data, s.lh)).(phase := Installing(0))
  }

  /** One iteration of install_trans(0): write home, then unpin. */
  predicate Install(s: State, s': State) {
    && s.phase.Installing? && s.phase.tail < |s.lh|
    && var log, dst := s.start + 1 + s.phase.tail, s.lh[s.phase.tail];
    && HoldsValid(s, s.boss, log) && HoldsValid(s, s.boss, dst) && 0 <= dst < |s.disk|
    && var w := WriteThrough(s, dst, s.cache[log].data);
    && w.cache[dst].refcnt > 0
    && s' == w.(cache := w.cache[dst := w.cache[dst].(refcnt := w.cache[dst].refcnt - 1)],
                pins := w.pins - {dst}, phase := Installing(s.phase.tail + 1))
  }

  predicate InstallDone(s: State, s': State) {
    && s.phase == Installing(|s.lh|)
    && s' == s.(lh := [], phase := Clearing)
  }

  predicate ClearHead(s: State, s': State) {
    && s.phase == Clearing
    && HoldsValid(s, s.boss, s.start) && s.start < |s.disk| && s.lh == []
    && s' == WriteThrough(s, s.start, PutHeader(s.cache[s.start].data, s.lh)).(phase := Finished)
  }

  /** commit() with nothing logged does nothing. */
  predicate NothingToCommit(s: State, s': State) {
    && s.phase == Logging(0) && s.lh == []
    && s' == s.(phase := Finished)
  }

  predicate CommitDone(s: State, s': State) {
    s.phase == Finished && s' == s.(phase := Idle)
  }

  /** Power loss: only the disk survives. */
  predicate PowerLoss(s: State, s': State) {
    s' == s.(cache := map[], lh := [], pins := {}, outstanding := 0, phase := ReadHead,
             threads := seq(|s.threads|, _ => IdleThread))
  }

  predicate RecoverHead(s: State, s': State) {
    && s.phase == ReadHead && HoldsValid(s, s.boss, s.start)
    && s' == s.(lh := HeaderBlocks(s.cache[s.start].data), phase := Recovering(0))
  }

  /** One iteration of install_trans(1): nothing is pinned, so nothing is unpinned. */
  predicate RecoverInstall(s: State, s': State) {
    && s.phase.Recovering? && s.phase.tail < |s.lh|
    && var log, dst := s.start + 1 + s.phase.tail, s.lh[s.phase.tail];
    && HoldsValid(s, s.boss, log) && HoldsValid(s, s.boss, dst) && 0 <= dst < |s.disk|
    && s' == WriteThrough(s, dst, s.cache[log].data).(phase := Recovering(s.phase.tail + 1))
  }

  predicate RecoverDone(s: State, s': State) {
    && s.phase == Recovering(|s.lh|)
    && s' == s.(lh := [], phase := RecoverClear)
  }

  predicate RecoverClearHead(s: State, s': State) {
    && s.phase == RecoverClear
    && HoldsValid(s, s.boss, s.start) && s.start < |s.disk| && s.lh == []
    && s' == WriteThrough(s, s.start, PutHeader(s.cache[s.start].data, s.lh)).(phase := Idle)
  }

  /** Buffer cache steps, open to every thread in every phase. */
  ghost predicate CacheStep(s: State, s': State) {
    || (exists t, b :: BgetHit(s, s', t, b))
    || (exists t, b, victim, junk :: BgetRecycle(s, s', t, b, victim, junk))
    || (exists t, b :: Acquire(s, s', t, b))
    || (exists t, b :: Load(s, s', t, b))
    || (exists t, b :: Brelse(s, s', t, b))
  }

  /** Commit and recovery steps other than the commit point. */
  predicate CommitStep(s: State, s': State) {
    || WriteLog(s, s') || Install(s, s') || InstallDone(s, s') || ClearHead(s, s')
    || NothingToCommit(s, s') || CommitDone(s, s')
    || RecoverHead(s, s') || RecoverInstall(s, s') || RecoverDone(s, s')
  }

  ghost predicate Next(s: State, e: Event, s': State) {
    match e
    case Internal => CacheStep(s, s') || CommitStep(s, s') || (exists t, b :: LogWrite(s, s', t, b))
    case Begin(t) => BeginOp(s, s', t)
    case Read(t, b, v) => ReadBuf(s, s', t, b, v)
    case Write(t, b, v) => Modify(s, s', t, b, v)
    case End(t) => EndOp(s, s', t)
    case Commit => CommitHead(s, s')
    case Crash => PowerLoss(s, s')
    case Recovered => RecoverClearHead(s, s')
  }

  /** Boot: any disk with a header recovery can read, nothing in memory. */
  predicate Init(s: State) {
    && s.start + LOGBLOCKS < |s.disk|
    && GoodHeader(s.start, |s.disk|, s.disk[s.start])
    && s.cache == map[] && s.lh == [] && s.pins == {} && s.outstanding == 0 && s.phase == ReadHead
    && s.threads == seq(|s.threads|, _ => IdleThread)
  }

  ghost predicate Run(states: seq<State>, events: seq<Event>) {
    && |states| == |events| + 1
    && Init(states[0])
    && forall i :: 0 <= i < |events| ==> Next(states[i], events[i], states[i + 1])
  }

  // ---------------------------------------------------------------------------------
  // Specification: a store whose transactions become durable whole

  datatype Spec = Spec(durable: map<int, Block>, volatile: map<int, Block>, active: seq<bool>, up: bool)

  predicate SpecNext(a: Spec, e: Event, a': Spec) {
    match e
    case Internal => a' == a
    case Begin(t) => t < |a.active| && !a.active[t] && a' == a.(active := a.active[t := true])
    case Read(t, b, v) => a.up && b in a.volatile && v == a.volatile[b] && a' == a
    case Write(t, b, v) =>
      && t < |a.active| && a.active[t] && b in a.volatile
      && a' == a.(volatile := a.volatile[b := v])
    case End(t) => t < |a.active| && a.active[t] && a' == a.(active := a.active[t := false])
    case Commit => (forall t :: 0 <= t < |a.active| ==> !a.active[t]) && a' == a.(durable := a.volatile)
    case Crash => a' == Spec(a.durable, a.durable, seq(|a.active|, _ => false), false)
    case Recovered => a' == a.(up := true)
  }

  /** What bread returns for a block: the buffer's contents, or the disk's. */
  function Lookup(s: State, b: int): Block
    requires 0 <= b < |s.disk|
  {
    if b in s.cache && s.cache[b].valid then s.cache[b].data else s.disk[b]
  }

  function View(s: State): map<int, Block>
    requires s.start + LOGBLOCKS < |s.disk|
  {
    map b | 0 <= b < |s.disk| && Home(s.start, |s.disk|, b) :: Lookup(s, b)
  }

  ghost function Abs(s: State): Spec
    requires s.start + LOGBLOCKS < |s.disk|
  {
    var image := Image(s.start, s.disk);
    Spec(image, if Up(s) then View(s) else image,
         seq(|s.threads|, i requires 0 <= i < |s.threads| => s.threads[i].inOp), Up(s))
  }
}
