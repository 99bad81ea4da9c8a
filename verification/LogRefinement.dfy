/**
Why every run of the log protocol is a run of its specification: an invariant over all
reachable states, and for each step a lemma that it keeps the invariant and is the
specification step its event names.
*/
module LogRefinement {
  import opened Basics
  import opened LogLayout
  import opened LogProtocol
  import opened Params
  import opened Totals

  // ---------------------------------------------------------------------------------
  // Invariant

  /** The first listed block that still holds its pin. */
  function FirstPinned(s: State): nat {
    match s.phase
    case Idle => 0
    case Logging(_) => 0
    case Installing(tail) => tail
    case _ => |s.lh|
  }

  /** Exactly the listed blocks from there on are pinned. */
  ghost predicate PinsListed(s: State) {
    && (forall i :: FirstPinned(s) <= i < |s.lh| ==> s.lh[i] in s.pins)
    && (forall b :: b in s.pins ==> exists i :: FirstPinned(s) <= i < |s.lh| && s.lh[i] == b)
  }

  function Pin(s: State, b: int): nat {
    if b in s.pins then 1 else 0
  }

  function RefVec(threads: seq<Thread>, b: int): seq<nat> {
    seq(|threads|, i requires 0 <= i < |threads| => if b in threads[i].refs then 1 else 0)
  }

  function OpVec(threads: seq<Thread>): seq<nat> {
    seq(|threads|, i requires 0 <= i < |threads| => if threads[i].inOp then 1 else 0)
  }

  /** What is left of one operation's reservation. */
  function Unused(th: Thread): nat {
    if th.inOp && th.used <= MAXOPBLOCKS then MAXOPBLOCKS - th.used else 0
  }

  function UnusedVec(threads: seq<Thread>): seq<nat> {
    seq(|threads|, i requires 0 <= i < |threads| => Unused(threads[i]))
  }

  /** A valid buffer differs from the disk only while it is pinned or being changed. */
  predicate Coherent(s: State) {
    && (forall b :: b in s.cache ==> 0 <= b < |s.disk|)
    && (forall b :: b in s.cache && s.cache[b].valid ==>
          s.cache[b].data == s.disk[b] || b in s.pins || s.cache[b].dirty)
    && (forall b :: b in s.pins ==> b in s.cache && s.cache[b].valid)
  }

  /** refcnt counts the log's pin and every thread between bget and brelse. */
  ghost predicate Counted(s: State) {
    && (forall b :: b in s.cache ==> s.cache[b].refcnt == Pin(s, b) + Total(RefVec(s.threads, b)))
    && (forall i, b :: 0 <= i < |s.threads| && b in s.threads[i].refs ==> b in s.cache)
  }

  predicate Locked(s: State) {
    forall b :: b in s.cache ==>
      var buf := s.cache[b];
      && (buf.lock.Some? ==> buf.lock.value < |s.threads| && b in s.threads[buf.lock.value].refs)
      && (buf.dirty ==>
            && buf.lock.Some? && buf.valid && Home(s.start, |s.disk|, b)
            && s.threads[buf.lock.value].inOp)
  }

  /** Nobody is inside an operation while the log commits, and the reservations fit. */
  predicate Reserved(s: State) {
    && s.outstanding == Total(OpVec(s.threads))
    && (s.phase != Idle ==> s.outstanding == 0)
    && (forall i :: 0 <= i < |s.threads| ==> s.threads[i].used <= MAXOPBLOCKS)
    && |s.lh| + Total(UnusedVec(s.threads)) <= LOGBLOCKS
  }

  /** What the file system sees in each listed block. */
  function Listed(s: State): seq<Block>
    requires forall i :: 0 <= i < |s.lh| ==> 0 <= s.lh[i] < |s.disk|
  {
    seq(|s.lh|, i requires 0 <= i < |s.lh| => Lookup(s, s.lh[i]))
  }

  /** The log area at each phase: which list the header holds and which copies are done. */
  predicate LogArea(start: nat, disk: seq<Block>, lh: seq<int>, phase: Phase, contents: seq<Block>)
    requires start + LOGBLOCKS < |disk| && GoodList(start, |disk|, lh) && |contents| == |lh|
  {
    && GoodHeader(start, |disk|, disk[start])
    && var listed := HeaderBlocks(disk[start]);
    match phase
    case Idle => listed == []
    case Logging(tail) =>
      && listed == [] && tail <= |lh|
      && forall i :: 0 <= i < tail ==> disk[start + 1 + i] == contents[i]
    case Installing(tail) =>
      && listed == lh && tail <= |lh| && Installed(start, disk, lh, tail)
      && forall i :: 0 <= i < |lh| ==> disk[start + 1 + i] == contents[i]
    case Clearing => lh == [] && Installed(start, disk, listed, |listed|)
    case Finished => lh == [] && listed == []
    case ReadHead => lh == []
    case Recovering(tail) => listed == lh && tail <= |lh| && Installed(start, disk, lh, tail)
    case RecoverClear => lh == [] && Installed(start, disk, listed, |listed|)
  }

  ghost predicate Inv(s: State) {
    && s.start + LOGBLOCKS < |s.disk|
    && GoodList(s.start, |s.disk|, s.lh)
    && PinsListed(s) && Coherent(s) && Counted(s) && Locked(s) && Reserved(s)
    && LogArea(s.start, s.disk, s.lh, s.phase, Listed(s))
  }

  // ---------------------------------------------------------------------------------
  // Counting lemmas

  lemma RefUpdate(threads: seq<Thread>, t: nat, th: Thread, b: int)
    requires t < |threads|
    ensures Total(RefVec(threads[t := th], b)) + (if b in threads[t].refs then 1 else 0)
         == Total(RefVec(threads, b)) + (if b in th.refs then 1 else 0)
  {
    var v := if b in th.refs then 1 else 0;
    assert RefVec(threads[t := th], b) == RefVec(threads, b)[t := v];
    TotalUpdate(RefVec(threads, b), t, v);
  }

  /** Changing only t's references to b leaves every other block's count alone. */
  lemma RefFrame(threads: seq<Thread>, t: nat, th: Thread, b: int)
    requires t < |threads| && threads[t].refs - {b} == th.refs - {b}
    ensures forall c :: c != b ==> Total(RefVec(threads[t := th], c)) == Total(RefVec(threads, c))
  {
    forall c | c != b
      ensures Total(RefVec(threads[t := th], c)) == Total(RefVec(threads, c))
    {
      assert c in threads[t].refs <==> c in threads[t].refs - {b};
      assert c in th.refs <==> c in th.refs - {b};
      RefUpdate(threads, t, th, c);
    }
  }

  lemma RefPositive(threads: seq<Thread>, t: nat, b: int)
    requires t < |threads| && b in threads[t].refs
    ensures Total(RefVec(threads, b)) >= 1
  {
    TotalZero(RefVec(threads, b));
    assert RefVec(threads, b)[t] == 1;
  }

  lemma OpUpdate(threads: seq<Thread>, t: nat, th: Thread)
    requires t < |threads|
    ensures Total(OpVec(threads[t := th])) + (if threads[t].inOp then 1 else 0)
         == Total(OpVec(threads)) + (if th.inOp then 1 else 0)
    ensures Total(UnusedVec(threads[t := th])) + Unused(threads[t]) == Total(UnusedVec(threads)) + Unused(th)
  {
    var v := if th.inOp then 1 else 0;
    assert OpVec(threads[t := th]) == OpVec(threads)[t := v];
    TotalUpdate(OpVec(threads), t, v);
    assert UnusedVec(threads[t := th]) == UnusedVec(threads)[t := Unused(th)];
    TotalUpdate(UnusedVec(threads), t, Unused(th));
  }

  /** Somebody in an operation means outstanding is positive, so the log is idle. */
  lemma InOpIdle(s: State, t: nat)
    requires Inv(s) && t < |s.threads| && s.threads[t].inOp
    ensures s.outstanding >= 1 && s.phase == Idle
  {
    TotalZero(OpVec(s.threads));
    assert OpVec(s.threads)[t] == 1;
  }

  lemma NobodyInOp(s: State)
    requires Reserved(s) && s.outstanding == 0
    ensures forall i :: 0 <= i < |s.threads| ==> !s.threads[i].inOp
    ensures Total(UnusedVec(s.threads)) == 0
  {
    TotalZero(OpVec(s.threads));
    forall i | 0 <= i < |s.threads|
      ensures !s.threads[i].inOp
    {
      assert OpVec(s.threads)[i] == 0;
    }
    TotalZero(UnusedVec(s.threads));
  }

  /** An unreferenced buffer is nobody's and is clean. */
  lemma UnreferencedIsClean(s: State, b: int)
    requires Inv(s) && b in s.cache && s.cache[b].refcnt == 0
    ensures b !in s.pins && s.cache[b].lock == None && !s.cache[b].dirty
    ensures forall i :: 0 <= i < |s.threads| ==> b !in s.threads[i].refs
    ensures s.cache[b].valid ==> s.cache[b].data == s.disk[b]
  {
    forall i | 0 <= i < |s.threads|
      ensures b !in s.threads[i].refs
    {
      if b in s.threads[i].refs {
        RefPositive(s.threads, i, b);
      }
    }
  }

  // ---------------------------------------------------------------------------------
  // Steps of the buffer cache

  /** Nothing but buffers and references changed, and every block still reads the same. */
  ghost predicate SameStore(s: State, s': State) {
    && s' == s.(cache := s'.cache, threads := s'.threads)
    && SameOps(s.threads, s'.threads)
    && (forall b :: b in s.pins ==>
          b in s.cache && b in s'.cache && s'.cache[b].valid && s'.cache[b].data == s.cache[b].data)
    && (forall b :: 0 <= b < |s.disk| ==> Lookup(s', b) == Lookup(s, b))
  }

  predicate SameOps(threads: seq<Thread>, threads': seq<Thread>) {
    && |threads'| == |threads|
    && (forall i :: 0 <= i < |threads| ==>
          threads'[i].inOp == threads[i].inOp && threads'[i].used == threads[i].used)
  }

  lemma SameOpsTotals(threads: seq<Thread>, threads': seq<Thread>)
    requires SameOps(threads, threads')
    ensures Total(OpVec(threads')) == Total(OpVec(threads))
    ensures Total(UnusedVec(threads')) == Total(UnusedVec(threads))
  {
    assert OpVec(threads') == OpVec(threads);
    assert UnusedVec(threads') == UnusedVec(threads);
  }

  lemma SameView(s: State, s': State)
    requires s.start + LOGBLOCKS < |s.disk| && SameStore(s, s')
    ensures Abs(s') == Abs(s)
  {
    assert View(s') == View(s);
    assert Abs(s').active == Abs(s).active;
  }

  lemma SameStoreOk(s: State, s': State)
    requires Inv(s) && SameStore(s, s')
    ensures Reserved(s') && Listed(s') == Listed(s) && Abs(s') == Abs(s)
  {
    SameOpsTotals(s.threads, s'.threads);
    SameView(s, s');
  }

  lemma CountedHit(s: State, s': State, t: nat, b: int)
    requires Counted(s) && BgetHit(s, s', t, b)
    ensures Counted(s')
  {
    RefFrame(s.threads, t, s'.threads[t], b);
    RefUpdate(s.threads, t, s'.threads[t], b);
  }

  lemma CountedBrelse(s: State, s': State, t: nat, b: int)
    requires Counted(s) && Locked(s) && Brelse(s, s', t, b)
    ensures Counted(s')
  {
    RefFrame(s.threads, t, s'.threads[t], b);
    RefUpdate(s.threads, t, s'.threads[t], b);
  }

  lemma BgetHitStore(s: State, s': State, t: nat, b: int)
    requires Coherent(s) && Locked(s) && BgetHit(s, s', t, b)
    ensures SameStore(s, s') && Coherent(s') && Locked(s')
  {
  }

  lemma BgetHitOk(s: State, s': State, t: nat, b: int)
    requires Inv(s) && BgetHit(s, s', t, b)
    ensures Inv(s') && SpecNext(Abs(s), Internal, Abs(s'))
  {
    BgetHitStore(s, s', t, b);
    SameStoreOk(s, s');
    CountedHit(s, s', t, b);
  }

  lemma CountedRecycle(s: State, s': State, t: nat, b: int, victim: Option<int>, junk: Block)
    requires Counted(s) && BgetRecycle(s, s', t, b, victim, junk)
    requires forall c :: c in s.pins ==> c in s.cache
    requires victim.Some? ==> forall i :: 0 <= i < |s.threads| ==> victim.value !in s.threads[i].refs
    ensures Counted(s')
  {
    RefFrame(s.threads, t, s'.threads[t], b);
    RefUpdate(s.threads, t, s'.threads[t], b);
    TotalZero(RefVec(s.threads, b));
    assert s'.pins == s.pins && Pin(s, b) == 0;
  }

  /** Taking over an unreferenced buffer loses nothing: it agreed with the disk. */
  lemma RecycleStore(s: State, s': State, t: nat, b: int, victim: Option<int>, junk: Block)
    requires Inv(s) && BgetRecycle(s, s', t, b, victim, junk)
    ensures SameStore(s, s') && Coherent(s') && Locked(s')
  {
    if victim.Some? {
      UnreferencedIsClean(s, victim.value);
    }
  }

  lemma BgetRecycleOk(s: State, s': State, t: nat, b: int, victim: Option<int>, junk: Block)
    requires Inv(s) && BgetRecycle(s, s', t, b, victim, junk)
    ensures Inv(s') && SpecNext(Abs(s), Internal, Abs(s'))
  {
    if victim.Some? {
      UnreferencedIsClean(s, victim.value);
    }
    CountedRecycle(s, s', t, b, victim, junk);
    RecycleStore(s, s', t, b, victim, junk);
    SameStoreOk(s, s');
  }

  lemma AcquireStore(s: State, s': State, t: nat, b: int)
    requires Coherent(s) && Locked(s) && Acquire(s, s', t, b)
    ensures SameStore(s, s') && Coherent(s') && Locked(s')
  {
  }

  lemma AcquireOk(s: State, s': State, t: nat, b: int)
    requires Inv(s) && Acquire(s, s', t, b)
    ensures Inv(s') && SpecNext(Abs(s), Internal, Abs(s'))
  {
    AcquireStore(s, s', t, b);
    SameStoreOk(s, s');
  }

  lemma LoadStore(s: State, s': State, t: nat, b: int)
    requires Coherent(s) && Locked(s) && Load(s, s', t, b)
    ensures SameStore(s, s') && Coherent(s') && Locked(s')
  {
  }

  lemma LoadOk(s: State, s': State, t: nat, b: int)
    requires Inv(s) && Load(s, s', t, b)
    ensures Inv(s') && SpecNext(Abs(s), Internal, Abs(s'))
  {
    LoadStore(s, s', t, b);
    SameStoreOk(s, s');
  }

  lemma BrelseStore(s: State, s': State, t: nat, b: int)
    requires Coherent(s) && Locked(s) && Brelse(s, s', t, b)
    ensures SameStore(s, s') && Coherent(s') && Locked(s')
  {
  }

  lemma BrelseOk(s: State, s': State, t: nat, b: int)
    requires Inv(s) && Brelse(s, s', t, b)
    ensures Inv(s') && SpecNext(Abs(s), Internal, Abs(s'))
  {
    BrelseStore(s, s', t, b);
    SameStoreOk(s, s');
    CountedBrelse(s, s', t, b);
  }

  // ---------------------------------------------------------------------------------
  // Steps of an operation

  /** Only t's operation fields changed, so every reference count stands. */
  lemma SameRefs(threads: seq<Thread>, t: nat, th: Thread)
    requires t < |threads| && th.refs == threads[t].refs
    ensures forall b :: RefVec(threads[t := th], b) == RefVec(threads, b)
  {
  }

  /** begin_op's test leaves room for one more whole reservation. */
  lemma BeginReserved(s: State, s': State, t: nat)
    requires Reserved(s) && BeginOp(s, s', t)
    ensures Reserved(s')
  {
    OpUpdate(s.threads, t, s'.threads[t]);
    TotalBound(UnusedVec(s.threads), OpVec(s.threads), MAXOPBLOCKS);
  }

  lemma BeginOpOk(s: State, s': State, t: nat)
    requires Inv(s) && BeginOp(s, s', t)
    ensures Inv(s') && SpecNext(Abs(s), Begin(t), Abs(s'))
  {
    hide LogArea, Image, Reserved, GoodList;
    BeginReserved(s, s', t);
    SameRefs(s.threads, t, s'.threads[t]);
    assert View(s') == View(s);
    assert Listed(s') == Listed(s);
    assert Abs(s').active == Abs(s).active[t := true];
  }

  lemma ModifyOk(s: State, s': State, t: nat, b: int, v: Block)
    requires Inv(s) && Modify(s, s', t, b, v)
    ensures Inv(s') && SpecNext(Abs(s), Write(t, b, v), Abs(s'))
  {
    InOpIdle(s, t);
    assert View(s') == View(s)[b := v];
  }

  /** References and pins after a new block is listed. */
  lemma CountedAppend(s: State, s': State, t: nat, b: int)
    requires Counted(s) && LogWrite(s, s', t, b) && b !in s.lh && b !in s.pins
    ensures Counted(s')
  {
    SameRefs(s.threads, t, s'.threads[t]);
  }

  lemma GoodListAppend(start: nat, size: nat, blocks: seq<int>, b: int)
    requires GoodList(start, size, blocks) && Home(start, size, b) && b !in blocks && |blocks| < LOGBLOCKS
    ensures GoodList(start, size, blocks + [b])
  {
  }

  lemma CoherentAppend(s: State, s': State, t: nat, b: int)
    requires Coherent(s) && Locked(s) && LogWrite(s, s', t, b) && b !in s.lh
    ensures Coherent(s') && Locked(s')
  {
  }

  lemma ViewAppend(s: State, s': State, t: nat, b: int)
    requires Inv(s) && s.phase == Idle && LogWrite(s, s', t, b) && b !in s.lh
    ensures Abs(s') == Abs(s)
  {
    assert View(s') == View(s);
    assert Abs(s').active == Abs(s).active;
  }

  lemma AppendPins(s: State, s': State, t: nat, b: int)
    requires PinsListed(s) && s.phase == Idle && LogWrite(s, s', t, b) && b !in s.lh
    ensures PinsListed(s')
  {
    forall c | c in s'.pins
      ensures exists i :: 0 <= i < |s'.lh| && s'.lh[i] == c
    {
      if c == b {
        assert s'.lh[|s.lh|] == b;
      } else {
        var i :| 0 <= i < |s.lh| && s.lh[i] == c;
        assert s'.lh[i] == c;
      }
    }
  }

  lemma LogAppendOk(s: State, s': State, t: nat, b: int)
    requires Inv(s) && s.phase == Idle && LogWrite(s, s', t, b) && b !in s.lh
    ensures Inv(s') && SpecNext(Abs(s), Internal, Abs(s'))
  {
    GoodListAppend(s.start, |s.disk|, s.lh, b);
    OpUpdate(s.threads, t, s'.threads[t]);
    CountedAppend(s, s', t, b);
    AppendPins(s, s', t, b);
    CoherentAppend(s, s', t, b);
    ViewAppend(s, s', t, b);
  }

  lemma LogAbsorbOk(s: State, s': State, t: nat, b: int)
    requires Inv(s) && s.phase == Idle && LogWrite(s, s', t, b) && b in s.lh
    ensures Inv(s') && SpecNext(Abs(s), Internal, Abs(s'))
  {
    SameStoreOk(s, s');
  }

  lemma LogWriteOk(s: State, s': State, t: nat, b: int)
    requires Inv(s) && LogWrite(s, s', t, b)
    ensures Inv(s') && SpecNext(Abs(s), Internal, Abs(s'))
  {
    InOpIdle(s, t);
    if b in s.lh {
      LogAbsorbOk(s, s', t, b);
    } else {
      LogAppendOk(s, s', t, b);
    }
  }

  lemma CountedEnd(s: State, s': State, t: nat)
    requires Counted(s) && EndOp(s, s', t)
    ensures Counted(s')
  {
    SameRefs(s.threads, t, s'.threads[t]);
    assert s'.pins == s.pins;
  }

  lemma EndOpOk(s: State, s': State, t: nat)
    requires Inv(s) && EndOp(s, s', t)
    ensures Inv(s') && SpecNext(Abs(s), End(t), Abs(s'))
  {
    OpUpdate(s.threads, t, s'.threads[t]);
    CountedEnd(s, s', t);
    assert s'.pins == s.pins;
    forall b | b in s.cache && s.cache[b].dirty
      ensures !Holds(s, t, b)
    {
    }
    assert View(s') == View(s);
    assert Abs(s').active == Abs(s).active[t := false];
  }

  // ---------------------------------------------------------------------------------
  // Steps of commit and recovery

  /** Log blocks are never pinned or changed in place, so their buffers mirror the disk. */
  lemma LogBufClean(s: State, b: int)
    requires Inv(s) && InLog(s.start, b) && b in s.cache && s.cache[b].valid
    ensures s.cache[b].data == s.disk[b]
  {
    assert b !in s.pins;
  }

  lemma HeaderIsListed(s: State)
    requires Inv(s) && (s.phase.Installing? || s.phase.Recovering?)
    ensures HeaderBlocks(s.disk[s.start]) == s.lh
  {
  }

  /** A bwrite that moves no pin keeps the cache coherent and the counts right. */
  lemma WriteThroughOk(s: State, s': State, b: int, v: Block)
    requires Coherent(s) && Counted(s) && Locked(s)
    requires b in s.cache && s.cache[b].valid && 0 <= b < |s.disk|
    requires s' == WriteThrough(s, b, v).(phase := s'.phase, lh := s'.lh)
    ensures Coherent(s') && Counted(s') && Locked(s')
  {
    assert forall c :: Pin(s', c) == Pin(s, c);
  }

  lemma WriteLogLogArea(start: nat, disk: seq<Block>, lh: seq<int>, k: nat, contents: seq<Block>, disk': seq<Block>)
    requires start + LOGBLOCKS < |disk| && GoodList(start, |disk|, lh) && |contents| == |lh|
    requires LogArea(start, disk, lh, Logging(k), contents) && k < |lh|
    requires disk' == disk[start + 1 + k := contents[k]]
    ensures LogArea(start, disk', lh, Logging(k + 1), contents)
  {
  }

  lemma WriteLogViews(s: State, s': State)
    requires Inv(s) && WriteLog(s, s')
    ensures Listed(s') == Listed(s) && View(s') == View(s)
  {
    assert InLog(s.start, s.start + 1 + s.phase.tail);
  }

  lemma WriteLogInv(s: State, s': State)
    requires Inv(s) && WriteLog(s, s')
    ensures Inv(s')
  {
    var tail := s.phase.tail;
    WriteThroughOk(s, s', s.start + 1 + tail, s.cache[s.lh[tail]].data);
    WriteLogViews(s, s');
    WriteLogLogArea(s.start, s.disk, s.lh, tail, Listed(s), s'.disk);
  }

  lemma WriteLogOk(s: State, s': State)
    requires Inv(s) && WriteLog(s, s')
    ensures Inv(s') && SpecNext(Abs(s), Internal, Abs(s'))
  {
    WriteLogInv(s, s');
    WriteLogViews(s, s');
    LogWriteInvisible(s.start, s.disk, s.phase.tail, s.cache[s.lh[s.phase.tail]].data, s'.disk);
  }

  /** At the commit point nothing is changed and unlogged, so view and image meet. */
  lemma CommitView(s: State)
    requires Inv(s) && s.phase.Logging?
    ensures View(s) == Overlay(Image(s.start, s.disk), s.lh, Listed(s))
  {
    EmptyHeader(s.start, s.disk);
    NobodyInOp(s);
  }

  /** Writing the header block moves no home block and no listed content. */
  lemma HeaderWriteStore(s: State, s': State, header: Block)
    requires Inv(s) && HoldsValid(s, s.boss, s.start)
    requires s' == WriteThrough(s, s.start, header).(phase := s'.phase)
    requires s.phase != Idle
    ensures Coherent(s') && Counted(s') && Locked(s') && Reserved(s')
    ensures View(s') == View(s) && Listed(s') == Listed(s)
  {
    hide LogArea, Coherent, Counted, Locked, PinsListed, View, Listed;
    WriteThroughOk(s, s', s.start, header);
    HeaderWriteViews(s, s', header);
  }

  lemma HeaderWriteViews(s: State, s': State, header: Block)
    requires Inv(s) && HoldsValid(s, s.boss, s.start)
    requires s' == WriteThrough(s, s.start, header).(phase := s'.phase)
    ensures View(s') == View(s) && Listed(s') == Listed(s)
  {
    hide LogArea, Coherent, Counted, Locked, Reserved, PinsListed;
    assert forall b :: 0 <= b < |s.disk| && Home(s.start, |s.disk|, b) ==> Lookup(s', b) == Lookup(s, b);
  }

  lemma CommitLogArea(start: nat, disk: seq<Block>, lh: seq<int>, contents: seq<Block>, header: Block,
                      disk': seq<Block>)
    requires start + LOGBLOCKS < |disk| && GoodList(start, |disk|, lh) && |contents| == |lh|
    requires LogArea(start, disk, lh, Logging(|lh|), contents)
    requires disk' == disk[start := PutHeader(header, lh)]
    ensures LogArea(start, disk', lh, Installing(0), contents)
  {
  }

  lemma ClearedLogArea(start: nat, disk: seq<Block>, header: Block, disk': seq<Block>)
    requires start + LOGBLOCKS < |disk| && disk' == disk[start := PutHeader(header, [])]
    ensures LogArea(start, disk', [], Idle, []) && LogArea(start, disk', [], Finished, [])
  {
  }

  lemma CommitDurable(s: State, s': State)
    requires Inv(s) && CommitHead(s, s')
    ensures Image(s'.start, s'.disk) == View(s)
  {
    HeaderWriteCommits(s.start, s.disk, s.lh, Listed(s), s.cache[s.start].data, s'.disk);
    CommitView(s);
  }

  lemma CommitHeadOk(s: State, s': State)
    requires Inv(s) && CommitHead(s, s')
    ensures Inv(s') && SpecNext(Abs(s), Commit, Abs(s'))
  {
    var was := s.cache[s.start].data;
    HeaderWriteStore(s, s', PutHeader(was, s.lh));
    CommitLogArea(s.start, s.disk, s.lh, Listed(s), was, s'.disk);
    CommitDurable(s, s');
    NobodyInOp(s);
  }

  lemma ClearHeadOk(s: State, s': State)
    requires Inv(s) && ClearHead(s, s')
    ensures Inv(s') && SpecNext(Abs(s), Internal, Abs(s'))
  {
    var was := s.cache[s.start].data;
    HeaderWriteStore(s, s', PutHeader(was, s.lh));
    ClearedLogArea(s.start, s.disk, was, s'.disk);
    InstalledIsHome(s.start, s.disk, HeaderBlocks(s.disk[s.start]));
    ClearInvisible(s.start, s.disk, was, s'.disk);
  }

  /** With no pin and nobody in an operation, reading a home block reads the disk. */
  lemma CleanView(s: State)
    requires Inv(s) && s.pins == {} && s.outstanding == 0
    ensures View(s) == HomeBlocks(s.start, s.disk)
  {
    NobodyInOp(s);
  }

  lemma NoPinsLeft(s: State)
    requires PinsListed(s) && FirstPinned(s) >= |s.lh|
    ensures s.pins == {}
  {
    assert forall b :: b !in s.pins;
  }

  lemma RecoverClearHeadOk(s: State, s': State)
    requires Inv(s) && RecoverClearHead(s, s')
    ensures Inv(s') && SpecNext(Abs(s), Recovered, Abs(s'))
  {
    var was := s.cache[s.start].data;
    HeaderWriteStore(s, s', PutHeader(was, s.lh));
    ClearedLogArea(s.start, s.disk, was, s'.disk);
    InstalledIsHome(s.start, s.disk, HeaderBlocks(s.disk[s.start]));
    ClearInvisible(s.start, s.disk, was, s'.disk);
    NoPinsLeft(s);
    CleanView(s);
  }

  lemma RecoverLogArea(start: nat, disk: seq<Block>, lh: seq<int>, k: nat, contents: seq<Block>,
                       disk': seq<Block>, contents': seq<Block>)
    requires start + LOGBLOCKS < |disk| && GoodList(start, |disk|, lh) && |contents| == |contents'| == |lh|
    requires LogArea(start, disk, lh, Recovering(k), contents) && k < |lh|
    requires disk' == disk[lh[k] := disk[start + 1 + k]]
    ensures LogArea(start, disk', lh, Recovering(k + 1), contents')
  {
    InstallExtends(start, disk, lh, k, disk');
    assert Home(start, |disk|, lh[k]);
  }

  lemma RecoverInstallInv(s: State, s': State)
    requires Inv(s) && RecoverInstall(s, s')
    ensures Inv(s')
  {
    hide LogArea, Coherent, Counted, Locked;
    var tail := s.phase.tail;
    LogBufClean(s, s.start + 1 + tail);
    WriteThroughOk(s, s', s.lh[tail], s.cache[s.start + 1 + tail].data);
    RecoverLogArea(s.start, s.disk, s.lh, tail, Listed(s), s'.disk, Listed(s'));
  }

  lemma RecoverInstallOk(s: State, s': State)
    requires Inv(s) && RecoverInstall(s, s')
    ensures Inv(s') && SpecNext(Abs(s), Internal, Abs(s'))
  {
    hide LogArea, Coherent, Counted, Locked, Reserved, PinsListed, Listed, Image, View;
    RecoverInstallInv(s, s');
    HeaderIsListed(s);
    LogBufClean(s, s.start + 1 + s.phase.tail);
    InstallInvisible(s.start, s.disk, s.lh, s.phase.tail, s'.disk);
  }

  lemma RecoverHeadOk(s: State, s': State)
    requires Inv(s) && RecoverHead(s, s')
    ensures Inv(s') && SpecNext(Abs(s), Internal, Abs(s'))
  {
    NobodyInOp(s);
  }

  /** Phase changes that touch nothing pinned. */
  lemma PhaseOnly(s: State, s': State)
    requires Inv(s) && s' == s.(phase := s'.phase, lh := s'.lh) && s'.pins == s.pins && Up(s') == Up(s)
    ensures Coherent(s') && Counted(s') && Locked(s') && Abs(s') == Abs(s)
  {
    assert View(s') == View(s);
  }

  lemma InstallDoneOk(s: State, s': State)
    requires Inv(s) && InstallDone(s, s')
    ensures Inv(s') && SpecNext(Abs(s), Internal, Abs(s'))
  {
    PhaseOnly(s, s');
  }

  lemma RecoverDoneOk(s: State, s': State)
    requires Inv(s) && RecoverDone(s, s')
    ensures Inv(s') && SpecNext(Abs(s), Internal, Abs(s'))
  {
    PhaseOnly(s, s');
  }

  lemma CommitDoneOk(s: State, s': State)
    requires Inv(s) && (CommitDone(s, s') || NothingToCommit(s, s'))
    ensures Inv(s') && SpecNext(Abs(s), Internal, Abs(s'))
  {
    PhaseOnly(s, s');
  }

  /** install_trans(0) takes exactly one pin away. */
  lemma InstallPins(s: State, s': State)
    requires GoodList(s.start, |s.disk|, s.lh) && PinsListed(s) && Install(s, s')
    ensures PinsListed(s') && s.lh[s.phase.tail] in s.pins
  {
    forall b | b in s'.pins
      ensures exists i :: FirstPinned(s') <= i < |s.lh| && s.lh[i] == b
    {
      var i :| FirstPinned(s) <= i < |s.lh| && s.lh[i] == b;
      assert i != s.phase.tail;
    }
  }

  lemma InstallCounted(s: State, s': State)
    requires Inv(s) && Install(s, s')
    ensures Counted(s')
  {
    InstallPins(s, s');
  }

  /** The unpinned buffer now agrees with its home block. */
  lemma InstallCoherent(s: State, s': State)
    requires Inv(s) && Install(s, s')
    ensures Coherent(s') && Locked(s')
  {
    InstallPins(s, s');
  }

  /** The log block being installed is the content everyone already sees. */
  lemma InstallSource(s: State)
    requires Inv(s) && s.phase.Installing? && s.phase.tail < |s.lh|
    ensures var log, dst := s.start + 1 + s.phase.tail, s.lh[s.phase.tail];
            dst in s.cache && s.cache[dst].valid && s.disk[log] == s.cache[dst].data
  {
    hide Counted, Locked, Reserved;
    assert s.disk[s.start + 1 + s.phase.tail] == Listed(s)[s.phase.tail];
  }

  lemma InstallSeen(s: State, s': State)
    requires Inv(s) && Install(s, s')
    ensures forall b :: 0 <= b < |s.disk| ==> Lookup(s', b) == Lookup(s, b)
  {
    hide LogArea, Coherent, Counted, Locked, Reserved, PinsListed, Listed;
    InstallSource(s);
    LogBufClean(s, s.start + 1 + s.phase.tail);
  }

  lemma InstallLogArea(start: nat, disk: seq<Block>, lh: seq<int>, k: nat, contents: seq<Block>, disk': seq<Block>)
    requires start + LOGBLOCKS < |disk| && GoodList(start, |disk|, lh) && |contents| == |lh|
    requires LogArea(start, disk, lh, Installing(k), contents) && k < |lh|
    requires disk' == disk[lh[k] := disk[start + 1 + k]]
    ensures LogArea(start, disk', lh, Installing(k + 1), contents)
  {
    InstallExtends(start, disk, lh, k, disk');
    assert Home(start, |disk|, lh[k]);
  }

  lemma InstallViews(s: State, s': State)
    requires Inv(s) && Install(s, s')
    ensures Listed(s') == Listed(s) && View(s') == View(s)
  {
    hide LogArea, Coherent, Counted, Locked, Reserved, PinsListed, Lookup;
    InstallSeen(s, s');
  }

  lemma InstallDisk(s: State, s': State)
    requires Inv(s) && Install(s, s')
    ensures s'.disk == s.disk[s.lh[s.phase.tail] := s.disk[s.start + 1 + s.phase.tail]]
  {
    LogBufClean(s, s.start + 1 + s.phase.tail);
  }

  lemma InstallLogAreaOk(s: State, s': State)
    requires Inv(s) && Install(s, s')
    ensures LogArea(s'.start, s'.disk, s'.lh, s'.phase, Listed(s'))
  {
    InstallViews(s, s');
    InstallDisk(s, s');
    InstallLogArea(s.start, s.disk, s.lh, s.phase.tail, Listed(s), s'.disk);
  }

  lemma InstallInv(s: State, s': State)
    requires Inv(s) && Install(s, s')
    ensures Inv(s')
  {
    InstallPins(s, s');
    InstallCoherent(s, s');
    InstallCounted(s, s');
    InstallLogAreaOk(s, s');
  }

  lemma InstallAbs(s: State, s': State)
    requires Inv(s) && Install(s, s')
    ensures Abs(s') == Abs(s)
  {
    InstallDisk(s, s');
    InstallInvisible(s.start, s.disk, s.lh, s.phase.tail, s'.disk);
    InstallViews(s, s');
    assert Abs(s').active == Abs(s).active;
  }

  lemma InstallOk(s: State, s': State)
    requires Inv(s) && Install(s, s')
    ensures Inv(s') && SpecNext(Abs(s), Internal, Abs(s'))
  {
    InstallInv(s, s');
    InstallAbs(s, s');
  }

  lemma PowerLossOk(s: State, s': State)
    requires Inv(s) && PowerLoss(s, s')
    ensures Inv(s') && SpecNext(Abs(s), Crash, Abs(s'))
  {
    TotalZero(OpVec(s'.threads));
    TotalZero(UnusedVec(s'.threads));
  }

  // ---------------------------------------------------------------------------------
  // Whole runs

  lemma CacheStepOk(s: State, s': State)
    requires Inv(s) && CacheStep(s, s')
    ensures Inv(s') && SpecNext(Abs(s), Internal, Abs(s'))
  {
    if t, b :| BgetHit(s, s', t, b) {
      BgetHitOk(s, s', t, b);
    } else if t, b, victim, junk :| BgetRecycle(s, s', t, b, victim, junk) {
      BgetRecycleOk(s, s', t, b, victim, junk);
    } else if t, b :| Acquire(s, s', t, b) {
      AcquireOk(s, s', t, b);
    } else if t, b :| Load(s, s', t, b) {
      LoadOk(s, s', t, b);
    } else {
      var t, b :| Brelse(s, s', t, b);
      BrelseOk(s, s', t, b);
    }
  }

  lemma CommitStepOk(s: State, s': State)
    requires Inv(s) && CommitStep(s, s')
    ensures Inv(s') && SpecNext(Abs(s), Internal, Abs(s'))
  {
    if
    case WriteLog(s, s') => WriteLogOk(s, s');
    case Install(s, s') => InstallOk(s, s');
    case InstallDone(s, s') => InstallDoneOk(s, s');
    case ClearHead(s, s') => ClearHeadOk(s, s');
    case NothingToCommit(s, s') || CommitDone(s, s') => CommitDoneOk(s, s');
    case RecoverHead(s, s') => RecoverHeadOk(s, s');
    case RecoverInstall(s, s') => RecoverInstallOk(s, s');
    case RecoverDone(s, s') => RecoverDoneOk(s, s');
  }

  /** Every step keeps the invariant and is a step of the specification. */
  lemma StepRefines(s: State, e: Event, s': State)
    requires Inv(s) && Next(s, e, s')
    ensures Inv(s') && SpecNext(Abs(s), e, Abs(s'))
  {
    match e
    case Internal =>
      if CacheStep(s, s') {
        CacheStepOk(s, s');
      } else if CommitStep(s, s') {
        CommitStepOk(s, s');
      } else {
        var t, b :| LogWrite(s, s', t, b);
        LogWriteOk(s, s', t, b);
      }
    case Begin(t) => BeginOpOk(s, s', t);
    case Read(t, b, v) =>
    case Write(t, b, v) => ModifyOk(s, s', t, b, v);
    case End(t) => EndOpOk(s, s', t);
    case Commit => CommitHeadOk(s, s');
    case Crash => PowerLossOk(s, s');
    case Recovered => RecoverClearHeadOk(s, s');
  }

  lemma InitInv(s: State)
    requires Init(s)
    ensures Inv(s)
  {
    TotalZero(OpVec(s.threads));
    TotalZero(UnusedVec(s.threads));
  }

  lemma {:induction false} RunInv(states: seq<State>, events: seq<Event>, k: nat)
    requires Run(states, events) && k < |states|
    ensures Inv(states[k])
  {
    if k == 0 {
      InitInv(states[0]);
    } else {
      RunInv(states, events, k - 1);
      StepRefines(states[k - 1], events[k - 1], states[k]);
    }
  }
}
