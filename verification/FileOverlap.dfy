/**
File operations that overlap under group commit.  Several operations are in progress at once,
each working on an inode whose lock it holds, and their block writes interleave in any way.  A
block write under an inode's lock leaves the content of every other file alone; when the lock is
given up its file has taken the bytes of the write.  Whatever the crashes, the files found after
recovery have exactly the writes finished at the last commit.
*/
module FileOverlap {
  import opened FileModel
  import opened FileSystem
  import opened LogLayout
  import opened LogProtocol
  import opened LogRefinement
  import opened LogTheorems
  import opened FileCommit
  import opened Params

  /** Who holds an inode's lock, and since which state. */
  datatype Hold = Hold(t: nat, since: nat)

  /** What happens to the inode locks at an event: nothing, ilock, or iunlock after a write. */
  datatype Work = NoWork | Locks(t: nat, inum: int) | Unlocks(put: Put)

  /** The file system, the locks and the finished writes at each state; the work at each event. */
  datatype History = History(fss: seq<Fs>, held: seq<map<int, Hold>>, done: seq<seq<Put>>, work: seq<Work>)

  ghost predicate Fits(h: History, n: nat) {
    |h.fss| == |h.held| == |h.done| == n + 1 && |h.work| == n
  }

  /** fs has as many files as fs0, all of them readable. */
  ghost predicate Readable(fs0: Fs, fs: Fs) {
    Shape(fs) && |fs.inodes| == |fs0.inodes| && forall i :: 0 <= i < |fs.inodes| ==> 0 <= fs.inodes[i].size
  }

  ghost predicate ReadsSame(fs: Fs, fs': Fs, inum: int)
    requires Readable(fs, fs) && Readable(fs, fs')
  {
    forall j :: 0 <= j < |fs.inodes| && j != inum ==> Content(fs', j) == Content(fs, j)
  }

  ghost predicate Readables(h: History) {
    h.fss != [] && forall i :: 0 <= i < |h.fss| ==> Readable(h.fss[0], h.fss[i])
  }

  /** ilock and iunlock at event i. */
  ghost predicate WorkOk(a: Spec, h: History, n: nat, i: nat)
    requires Fits(h, n) && Readables(h) && i < n
  {
    var held := h.held[i];
    match h.work[i]
    case NoWork => h.held[i + 1] == held && h.done[i + 1] == h.done[i]
    case Locks(t, inum) =>
      && inum !in held && t < |a.active| && a.active[t]
      && h.held[i + 1] == held[inum := Hold(t, i)] && h.done[i + 1] == h.done[i]
    case Unlocks(put) =>
      && 0 <= put.inum < |h.fss[0].inodes| && put.inum in held && held[put.inum].since <= i
      && Content(h.fss[i], put.inum) == PutInto(Content(h.fss[held[put.inum].since], put.inum), put.at, put.bytes)
      && h.held[i + 1] == held - {put.inum} && h.done[i + 1] == h.done[i] + [put]
  }

  /** Thread t holds the lock of an inode and this block write touches no other file. */
  ghost predicate WritesOwn(h: History, n: nat, i: nat, t: nat, inum: int)
    requires Fits(h, n) && Readables(h) && i < n
  {
    inum in h.held[i] && h.held[i][inum].t == t && ReadsSame(h.fss[i], h.fss[i + 1], inum)
  }

  ghost predicate HoldsNone(held: map<int, Hold>, t: nat) {
    forall inum :: inum in held ==> held[inum].t != t
  }

  ghost predicate StepOk(specs: seq<Spec>, events: seq<Event>, h: History, format: Format, i: nat)
    requires |specs| == |events| + 1 && Fits(h, |events|) && Readables(h) && i < |events|
  {
    match events[i]
    case Crash =>
      && h.fss[i + 1] == h.fss[LastCommit(events, i)] && h.done[i + 1] == h.done[LastCommit(events, i)]
      && h.held[i + 1] == map[]
    case Write(t, b, v) =>
      && h.held[i + 1] == h.held[i] && h.done[i + 1] == h.done[i]
      && format(h.fss[i + 1]) == format(h.fss[i])[b := v] && exists inum :: WritesOwn(h, |events|, i, t, inum)
    case _ =>
      && h.fss[i + 1] == h.fss[i] && WorkOk(specs[i], h, |events|, i)
      && (events[i].End? ==> HoldsNone(h.held[i + 1], events[i].t))
  }

  ghost predicate Overlapping(specs: seq<Spec>, events: seq<Event>, h: History, format: Format) {
    && SpecRun(specs, events) && Fits(h, |events|) && Readables(h)
    && specs[0].durable == specs[0].volatile == format(h.fss[0]) && h.held[0] == map[] && h.done[0] == []
    && forall i :: 0 <= i < |events| ==> StepOk(specs, events, h, format, i)
  }

  /** What a step does to what the blocks show, and to what is durable. */
  lemma BlocksStep(specs: seq<Spec>, events: seq<Event>, h: History, format: Format, i: nat)
    requires Overlapping(specs, events, h, format) && i < |events|
    requires specs[i].volatile == format(h.fss[i]) && specs[i].durable == format(h.fss[LastCommit(events, i)])
    ensures specs[i + 1].volatile == format(h.fss[i + 1])
    ensures specs[i + 1].durable == if events[i] == Commit then specs[i].volatile else specs[i].durable
  {
    hide WorkOk, WritesOwn, LastCommit, HoldsNone, Readables;
    assert SpecNext(specs[i], events[i], specs[i + 1]);
    assert StepOk(specs, events, h, format, i);
  }

  /** The blocks show the file system at every state, in the middle of operations too. */
  lemma {:induction false} BlocksShow(specs: seq<Spec>, events: seq<Event>, h: History, format: Format, i: nat)
    requires Overlapping(specs, events, h, format) && i <= |events|
    ensures specs[i].volatile == format(h.fss[i])
    ensures specs[i].durable == format(h.fss[LastCommit(events, i)])
  {
    hide StepOk, SpecNext, Readables;
    if i > 0 {
      BlocksShow(specs, events, h, format, i - 1);
      BlocksStep(specs, events, h, format, i - 1);
    }
  }

  // ---------------------------------------------------------------------------------
  // Locks

  /** A lock is held by a thread inside an operation, since a state that has been. */
  ghost predicate HeldOk(a: Spec, held: map<int, Hold>, i: nat, inum: int) {
    inum in held ==> held[inum].since <= i && held[inum].t < |a.active| && a.active[held[inum].t]
  }

  lemma HeldStep(specs: seq<Spec>, events: seq<Event>, h: History, format: Format, i: nat, inum: int)
    requires Overlapping(specs, events, h, format) && i < |events| && HeldOk(specs[i], h.held[i], i, inum)
    ensures HeldOk(specs[i + 1], h.held[i + 1], i + 1, inum)
  {
    hide WritesOwn, LastCommit;
    assert SpecNext(specs[i], events[i], specs[i + 1]);
    assert StepOk(specs, events, h, format, i);
  }

  lemma {:induction false} HeldInRun(
      specs: seq<Spec>, events: seq<Event>, h: History, format: Format, i: nat, inum: int)
    requires Overlapping(specs, events, h, format) && i <= |events|
    ensures HeldOk(specs[i], h.held[i], i, inum)
  {
    hide HeldOk, StepOk;
    if i > 0 {
      HeldInRun(specs, events, h, format, i - 1, inum);
      HeldStep(specs, events, h, format, i - 1, inum);
    } else {
      NobodyHolds(specs[0], inum);
    }
  }

  lemma NobodyHolds(a: Spec, inum: int)
    ensures HeldOk(a, map[], 0, inum)
  {
  }

  // ---------------------------------------------------------------------------------
  // Files

  /** File j has the finished writes, now or, if its lock is held, when the lock was taken. */
  ghost predicate Settled(h: History, n: nat, i: nat, j: int)
    requires Fits(h, n) && Readables(h) && i <= n && 0 <= j < |h.fss[0].inodes|
  {
    var at := if j in h.held[i] then h.held[i][j].since else i;
    at <= i && Content(h.fss[at], j) == Replay(Content(h.fss[0], j), h.done[i], j)
  }

  lemma WorkSettles(a: Spec, h: History, n: nat, i: nat, j: int)
    requires Fits(h, n) && Readables(h) && i < n && 0 <= j < |h.fss[0].inodes|
    requires h.fss[i + 1] == h.fss[i] && WorkOk(a, h, n, i) && Settled(h, n, i, j)
    ensures Settled(h, n, i + 1, j)
  {
    hide Content, PutInto, Replay;
    if h.work[i].Unlocks? {
      ReplayMore(Content(h.fss[0], j), h.done[i], h.work[i].put, j);
    }
  }

  lemma StepWorks(specs: seq<Spec>, events: seq<Event>, h: History, format: Format, i: nat)
    requires Overlapping(specs, events, h, format) && i < |events| && !events[i].Crash? && !events[i].Write?
    ensures h.fss[i + 1] == h.fss[i] && WorkOk(specs[i], h, |events|, i)
  {
    hide WorkOk, LastCommit, Readables, SpecNext;
    assert StepOk(specs, events, h, format, i);
  }

  lemma WriteSettles(specs: seq<Spec>, events: seq<Event>, h: History, format: Format, i: nat, j: int)
    requires Overlapping(specs, events, h, format) && i < |events| && 0 <= j < |h.fss[0].inodes|
    requires events[i].Write? && Settled(h, |events|, i, j)
    ensures Settled(h, |events|, i + 1, j)
  {
    hide LastCommit, WorkOk, Content, SpecNext;
    assert StepOk(specs, events, h, format, i);
    var inum :| WritesOwn(h, |events|, i, events[i].t, inum);
  }

  /** At a commit, and at the start, no lock is held. */
  lemma CommitUnlocked(specs: seq<Spec>, events: seq<Event>, h: History, format: Format, c: nat, j: int)
    requires Overlapping(specs, events, h, format) && c <= |events| && (c == 0 || (c < |events| && events[c] == Commit))
    ensures j !in h.held[c]
  {
    HeldInRun(specs, events, h, format, c, j);
    if c > 0 {
      assert SpecNext(specs[c], events[c], specs[c + 1]);
    }
  }

  lemma {:induction false} FilesSettled(
      specs: seq<Spec>, events: seq<Event>, h: History, format: Format, i: nat, j: int)
    requires Overlapping(specs, events, h, format) && i <= |events| && 0 <= j < |h.fss[0].inodes|
    ensures Settled(h, |events|, i, j)
    decreases i
  {
    hide LastCommit, StepOk, Content, SpecNext, WorkOk;
    if i > 0 {
      FilesSettled(specs, events, h, format, i - 1, j);
      if events[i - 1].Crash? {
        var c := LastCommit(events, i - 1);
        FilesSettled(specs, events, h, format, c, j);
        CommitUnlocked(specs, events, h, format, c, j);
        CrashSettles(specs, events, h, format, i - 1, c, j);
      } else if events[i - 1].Write? {
        WriteSettles(specs, events, h, format, i - 1, j);
      } else {
        StepWorks(specs, events, h, format, i - 1);
        WorkSettles(specs[i - 1], h, |events|, i - 1, j);
      }
    }
  }

  lemma CrashSettles(specs: seq<Spec>, events: seq<Event>, h: History, format: Format, i: nat, c: nat, j: int)
    requires Overlapping(specs, events, h, format) && i < |events| && 0 <= j < |h.fss[0].inodes|
    requires events[i].Crash? && c == LastCommit(events, i) && j !in h.held[c] && Settled(h, |events|, c, j)
    ensures Settled(h, |events|, i + 1, j)
  {
    hide Content;
    assert StepOk(specs, events, h, format, i);
  }

  /**
  Group commit for files.  After any crashes and a finished recovery, the home blocks are a file
  system in which every file has exactly the writes finished at the last commit, however the
  operations in progress overlapped.
  */
  lemma OverlappingWritesSurvive(
      states: seq<State>, events: seq<Event>, specs: seq<Spec>, h: History, format: Format, k: nat)
    requires Run(states, events) && Shown(states, specs) && k < |events| && events[k] == Recovered
    requires Overlapping(specs, events, h, format)
    ensures HeaderBlocks(states[k + 1].disk[states[k + 1].start]) == []
    ensures var c := LastCommit(events, k);
            && HomeBlocks(states[k + 1].start, states[k + 1].disk) == format(h.fss[c])
            && forall j :: 0 <= j < |h.fss[0].inodes| ==>
                 Content(h.fss[c], j) == Replay(Content(h.fss[0], j), h.done[c], j)
  {
    hide SpecNext, Next, Init, LastCommit, StepOk, Content;
    BlocksShow(specs, events, h, format, k + 1);
    NotACommit(events, k);
    RecoveryClears(states, events, k);
    var c := LastCommit(events, k);
    forall j | 0 <= j < |h.fss[0].inodes|
      ensures Content(h.fss[c], j) == Replay(Content(h.fss[0], j), h.done[c], j)
    {
      FilesSettled(specs, events, h, format, c, j);
      CommitUnlocked(specs, events, h, format, c, j);
    }
  }

  // ---------------------------------------------------------------------------------
  // Why a block write leaves other files alone

  /** A block that belongs to no other inode: free, just allocated, or this inode's own. */
  predicate MayWrite(owner: Owner, inum: int, n: int) {
    n in owner ==> owner[n].inum == inum
  }

  lemma OtherSlots(fs: Fs, fs': Fs, owner: Owner, extra: set<int>, inum: int, sl: Slot)
    requires Owned(fs, owner, extra) && Shape(fs') && SameSize(fs, fs') && SlotIn(fs, sl) && sl.inum != inum
    requires forall i :: 0 <= i < |fs.inodes| && i != inum ==> fs'.inodes[i] == fs.inodes[i]
    requires forall n :: 0 <= n < |fs.used| && !MayWrite(owner, inum, n) ==> fs'.words[n] == fs.words[n]
    ensures Val(fs', sl) == Val(fs, sl)
  {
    assert SlotOk(fs, owner, Slot(sl.inum, NDIRECT));
  }

  /**
  Changing bits, one's own inode, and blocks that belong to no other inode leaves the content
  of every other file as it was, also while blocks just allocated hang in no slot yet.
  */
  lemma OnlyOwnBlocks(fs: Fs, fs': Fs, owner: Owner, extra: set<int>, inum: int)
    requires Owned(fs, owner, extra) && Readable(fs, fs) && Readable(fs, fs') && SameSize(fs, fs')
    requires forall i :: 0 <= i < |fs.inodes| && i != inum ==> fs'.inodes[i] == fs.inodes[i]
    requires forall n :: 0 <= n < |fs.used| && !MayWrite(owner, inum, n) ==>
               fs'.words[n] == fs.words[n] && fs'.bytes[n] == fs.bytes[n]
    ensures ReadsSame(fs, fs', inum)
  {
    forall j | 0 <= j < |fs.inodes| && j != inum
      ensures Content(fs', j) == Content(fs, j)
    {
      forall pos | 0 <= pos < fs.inodes[j].size
        ensures ByteAt(fs', j, pos) == ByteAt(fs, j, pos)
      {
        SameByte(fs, fs', owner, extra, inum, j, pos);
      }
    }
  }

  lemma SameByte(fs: Fs, fs': Fs, owner: Owner, extra: set<int>, inum: int, j: int, pos: int)
    requires Owned(fs, owner, extra) && Shape(fs') && SameSize(fs, fs') && 0 <= j < |fs.inodes| && j != inum
    requires forall i :: 0 <= i < |fs.inodes| && i != inum ==> fs'.inodes[i] == fs.inodes[i]
    requires forall n :: 0 <= n < |fs.used| && !MayWrite(owner, inum, n) ==>
               fs'.words[n] == fs.words[n] && fs'.bytes[n] == fs.bytes[n]
    requires 0 <= pos
    ensures ByteAt(fs', j, pos) == ByteAt(fs, j, pos)
  {
    if pos < MAXFILE * BSIZE {
      var sl := SlotFor(j, pos / BSIZE);
      OtherSlots(fs, fs', owner, extra, inum, sl);
      assert SlotOk(fs, owner, sl);
    }
  }
}
