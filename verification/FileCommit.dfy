/**
Files over the log: what a crash leaves of file operations.  `fss[i]` is the file system as of
state i of a run, `done[i]` lists the writes of the operations that have ended by then, and
`format` is a way to lay a file system out in blocks.  Whatever the crashes and recoveries, the
disk holds the file system as of the last commit, and its files are the first ones with exactly
the writes of the operations that had ended at that commit.
*/
module FileCommit {
  import opened FileModel
  import opened FileSystem
  import opened LogLayout
  import opened LogProtocol
  import opened LogRefinement
  import opened LogTheorems

  type Format = Fs -> map<int, Block>

  // ---------------------------------------------------------------------------------
  // Files after a list of writes

  /** What file j holds after these writes, given what it held before. */
  function Replay(c: seq<int>, puts: seq<Put>, j: int): seq<int> {
    if puts == [] then c
    else
      var before, last := Replay(c, puts[..|puts| - 1], j), puts[|puts| - 1];
      if last.inum == j then PutInto(before, last.at, last.bytes) else before
  }

  lemma ReplayMore(c: seq<int>, puts: seq<Put>, put: Put, j: int)
    ensures Replay(c, puts + [put], j) ==
            if put.inum == j then PutInto(Replay(c, puts, j), put.at, put.bytes) else Replay(c, puts, j)
  {
    assert (puts + [put])[..|puts|] == puts;
  }

  lemma NothingPut(c: seq<int>, off: int)
    ensures PutInto(c, off, []) == c
  {
  }

  lemma PutTwice(c: seq<int>, off: int, xs: seq<int>, ys: seq<int>)
    requires 0 <= off
    ensures PutInto(PutInto(c, off, xs), off + |xs|, ys) == PutInto(c, off, xs + ys)
  {
    if off <= |c| {
      OverwriteJoin(c, off, xs, ys);
      if xs == [] {
        assert xs + ys == ys;
      }
      if ys == [] {
        assert xs + ys == xs;
      }
    }
  }

  /** Consecutive pieces of one write are that write, as far as it got. */
  lemma {:induction false} ReplayPieces(
      c: seq<int>, puts: seq<Put>, inum: int, off: int, src: seq<int>, sent: int, j: int)
    requires Pieces(puts, inum, off, src, sent) && 0 <= off
    ensures 0 <= sent <= |src| && Replay(c, puts, j) == if j == inum then PutInto(c, off, src[..sent]) else c
  {
    hide PutInto;
    NothingPut(c, off);
    if puts != [] {
      var last := puts[|puts| - 1];
      var s := sent - |last.bytes|;
      ReplayPieces(c, puts[..|puts| - 1], inum, off, src, s, j);
      PutTwice(c, off, src[..s], src[s..sent]);
      assert src[..s] + src[s..sent] == src[..sent];
    }
  }

  function Sent(puts: seq<Put>): nat {
    if puts == [] then 0 else Sent(puts[..|puts| - 1]) + |puts[|puts| - 1].bytes|
  }

  lemma {:induction false} PiecesPrefix(puts: seq<Put>, inum: int, off: int, src: seq<int>, sent: int, m: nat)
    requires Pieces(puts, inum, off, src, sent) && m <= |puts|
    ensures Pieces(puts[..m], inum, off, src, Sent(puts[..m]))
    ensures Sent(puts) == sent
    decreases |puts|
  {
    if puts != [] {
      var init, last := puts[..|puts| - 1], puts[|puts| - 1];
      PiecesPrefix(init, inum, off, src, sent - |last.bytes|, if m < |puts| then m else |puts| - 1);
      if m < |puts| {
        assert init[..m] == puts[..m];
      } else {
        assert puts[..m] == puts;
      }
    }
  }

  // ---------------------------------------------------------------------------------
  // The last commit

  /** The index of the last commit among the first i events, or 0. */
  function LastCommit(events: seq<Event>, i: nat): (c: nat)
    requires i <= |events|
    ensures c == 0 || (c < i && events[c] == Commit)
    ensures c <= i && NoneIn(events, c + 1, i, {Commit})
  {
    if i == 0 then 0 else if events[i - 1] == Commit then i - 1 else LastCommit(events, i - 1)
  }

  lemma NotACommit(events: seq<Event>, k: nat)
    requires k < |events| && events[k] != Commit
    ensures LastCommit(events, k + 1) == LastCommit(events, k)
  {
  }

  predicate Quiet(a: Spec) {
    forall t :: 0 <= t < |a.active| ==> !a.active[t]
  }

  /** The file system at state i: it shows whenever nobody is in an operation, and a crash takes it back. */
  ghost predicate Acts(specs: seq<Spec>, events: seq<Event>, fss: seq<Fs>, format: Format, i: nat)
    requires |specs| == |fss| == |events| + 1 && i < |events|
  {
    match events[i]
    case End(_) => Quiet(specs[i + 1]) ==> specs[i + 1].volatile == format(fss[i + 1])
    case Crash => fss[i + 1] == fss[LastCommit(events, i)]
    case _ => Quiet(specs[i]) && Quiet(specs[i + 1]) ==> fss[i + 1] == fss[i]
  }

  ghost predicate Tracks(specs: seq<Spec>, events: seq<Event>, fss: seq<Fs>, format: Format, n: nat) {
    && SpecRun(specs, events) && |fss| == |specs| && n <= |events|
    && specs[0].durable == specs[0].volatile == format(fss[0])
    && forall i :: 0 <= i < n ==> Acts(specs, events, fss, format, i)
  }

  /** At all times the durable blocks are the file system of the last commit. */
  lemma {:induction false} DurableIsLastCommit(
      specs: seq<Spec>, events: seq<Event>, fss: seq<Fs>, format: Format, n: nat, i: nat)
    requires Tracks(specs, events, fss, format, n) && i <= n
    ensures specs[i].durable == format(fss[LastCommit(events, i)])
    ensures Quiet(specs[i]) ==> specs[i].volatile == format(fss[i])
  {
    if i > 0 {
      DurableIsLastCommit(specs, events, fss, format, n, i - 1);
      assert SpecNext(specs[i - 1], events[i - 1], specs[i]);
      assert Acts(specs, events, fss, format, i - 1);
      if events[i - 1].Begin? {
        assert specs[i].active[events[i - 1].t];
      }
    }
  }

  /**
  When recovery finishes, however many crashes and partial recoveries came before, the log is
  clear and the home blocks hold the file system of the last commit.
  */
  lemma CrashKeepsCommitted(
      states: seq<State>, events: seq<Event>, specs: seq<Spec>, fss: seq<Fs>, format: Format, k: nat)
    requires Run(states, events) && Shown(states, specs) && k < |events| && events[k] == Recovered
    requires Tracks(specs, events, fss, format, |events|)
    ensures HeaderBlocks(states[k + 1].disk[states[k + 1].start]) == []
    ensures HomeBlocks(states[k + 1].start, states[k + 1].disk) == format(fss[LastCommit(events, k)])
  {
    hide SpecNext, Next, Init, LastCommit;
    DurableIsLastCommit(specs, events, fss, format, |events|, k + 1);
    NotACommit(events, k);
    RecoveryClears(states, events, k);
  }

  /** The states of the atomic store a run of the log refines. */
  ghost predicate Shown(states: seq<State>, specs: seq<Spec>) {
    |specs| == |states| && Geometry(states) && forall i :: 0 <= i < |states| ==> specs[i] == Abs(states[i])
  }

  lemma ShownRuns(states: seq<State>, events: seq<Event>, specs: seq<Spec>)
    requires Run(states, events) && Shown(states, specs)
    ensures SpecRun(specs, events)
    ensures specs[0].durable == specs[0].volatile == Image(states[0].start, states[0].disk)
  {
    var again := RunRefines(states, events);
    assert specs == again;
  }

  // ---------------------------------------------------------------------------------
  // Formats

  /** Block n is the indirect block of some inode, so it is read as words. */
  ghost predicate Indirect(fs: Fs, n: int)
    requires Shape(fs)
  {
    n != 0 && exists i :: 0 <= i < |fs.inodes| && fs.inodes[i].addrs[NDIRECT] == n
  }

  /** Block n is made of the same bits, inodes and contents, and read the same way. */
  ghost predicate SameAt(f: FileSys, fs: Fs, fs': Fs, n: int)
    requires Shape(fs) && Shape(fs') && SameSize(fs, fs')
  {
    && (forall b :: 0 <= b < |fs.used| && f.BBlock(b) == n ==> fs'.used[b] == fs.used[b])
    && (forall i :: 0 <= i < |fs.inodes| && f.IBlock(i) == n ==> fs'.inodes[i] == fs.inodes[i])
    && (0 <= n < |fs.used| ==> fs'.bytes[n] == fs.bytes[n] && fs'.words[n] == fs.words[n])
    && (Indirect(fs', n) <==> Indirect(fs, n))
  }

  /** A format in the layout of fs.c: block n depends on what lies in block n alone. */
  ghost predicate Local(f: FileSys, format: Format) {
    && (forall fs, fs' :: Shape(fs) && Shape(fs') && SameSize(fs, fs') ==> format(fs').Keys == format(fs).Keys)
    && (forall fs, fs', n :: Shape(fs) && Shape(fs') && SameSize(fs, fs') && SameAt(f, fs, fs', n) ==>
          n in format(fs) && n in format(fs') ==> format(fs')[n] == format(fs)[n])
  }

  /** Bit k after bit b0. */
  ghost function BitWord(fs: Fs, b0: int, k: int): int {
    if 0 <= b0 + k < |fs.used| && fs.used[b0 + k] then 1 else 0
  }

  /** A word of a disk inode: type, links, size and addresses. */
  ghost function DinodeWord(fs: Fs, i: int, w: int): int
    requires Shape(fs) && 0 <= w < 16
  {
    if !(0 <= i < |fs.inodes|) then 0
    else if w == 0 then fs.inodes[i].typ
    else if w == 1 then fs.inodes[i].nlink
    else if w == 2 then fs.inodes[i].size
    else fs.inodes[i].addrs[w - 3]
  }

  /** Block n of the disk: bitmap bits and inodes among the metadata, words or bytes after it. */
  ghost function BlockOf(f: FileSys, fs: Fs, n: int): Block
    requires Shape(fs) && 0 <= n < |fs.used|
  {
    if n >= fs.nmeta then Block(if Indirect(fs, n) then fs.words[n] else fs.bytes[n])
    else
      var b0, i0 := (n - f.bmapstart) * BPB, (n - f.inodestart) * IPB;
      Block(seq(BPB, (k: nat) => BitWord(fs, b0, k)) + seq(IPB * 16, (k: nat) => DinodeWord(fs, i0 + k / 16, k % 16)))
  }

  /** The disk of fs.c with its log at `start`. */
  ghost function DiskFormat(f: FileSys, start: nat): Format {
    (fs: Fs) =>
      if Shape(fs) then map n | 0 <= n < |fs.used| && Home(start, |fs.used|, n) :: BlockOf(f, fs, n) else map[]
  }

  lemma BlockOfLocal(f: FileSys, fs: Fs, fs': Fs, n: int)
    requires Shape(fs) && Shape(fs') && SameSize(fs, fs') && SameAt(f, fs, fs', n) && 0 <= n < |fs.used|
    ensures BlockOf(f, fs', n) == BlockOf(f, fs, n)
  {
    hide Indirect;
    if n < fs.nmeta {
      var b0, i0 := (n - f.bmapstart) * BPB, (n - f.inodestart) * IPB;
      forall k | 0 <= k < BPB
        ensures BitWord(fs', b0, k) == BitWord(fs, b0, k)
      {
        assert f.BBlock(b0 + k) == n;
      }
      forall i | i0 <= i < i0 + IPB && 0 <= i < |fs.inodes|
        ensures fs'.inodes[i] == fs.inodes[i]
      {
        assert f.IBlock(i) == n;
      }
      assert seq(BPB, (k: nat) => BitWord(fs', b0, k)) == seq(BPB, (k: nat) => BitWord(fs, b0, k));
      assert seq(IPB * 16, (k: nat) => DinodeWord(fs', i0 + k / 16, k % 16)) ==
             seq(IPB * 16, (k: nat) => DinodeWord(fs, i0 + k / 16, k % 16));
    }
  }

  /** The disk of fs.c is such a format. */
  lemma DiskIsLocal(f: FileSys, start: nat)
    ensures Local(f, DiskFormat(f, start))
  {
    hide BlockOf, SameAt;
    var format := DiskFormat(f, start);
    forall fs, fs' | Shape(fs) && Shape(fs') && SameSize(fs, fs')
      ensures format(fs').Keys == format(fs).Keys
    {
    }
    forall fs, fs', n | Shape(fs) && Shape(fs') && SameSize(fs, fs') && SameAt(f, fs, fs', n) &&
                        n in format(fs) && n in format(fs')
      ensures format(fs')[n] == format(fs)[n]
    {
      BlockOfLocal(f, fs, fs', n);
    }
  }

  // ---------------------------------------------------------------------------------
  // One operation

  /** A block an operation has not logged is an indirect block after it exactly if it was before. */
  lemma RoleKept(f: FileSys, fs: Fs, fs': Fs, l: set<int>, n: int)
    requires f.Journals(fs, fs', l) && n !in l
    ensures Indirect(fs', n) <==> Indirect(fs, n)
  {
    var owner :| Owned(fs, owner, {});
    var owner' :| Owned(fs', owner', {});
    if Indirect(fs, n) {
      var i :| 0 <= i < |fs.inodes| && fs.inodes[i].addrs[NDIRECT] == n;
      assert Val(fs', Slot(i, NDIRECT)) == Val(fs, Slot(i, NDIRECT));
    }
    if Indirect(fs', n) {
      var i :| 0 <= i < |fs'.inodes| && fs'.inodes[i].addrs[NDIRECT] == n;
      var sl := Slot(i, NDIRECT);
      SlotOwns(fs', owner', {}, sl, sl);
      assert f.NotedAt(fs, fs', l, n) && BlockOk(fs, owner, {}, n);
      assert Val(fs', owner[n]) == Val(fs, owner[n]);
      SlotOwns(fs', owner', {}, sl, owner[n]);
    }
  }

  /** What an operation logs covers every block of the format it changes. */
  lemma ChangesAreLogged(f: FileSys, format: Format, fs: Fs, fs': Fs, l: set<int>, n: int)
    requires Local(f, format) && f.Journals(fs, fs', l) && n in format(fs) && n !in l
    ensures n in format(fs') && format(fs')[n] == format(fs)[n]
  {
    RoleKept(f, fs, fs', l, n);
    assert n in format(fs').Keys;
    assert f.NotedAt(fs, fs', l, n);
    forall b | 0 <= b < |fs.used| && f.BBlock(b) == n
      ensures fs'.used[b] == fs.used[b]
    {
      assert f.NotedAt(fs, fs', l, b);
    }
    assert SameAt(f, fs, fs', n);
  }

  /** The writes among events lo .. hi leave block n with this value. */
  ghost predicate Leaves(events: seq<Event>, lo: nat, hi: nat, n: int, was: Block, v: Block)
    requires lo <= hi <= |events|
  {
    || (v == was && forall i :: lo <= i < hi ==> !WritesTo(events[i], n))
    || (exists w :: LastWrite(events, lo, hi, n, v, w))
  }

  ghost predicate LastWrite(events: seq<Event>, lo: nat, hi: nat, n: int, v: Block, w: int)
    requires lo <= hi <= |events|
  {
    lo <= w < hi && WritesTo(events[w], n) && events[w].v == v && forall i :: w < i < hi ==> !WritesTo(events[i], n)
  }

  lemma {:induction false} Untouched(specs: seq<Spec>, events: seq<Event>, lo: nat, hi: nat, n: int)
    requires SpecRun(specs, events) && lo <= hi <= |events| && NoneIn(events, lo, hi, {Crash})
    requires forall i :: lo <= i < hi ==> !WritesTo(events[i], n)
    ensures n in specs[hi].volatile <==> n in specs[lo].volatile
    ensures n in specs[lo].volatile ==> specs[hi].volatile[n] == specs[lo].volatile[n]
    decreases hi
  {
    if lo < hi {
      Untouched(specs, events, lo, hi - 1, n);
      assert SpecNext(specs[hi - 1], events[hi - 1], specs[hi]);
    }
  }

  lemma {:induction false} SameKeys(specs: seq<Spec>, events: seq<Event>, lo: nat, hi: nat)
    requires SpecRun(specs, events) && lo <= hi <= |events| && NoneIn(events, lo, hi, {Crash})
    ensures specs[hi].volatile.Keys == specs[lo].volatile.Keys
    decreases hi
  {
    if lo < hi {
      SameKeys(specs, events, lo, hi - 1);
      assert SpecNext(specs[hi - 1], events[hi - 1], specs[hi]);
      assert specs[hi].volatile.Keys == specs[hi - 1].volatile.Keys;
    }
  }

  lemma BlockLeft(specs: seq<Spec>, events: seq<Event>, b: nat, e: nat, n: int, was: Block, v: Block)
    requires SpecRun(specs, events) && b <= e <= |events| && NoneIn(events, b, e, {Crash})
    requires n in specs[b].volatile && specs[b].volatile[n] == was && Leaves(events, b, e, n, was, v)
    ensures n in specs[e].volatile && specs[e].volatile[n] == v
  {
    if w :| LastWrite(events, b, e, n, v, w) {
      StaysVisible(specs, events, w, e);
    } else {
      Untouched(specs, events, b, e, n);
    }
  }

  /**
  Event e ends the operation event b began, alone: it took the file system fs to fs' and logged
  the blocks l.  It writes no other block, and leaves each of these as fs' has it.
  */
  ghost predicate Operation(
      f: FileSys, format: Format, events: seq<Event>, fs: Fs, fs': Fs, b: nat, e: nat, l: set<int>)
  {
    && b < e < |events| && events[b].Begin? && f.Journals(fs, fs', l)
    && (forall i :: b < i < e ==> !events[i].Begin? && !events[i].End? && events[i] != Crash)
    && (forall i :: b <= i < e && events[i].Write? ==> events[i].b in l)
    && (forall n :: n in l && n in format(fs) && n in format(fs') ==>
          Leaves(events, b, e, n, format(fs)[n], format(fs')[n]))
  }

  /** Then at its end the blocks show the new file system, whole. */
  lemma OperationActs(f: FileSys, format: Format, specs: seq<Spec>, events: seq<Event>, b: nat, e: nat,
      fs: Fs, fs': Fs, l: set<int>)
    requires SpecRun(specs, events) && Local(f, format) && Operation(f, format, events, fs, fs', b, e, l)
    requires specs[b].volatile == format(fs)
    ensures specs[e].volatile == format(fs')
  {
    hide SpecNext;
    assert NoneIn(events, b, e, {Crash});
    SameKeys(specs, events, b, e);
    assert format(fs').Keys == format(fs).Keys;
    forall n | n in format(fs)
      ensures n in specs[e].volatile && n in format(fs') && specs[e].volatile[n] == format(fs')[n]
    {
      assert n in specs[e].volatile.Keys && n in format(fs').Keys;
      if n !in l {
        ChangesAreLogged(f, format, fs, fs', l, n);
        Untouched(specs, events, b, e, n);
      } else {
        BlockLeft(specs, events, b, e, n, format(fs)[n], format(fs')[n]);
      }
    }
    assert specs[e].volatile.Keys == format(fs').Keys;
  }

  // ---------------------------------------------------------------------------------
  // Operations one after another

  ghost predicate SerialAt(
      f: FileSys, format: Format, events: seq<Event>, fss: seq<Fs>, done: seq<seq<Put>>, i: nat)
    requires |fss| == |done| == |events| + 1 && i < |events|
  {
    match events[i]
    case End(_) => exists b: nat, l, put :: EndsWith(f, format, events, fss, done, i, b, l, put)
    case Crash => fss[i + 1] == fss[LastCommit(events, i)] && done[i + 1] == done[LastCommit(events, i)]
    case _ => fss[i + 1] == fss[i] && done[i + 1] == done[i]
  }

  /** Event e ends an operation that wrote `put` into a file. */
  ghost predicate EndsWith(f: FileSys, format: Format, events: seq<Event>, fss: seq<Fs>, done: seq<seq<Put>>,
      e: nat, b: nat, l: set<int>, put: Put)
    requires |fss| == |done| == |events| + 1 && e < |events|
  {
    && Operation(f, format, events, fss[e], fss[e + 1], b, e, l)
    && Chunk(fss[e], fss[e + 1], put) && done[e + 1] == done[e] + [put]
  }

  /** Each operation begins when no other is in progress, and carries the file system to the next. */
  ghost predicate Serial(
      f: FileSys, format: Format, specs: seq<Spec>, events: seq<Event>, fss: seq<Fs>, done: seq<seq<Put>>)
  {
    && |fss| == |done| == |specs| == |events| + 1 && done[0] == []
    && (forall i :: 0 <= i < |events| && events[i].Begin? ==> Quiet(specs[i]))
    && (forall i :: 0 <= i < |events| ==> SerialAt(f, format, events, fss, done, i))
  }

  lemma {:induction false} SameDuring(
      f: FileSys, format: Format, events: seq<Event>, fss: seq<Fs>, done: seq<seq<Put>>, b: nat, e: nat)
    requires |fss| == |done| == |events| + 1 && b <= e <= |events|
    requires forall i :: 0 <= i < |events| ==> SerialAt(f, format, events, fss, done, i)
    requires forall i :: b <= i < e ==> !events[i].End? && events[i] != Crash
    ensures fss[e] == fss[b]
    decreases e
  {
    hide LastCommit, EndsWith;
    if b < e {
      SameDuring(f, format, events, fss, done, b, e - 1);
      assert SerialAt(f, format, events, fss, done, e - 1);
    }
  }

  lemma EndShowsSame(specs: seq<Spec>, events: seq<Event>, e: nat)
    requires SpecRun(specs, events) && e < |events| && events[e].End?
    ensures specs[e + 1].volatile == specs[e].volatile
  {
    assert SpecNext(specs[e], events[e], specs[e + 1]);
  }

  lemma EndTracks(f: FileSys, format: Format, specs: seq<Spec>, events: seq<Event>, fss: seq<Fs>,
      done: seq<seq<Put>>, e: nat)
    requires Local(f, format) && Serial(f, format, specs, events, fss, done) && e < |events| && events[e].End?
    requires Tracks(specs, events, fss, format, e)
    ensures specs[e + 1].volatile == format(fss[e + 1])
  {
    hide Local, Leaves, SpecNext, LastCommit, Chunk;
    assert SerialAt(f, format, events, fss, done, e);
    var b: nat, l, put :| EndsWith(f, format, events, fss, done, e, b, l, put);
    SameDuring(f, format, events, fss, done, b, e);
    DurableIsLastCommit(specs, events, fss, format, e, b);
    OperationActs(f, format, specs, events, b, e, fss[e], fss[e + 1], l);
    EndShowsSame(specs, events, e);
  }

  /** So the file systems of a serial run are what its blocks show. */
  lemma {:induction false} SerialTracks(f: FileSys, format: Format, specs: seq<Spec>, events: seq<Event>,
      fss: seq<Fs>, done: seq<seq<Put>>, n: nat)
    requires SpecRun(specs, events) && Local(f, format) && Serial(f, format, specs, events, fss, done)
    requires specs[0].durable == specs[0].volatile == format(fss[0]) && n <= |events|
    ensures Tracks(specs, events, fss, format, n)
  {
    hide Local, EndsWith, SpecNext, LastCommit;
    if n > 0 {
      SerialTracks(f, format, specs, events, fss, done, n - 1);
      assert SerialAt(f, format, events, fss, done, n - 1);
      if events[n - 1].End? {
        EndTracks(f, format, specs, events, fss, done, n - 1);
      }
      assert Acts(specs, events, fss, format, n - 1);
    }
  }

  /** File j of fs is what the writes make of the file it was in fs0. */
  ghost predicate FileIs(fs0: Fs, fs: Fs, puts: seq<Put>, j: int) {
    && Shape(fs0) && Shape(fs) && 0 <= j < |fs0.inodes| == |fs.inodes| && FileOk(fs0, j) && FileOk(fs, j)
    && Content(fs, j) == Replay(Content(fs0, j), puts, j)
  }

  lemma FileIsMore(fs0: Fs, fs: Fs, fs': Fs, puts: seq<Put>, put: Put, j: int)
    requires FileIs(fs0, fs, puts, j) && Chunk(fs, fs', put)
    ensures FileIs(fs0, fs', puts + [put], j)
  {
    hide Shape, FileOk, Content, Overwrite;
    ReplayMore(Content(fs0, j), puts, put, j);
    if j != put.inum {
      assert SameFile(fs, fs', j);
    }
  }

  /** At every state each file is the first one with the writes of the operations that have ended. */
  lemma {:induction false} SerialFiles(f: FileSys, format: Format, specs: seq<Spec>, events: seq<Event>,
      fss: seq<Fs>, done: seq<seq<Put>>, i: nat, j: int)
    requires Serial(f, format, specs, events, fss, done) && i <= |events|
    requires Shape(fss[0]) && 0 <= j < |fss[0].inodes| && FileOk(fss[0], j)
    ensures FileIs(fss[0], fss[i], done[i], j)
  {
    hide LastCommit, Operation, Chunk, FileOk, Content;
    if i > 0 {
      SerialFiles(f, format, specs, events, fss, done, i - 1, j);
      assert SerialAt(f, format, events, fss, done, i - 1);
      if events[i - 1].End? {
        var b: nat, l, put :| EndsWith(f, format, events, fss, done, i - 1, b, l, put);
        FileIsMore(fss[0], fss[i - 1], fss[i], done[i - 1], put, j);
      } else if events[i - 1] == Crash {
        SerialFiles(f, format, specs, events, fss, done, LastCommit(events, i - 1), j);
      }
    }
  }

  /**
  After any crashes and a finished recovery, the home blocks are a file system in which every
  file has exactly the writes of the operations that had ended at the last commit.
  */
  lemma SerialWritesSurvive(states: seq<State>, events: seq<Event>, specs: seq<Spec>, f: FileSys, format: Format,
      fss: seq<Fs>, done: seq<seq<Put>>, k: nat)
    requires Run(states, events) && Shown(states, specs) && k < |events| && events[k] == Recovered
    requires Local(f, format) && Serial(f, format, specs, events, fss, done)
    requires Sound(fss[0]) && Image(states[0].start, states[0].disk) == format(fss[0])
    ensures HeaderBlocks(states[k + 1].disk[states[k + 1].start]) == []
    ensures var c := LastCommit(events, k);
            && HomeBlocks(states[k + 1].start, states[k + 1].disk) == format(fss[c])
            && forall j :: 0 <= j < |fss[0].inodes| ==> FileIs(fss[0], fss[c], done[c], j)
  {
    hide Local, Serial, FileIs, Run, LastCommit, Next;
    ShownRuns(states, events, specs);
    SerialLengths(f, format, specs, events, fss, done);
    SerialTracks(f, format, specs, events, fss, done, |events|);
    CrashKeepsCommitted(states, events, specs, fss, format, k);
    forall j | 0 <= j < |fss[0].inodes|
      ensures FileIs(fss[0], fss[LastCommit(events, k)], done[LastCommit(events, k)], j)
    {
      assert FileOk(fss[0], j);
      SerialFiles(f, format, specs, events, fss, done, LastCommit(events, k), j);
    }
  }

  lemma SerialLengths(
      f: FileSys, format: Format, specs: seq<Spec>, events: seq<Event>, fss: seq<Fs>, done: seq<seq<Put>>)
    requires Serial(f, format, specs, events, fss, done)
    ensures |fss| == |done| == |specs| == |events| + 1
  {
  }

  // ---------------------------------------------------------------------------------
  // A filewrite

  /**
  Event i of a run in which filewrite performs its transactions in turn: trace, ops and puts are
  its file systems, what it logged and what it wrote, and count[i] transactions have ended.
  */
  ghost predicate PerformsAt(f: FileSys, format: Format, events: seq<Event>, trace: seq<Fs>, ops: seq<set<int>>,
      count: seq<nat>, i: nat)
    requires |trace| == |ops| + 1 && |count| == |events| + 1 && i < |events|
    requires forall k :: 0 <= k < |count| ==> count[k] <= |ops|
  {
    match events[i]
    case End(_) =>
      count[i + 1] == count[i] + 1 && exists b: nat :: EndsTransaction(f, format, events, trace, ops, count[i], b, i)
    case Crash => count[i + 1] == count[LastCommit(events, i)]
    case _ => count[i + 1] == count[i]
  }

  ghost predicate EndsTransaction(f: FileSys, format: Format, events: seq<Event>, trace: seq<Fs>,
      ops: seq<set<int>>, m: nat, b: nat, e: nat)
    requires |trace| == |ops| + 1
  {
    m < |ops| && Operation(f, format, events, trace[m], trace[m + 1], b, e, ops[m])
  }

  ghost predicate Performs(f: FileSys, format: Format, specs: seq<Spec>, events: seq<Event>, trace: seq<Fs>,
      ops: seq<set<int>>, count: seq<nat>)
  {
    && |trace| == |ops| + 1 && |count| == |specs| == |events| + 1 && count[0] == 0
    && (forall k :: 0 <= k < |count| ==> count[k] <= |ops|)
    && (forall i :: 0 <= i < |events| && events[i].Begin? ==> Quiet(specs[i]))
    && (forall i :: 0 <= i < |events| ==> PerformsAt(f, format, events, trace, ops, count, i))
  }

  lemma PerformsSerially(f: FileSys, format: Format, specs: seq<Spec>, events: seq<Event>, trace: seq<Fs>,
      ops: seq<set<int>>, puts: seq<Put>, count: seq<nat>, fss: seq<Fs>, done: seq<seq<Put>>, i: nat)
    requires f.Transactions(trace, ops, puts) && Performs(f, format, specs, events, trace, ops, count)
    requires |fss| == |done| == |events| + 1 && i < |events|
    requires forall k :: 0 <= k < |fss| ==> fss[k] == trace[count[k]] && done[k] == puts[..count[k]]
    ensures SerialAt(f, format, events, fss, done, i)
  {
    hide Operation, Chunk, LastCommit;
    assert PerformsAt(f, format, events, trace, ops, count, i);
    if events[i].End? {
      var b: nat :| EndsTransaction(f, format, events, trace, ops, count[i], b, i);
      assert done[i + 1] == done[i] + [puts[count[i]]];
      assert EndsWith(f, format, events, fss, done, i, b, ops[count[i]], puts[count[i]]);
    }
  }

  /**
  A filewrite cut off by a crash anywhere in its operations, in a commit or in a recovery: once
  recovery has finished, the file has exactly the chunks whose operation had ended at the last
  commit, and every other file is as it was.  trace, ops and puts are what Filewrite returns.
  */
  lemma FilewriteSurvives(states: seq<State>, events: seq<Event>, specs: seq<Spec>, f: FileSys, format: Format,
      trace: seq<Fs>, ops: seq<set<int>>, puts: seq<Put>, count: seq<nat>,
      inum: int, off: int, src: seq<int>, sent: int, k: nat)
    requires Run(states, events) && Shown(states, specs) && k < |events| && events[k] == Recovered
    requires f.Transactions(trace, ops, puts) && Pieces(puts, inum, off, src, sent) && 0 <= off
    requires Local(f, format) && Performs(f, format, specs, events, trace, ops, count)
    requires Sound(trace[0]) && Image(states[0].start, states[0].disk) == format(trace[0])
    ensures HeaderBlocks(states[k + 1].disk[states[k + 1].start]) == []
    ensures var c := count[LastCommit(events, k)];
            var got := Sent(puts[..c]);
            && HomeBlocks(states[k + 1].start, states[k + 1].disk) == format(trace[c]) && got <= |src|
            && forall j :: 0 <= j < |trace[0].inodes| ==> Survives(trace[0], trace[c], inum, off, src[..got], j)
  {
    var fss := seq(|count|, i requires 0 <= i < |count| => trace[count[i]]);
    var done := seq(|count|, i requires 0 <= i < |count| => puts[..count[i]]);
    FilewriteIsSerial(f, format, specs, events, trace, ops, puts, count, fss, done);
    SerialWritesSurvive(states, events, specs, f, format, fss, done, k);
    var c := count[LastCommit(events, k)];
    PiecesPrefix(puts, inum, off, src, sent, c);
    ReplayPieces([], puts[..c], inum, off, src, Sent(puts[..c]), inum);
    forall j | 0 <= j < |trace[0].inodes|
      ensures Survives(trace[0], trace[c], inum, off, src[..Sent(puts[..c])], j)
    {
      assert FileIs(fss[0], fss[LastCommit(events, k)], done[LastCommit(events, k)], j);
      ReplayPieces(Content(trace[0], j), puts[..c], inum, off, src, Sent(puts[..c]), j);
    }
  }

  /** File j after some bytes have gone into file inum. */
  ghost predicate Survives(fs0: Fs, fs: Fs, inum: int, off: int, bytes: seq<int>, j: int) {
    && Shape(fs0) && Shape(fs) && 0 <= j < |fs0.inodes| == |fs.inodes| && FileOk(fs0, j) && FileOk(fs, j)
    && Content(fs, j) == if j == inum then PutInto(Content(fs0, j), off, bytes) else Content(fs0, j)
  }

  lemma FilewriteIsSerial(f: FileSys, format: Format, specs: seq<Spec>, events: seq<Event>, trace: seq<Fs>,
      ops: seq<set<int>>, puts: seq<Put>, count: seq<nat>, fss: seq<Fs>, done: seq<seq<Put>>)
    requires f.Transactions(trace, ops, puts) && Performs(f, format, specs, events, trace, ops, count)
    requires |fss| == |done| == |events| + 1
    requires forall k :: 0 <= k < |fss| ==> fss[k] == trace[count[k]] && done[k] == puts[..count[k]]
    ensures Serial(f, format, specs, events, fss, done)
  {
    hide SerialAt;
    forall i | 0 <= i < |events|
      ensures SerialAt(f, format, events, fss, done, i)
    {
      PerformsSerially(f, format, specs, events, trace, ops, puts, count, fss, done, i);
    }
  }
}
