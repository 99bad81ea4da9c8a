/**
commit() and recover_from_log() as the loops they are, writing one block at a time.  The
ghost `trail` keeps the disk after every single write, so that a crash between any two
writes is a crash at some element of the trail.
*/
module RedoLog {
  import opened LogLayout
  import opened Params

  /** Recovery from any of these disks would give this image. */
  ghost predicate Show(start: nat, size: nat, disks: seq<seq<Block>>, image: map<int, Block>)
    requires start + LOGBLOCKS < size
  {
    forall k :: 0 <= k < |disks| ==> |disks[k]| == size && Image(start, disks[k]) == image
  }

  predicate AllCached(listed: seq<int>, cached: map<int, Block>) {
    forall i :: 0 <= i < |listed| ==> listed[i] in cached
  }

  /** The cached contents of the listed blocks. */
  function Contents(listed: seq<int>, cached: map<int, Block>): seq<Block>
    requires AllCached(listed, cached)
  {
    seq(|listed|, i requires 0 <= i < |listed| => cached[listed[i]])
  }

  class Log {
    const start: nat
    var disk: seq<Block>
    var n: nat
    const block: array<int>
    ghost var trail: seq<seq<Block>>

    constructor (start: nat, disk: seq<Block>)
      requires start + LOGBLOCKS < |disk|
      ensures Valid() && fresh(block) && n == 0 && trail == []
      ensures this.start == start && this.disk == disk
    {
      this.start, this.disk := start, disk;
      n, trail := 0, [];
      block := new int[LOGBLOCKS];
    }

    ghost predicate Valid()
      reads this, block
    {
      && block.Length == LOGBLOCKS && n <= LOGBLOCKS
      && start + LOGBLOCKS < |disk|
    }

    /** The in-memory list of logged blocks. */
    function Listed(): seq<int>
      requires Valid()
      reads this, block
    {
      block[..n]
    }

    /** The header block holds the whole of struct logheader. */
    ghost predicate HeaderFits()
      requires Valid()
      reads this, block
    {
      |disk[start].words| > LOGBLOCKS
    }

    /** bwrite: one block, atomically. */
    method WriteBlock(b: int, v: Block)
      requires Valid() && 0 <= b < |disk|
      modifies this`disk, this`trail
      ensures disk == old(disk)[b := v] && trail == old(trail) + [disk]
      ensures Valid()
    {
      disk := disk[b := v];
      trail := trail + [disk];
    }

    /** The list half of log_write; the result is false when the C code panics. */
    method Record(b: int) returns (ok: bool)
      requires Valid()
      modifies this`n, block
      ensures Valid()
      ensures ok <==> old(n) < LOGBLOCKS
      ensures Listed() == if ok && b !in old(Listed()) then old(Listed()) + [b] else old(Listed())
    {
      if n >= LOGBLOCKS {
        return false;
      }
      var i := 0;
      while i < n && block[i] != b
        invariant i <= n
        invariant b !in block[..i]
      {
        i := i + 1;
      }
      ghost var was := block[..n];
      block[i] := b;
      if i == n {
        n := n + 1;
      } else {
        assert was[i] == b;
      }
      return true;
    }

    /** Copy the cached contents of each listed block to the log. */
    method WriteLog(cached: map<int, Block>)
      requires Valid() && HeaderBlocks(disk[start]) == [] && trail == []
      requires AllCached(Listed(), cached)
      modifies this`disk, this`trail
      ensures Valid() && |disk| == old(|disk|) && disk[start] == old(disk[start]) && |trail| == n
      ensures Show(start, |disk|, trail, Image(start, old(disk)))
      ensures Image(start, disk) == Image(start, old(disk))
      ensures disk[start + 1..start + 1 + n] == Contents(Listed(), cached)
    {
      hide Image;
      var listed := Listed();
      for tail := 0 to n
        invariant |disk| == old(|disk|) && disk[start] == old(disk[start]) && |trail| == tail
        invariant Show(start, |disk|, trail, Image(start, old(disk)))
        invariant Image(start, disk) == Image(start, old(disk))
        invariant disk[start + 1..start + 1 + tail] == Contents(listed, cached)[..tail]
      {
        ghost var before := disk;
        var contents := cached[listed[tail]];
        WriteBlock(start + 1 + tail, contents);
        LogWriteInvisible(start, before, tail, contents, disk);
        assert disk[start + 1..start + 2 + tail] == before[start + 1..start + 1 + tail] + [contents];
      }
    }

    /** Write the in-memory header into the header block. */
    method WriteHead()
      requires Valid() && HeaderFits()
      modifies this`disk, this`trail
      ensures Valid() && HeaderFits()
      ensures disk == old(disk)[start := PutHeader(old(disk)[start], Listed())]
      ensures trail == old(trail) + [disk]
    {
      var words := disk[start].words;
      words := words[0 := n];
      for i := 0 to n
        invariant |words| == |disk[start].words| && words[0] == n
        invariant words[1..1 + i] == block[..i]
        invariant words[1 + i..] == disk[start].words[1 + i..]
      {
        words := words[1 + i := block[i]];
      }
      assert words == [words[0]] + words[1..1 + n] + words[1 + n..];
      WriteBlock(start, Block(words));
    }

    /** Copy each listed block from the log to its home. */
    method InstallTrans()
      requires Valid() && HeaderBlocks(disk[start]) == Listed() && GoodList(start, |disk|, Listed())
      modifies this`disk, this`trail
      ensures Valid() && |disk| == old(|disk|) && disk[start] == old(disk[start])
      ensures |trail| == old(|trail|) + n && trail[..old(|trail|)] == old(trail)
      ensures Show(start, |disk|, trail[old(|trail|)..], Image(start, old(disk)))
      ensures Image(start, disk) == Image(start, old(disk))
      ensures Installed(start, disk, Listed(), n)
    {
      var listed := Listed();
      ghost var first, image := |trail|, Image(start, disk);
      for tail := 0 to n
        invariant |disk| == old(|disk|) && disk[start] == old(disk[start])
        invariant |trail| == first + tail && trail[..first] == old(trail)
        invariant Show(start, |disk|, trail[first..], image)
        invariant Image(start, disk) == image
        invariant Installed(start, disk, listed, tail)
      {
        ghost var before := disk;
        assert Home(start, |disk|, listed[tail]);
        WriteBlock(listed[tail], disk[start + 1 + tail]);
        InstallInvisible(start, before, listed, tail, disk);
        InstallExtends(start, before, listed, tail, disk);
      }
    }

    /** Zero the count and write the header: the end of both commit and recovery. */
    method ClearLog()
      requires Valid() && HeaderFits() && GoodHeader(start, |disk|, disk[start])
      requires var listed := HeaderBlocks(disk[start]); Installed(start, disk, listed, |listed|)
      modifies this
      ensures Valid() && HeaderFits() && n == 0 && |disk| == old(|disk|)
      ensures HeaderBlocks(disk[start]) == [] && trail == old(trail) + [disk]
      ensures Image(start, disk) == Image(start, old(disk)) == HomeBlocks(start, disk)
    {
      ghost var before := disk;
      n := 0;
      WriteHead();
      InstalledIsHome(start, before, HeaderBlocks(before[start]));
      ClearInvisible(start, before, before[start], disk);
      EmptyHeader(start, disk);
    }

    /**
    commit().  A crash before write number |listed| (the header) recovers to the image
    before the transaction; a crash at or after it recovers to the image with every
    listed block replaced by its cached contents.
    */
    method Commit(cached: map<int, Block>)
      requires Valid() && HeaderFits() && HeaderBlocks(disk[start]) == [] && trail == []
      requires GoodList(start, |disk|, Listed())
      requires AllCached(Listed(), cached)
      modifies this
      ensures Valid() && HeaderFits() && n == 0 && |disk| == old(|disk|)
      ensures |trail| == if old(n) == 0 then 0 else 2 * old(n) + 2
      ensures var before, listed := Image(start, old(disk)), old(Listed());
              var after := Overlay(before, listed, Contents(listed, cached));
              && Show(start, |disk|, trail[..old(n)], before)
              && Show(start, |disk|, trail[old(n)..], after)
              && HomeBlocks(start, disk) == after
      ensures HeaderBlocks(disk[start]) == []
    {
      if n == 0 {
        EmptyHeader(start, disk);
        return;
      }
      CommitListed(cached);
    }

    /** The four phases of commit() when something is logged. */
    method CommitListed(cached: map<int, Block>)
      requires Valid() && HeaderFits() && HeaderBlocks(disk[start]) == [] && trail == []
      requires GoodList(start, |disk|, Listed()) && n > 0
      requires AllCached(Listed(), cached)
      modifies this
      ensures Valid() && HeaderFits() && n == 0 && |disk| == old(|disk|)
      ensures |trail| == 2 * old(n) + 2
      ensures var before, listed := Image(start, old(disk)), old(Listed());
              var after := Overlay(before, listed, Contents(listed, cached));
              && Show(start, |disk|, trail[..old(n)], before)
              && Show(start, |disk|, trail[old(n)..], after)
              && HomeBlocks(start, disk) == after
      ensures HeaderBlocks(disk[start]) == []
    {
      hide Image, HomeBlocks, HeaderBlocks;
      ghost var before, listed, count := Image(start, disk), Listed(), n;
      ghost var after := Overlay(before, listed, Contents(listed, cached));
      WriteLog(cached);
      ghost var logged, early := disk, trail;
      WriteHead();
      ghost var committed := disk;
      assert Image(start, committed) == after by {
        HeaderWriteCommits(start, logged, listed, Contents(listed, cached), logged[start], committed);
      }
      InstallTrans();
      ghost var installed := trail[count + 1..];
      ClearLog();
      assert trail == early + ([committed] + installed + [disk]);
      assert trail[..count] == early && trail[count..] == [committed] + installed + [disk];
    }

    /** Read the on-disk header back into memory. */
    method ReadHead()
      requires Valid() && HeaderFits() && GoodHeader(start, |disk|, disk[start])
      modifies this`n, block
      ensures Valid() && Listed() == HeaderBlocks(disk[start])
    {
      var listed := HeaderBlocks(disk[start]);
      n := |listed|;
      for i := 0 to n
        invariant n == |listed| <= LOGBLOCKS
        invariant block[..i] == listed[..i]
      {
        block[i] := listed[i];
      }
    }

    /**
    recover_from_log().  At every write, hence at every crash during recovery, the image
    is the one recovery started from; at the end it is in place and the log is clear.
    */
    method RecoverFromLog()
      requires Valid() && HeaderFits() && GoodHeader(start, |disk|, disk[start]) && trail == []
      modifies this, block
      ensures Valid() && n == 0 && |disk| == old(|disk|)
      ensures Show(start, |disk|, trail, Image(start, old(disk)))
      ensures HomeBlocks(start, disk) == Image(start, old(disk)) && HeaderBlocks(disk[start]) == []
    {
      ReadHead();
      InstallTrans();
      ghost var installed := trail;
      assert trail[0..] == trail;
      ClearLog();
      assert trail == installed + [disk];
    }
  }
}
