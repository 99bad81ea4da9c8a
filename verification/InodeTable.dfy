/** iget, ilock, iput and ireclaim of fs.c: the table of active inodes. */
module InodeTable {
  import opened FileModel
  import opened FileSystem

  /** An entry of itable with its copy of the inode, which means nothing unless `valid`. */
  datatype Entry = Entry(ref: int, inum: int, valid: bool, ip: Inode)

  /** An allocated inode without links, left behind by a crash. */
  predicate Orphan(i: Inode) {
    i.typ != 0 && i.nlink == 0
  }

  ghost predicate EntryOk(e: Entry, dinodes: seq<Inode>) {
    e.ref >= 0 && (e.ref > 0 ==> 0 <= e.inum < |dinodes| && (e.valid ==> e.ip == dinodes[e.inum]))
  }

  predicate NoneActive(table: seq<Entry>) {
    forall i :: 0 <= i < |table| ==> table[i].ref == 0
  }

  predicate Active(table: seq<Entry>, inum: int) {
    exists i :: 0 <= i < |table| && table[i].ref > 0 && table[i].inum == inum
  }

  class Itable {
    const fs: FileSys
    var table: seq<Entry>

    /** No inode is in the table twice; between operations valid copies and the disk agree. */
    ghost predicate Valid()
      reads this, fs
    {
      && fs.Valid() && fs.dinodes == fs.inodes
      && (forall i :: 0 <= i < |table| ==> EntryOk(table[i], fs.dinodes))
      && (forall i, j :: 0 <= i < j < |table| && table[i].ref > 0 && table[j].ref > 0 ==>
             table[i].inum != table[j].inum)
    }

    /** iinit, on a mounted file system; the copies hold whatever memory held. */
    constructor (fs: FileSys, junk: seq<Inode>)
      requires fs.Valid() && fs.dinodes == fs.inodes
      ensures Valid() && this.fs == fs && |table| == |junk| && NoneActive(table)
    {
      this.fs := fs;
      table := seq(|junk|, i requires 0 <= i < |junk| => Entry(0, 0, false, junk[i]));
    }

    /** iget: one more reference to the entry of inum, or the first empty entry recycled for it. */
    method Iget(inum: int) returns (slot: int)
      requires Valid() && 0 <= inum < |fs.inodes|
      requires exists i :: 0 <= i < |table| && (table[i].ref == 0 || table[i].inum == inum)
      modifies this`table
      ensures Valid() && |table| == |old(table)| && 0 <= slot < |table| && table == old(table)[slot := table[slot]]
      ensures var e := old(table)[slot];
              if Active(old(table), inum) then e.ref > 0 && e.inum == inum && table[slot] == e.(ref := e.ref + 1)
              else
                && e.ref == 0 && table[slot] == Entry(1, inum, false, e.ip)
                && forall i :: 0 <= i < slot ==> old(table)[i].ref != 0
    {
      var empty := -1;
      var ip := 0;
      while ip < |table|
        invariant 0 <= ip <= |table| && table == old(table)
        invariant forall i :: 0 <= i < ip ==> !(table[i].ref > 0 && table[i].inum == inum)
        invariant if empty == -1 then forall i :: 0 <= i < ip ==> table[i].ref != 0
                  else 0 <= empty < ip && table[empty].ref == 0 && forall i :: 0 <= i < empty ==> table[i].ref != 0
      {
        if table[ip].ref > 0 && table[ip].inum == inum {
          table := table[ip := table[ip].(ref := table[ip].ref + 1)];
          return ip;
        }
        if empty == -1 && table[ip].ref == 0 {
          empty := ip;
        }
        ip := ip + 1;
      }
      table := table[empty := table[empty].(ref := 1, inum := inum, valid := false)];
      return empty;
    }

    /** ilock: afterwards the copy is the inode on disk, whatever it was before; a free inode is a panic. */
    method Ilock(slot: int)
      requires Valid() && 0 <= slot < |table| && table[slot].ref >= 1
      requires !table[slot].valid ==> fs.dinodes[table[slot].inum].typ != 0
      modifies this`table
      ensures Valid()
      ensures var e := old(table)[slot];
              table == old(table)[slot := Entry(e.ref, e.inum, true, fs.dinodes[e.inum])]
    {
      var e := table[slot];
      if !e.valid {
        table := table[slot := e.(valid := true, ip := fs.dinodes[e.inum])];
      }
    }

    /**
    iput: the reference goes; if it was the last one to an inode without links, the file's blocks
    are freed and the inode is free, in memory and on disk.
    */
    method Iput(slot: int)
      requires Valid() && 0 <= slot < |table| && table[slot].ref >= 1
      modifies this`table, fs
      ensures Valid() && |table| == |old(table)| && |fs.inodes| == |old(fs.inodes)|
      ensures var e := old(table)[slot]; var last := e.ref == 1 && e.valid && e.ip.nlink == 0;
              && table == old(table)[slot := Entry(e.ref - 1, e.inum, e.valid && !last, table[slot].ip)]
              && (!last ==> fs.FS() == old(fs.FS()))
              && (last ==> fs.inodes[e.inum].typ == 0 && fs.inodes[e.inum].size == 0)
              && (last ==> Gone(old(fs.FS()), fs.FS(), e.inum))
    {
      var e := table[slot];
      if e.ref == 1 && e.valid && e.ip.nlink == 0 {
        ghost var before, own := fs.FS(), fs.owner;
        fs.Itrunc(e.inum);
        ghost var mid := fs.FS();
        fs.inodes := fs.inodes[e.inum := fs.inodes[e.inum].(typ := 0)];
        GoneValid(before, own, mid, fs.owner, e.inum, fs.FS());
        fs.Iupdate(e.inum);
        e := e.(valid := false, ip := fs.inodes[e.inum]);
      }
      table := table[slot := e.(ref := e.ref - 1)];
    }

    /** ireclaim's work on one inode. */
    method ReclaimOne(inum: int)
      requires Valid() && 0 <= inum < |fs.inodes| && |table| > 0 && NoneActive(table)
      modifies this`table, fs
      ensures Valid() && |table| == |old(table)| && NoneActive(table)
      ensures |fs.inodes| == |old(fs.inodes)| && !Orphan(fs.inodes[inum])
      ensures if Orphan(old(fs.inodes)[inum]) then Gone(old(fs.FS()), fs.FS(), inum) else fs.FS() == old(fs.FS())
    {
      if Orphan(fs.dinodes[inum]) {
        assert table[0].ref == 0;
        var slot := Iget(inum);
        Ilock(slot);
        Iput(slot);
      }
    }

    /**
    ireclaim, at boot: afterwards no inode but 0 is an orphan, exactly the blocks of the orphans
    are free that were not, and every other file is as it was.
    */
    method Ireclaim()
      requires Valid() && |table| > 0 && NoneActive(table)
      modifies this`table, fs
      ensures Valid() && |fs.inodes| == |old(fs.inodes)| && NoneActive(table)
      ensures forall i :: 1 <= i < |fs.inodes| ==> !Orphan(fs.dinodes[i])
      ensures Reclaimed(old(fs.FS()), fs.FS(), |fs.inodes|)
    {
      ghost var before := fs.FS();
      hide Owned, FilesOk, Reclaimed, Gone;
      ReclaimedNone(before);
      var inum := 1;
      while inum < |fs.inodes|
        invariant Valid() && |fs.inodes| == |before.inodes| && 1 <= inum && |table| > 0 && NoneActive(table)
        invariant inum <= |fs.inodes| || |fs.inodes| == 0
        invariant Shape(before) && Reclaimed(before, fs.FS(), inum)
      {
        ghost var now := fs.FS();
        ReclaimOne(inum);
        ReclaimedMore(before, now, fs.FS(), inum);
        inum := inum + 1;
      }
      ReclaimedAll(before, fs.FS(), inum);
    }
  }

  // ---------------------------------------------------------------------------------
  // Giving up a file

  ghost predicate HoldsAt(fs: Fs, inum: int, k: int, b: int)
    requires Shape(fs)
  {
    SlotIn(fs, Slot(inum, k)) && b != 0 && Val(fs, Slot(inum, k)) == b
  }

  /** Block b is one of the blocks of inode inum. */
  ghost predicate Holds(fs: Fs, inum: int, b: int)
    requires Shape(fs)
  {
    exists k :: HoldsAt(fs, inum, k, b)
  }

  lemma HoldsOwned(fs: Fs, owner: Owner, inum: int, b: int)
    requires Owned(fs, owner, {})
    ensures Holds(fs, inum, b) <==> b in owner && owner[b].inum == inum
  {
    if Holds(fs, inum, b) {
      var k :| HoldsAt(fs, inum, k, b);
      assert SlotOk(fs, owner, Slot(inum, k));
    }
    if b in owner && owner[b].inum == inum {
      assert BlockOk(fs, owner, {}, b);
      assert owner[b] == Slot(inum, owner[b].k);
      assert HoldsAt(fs, inum, owner[b].k, b);
    }
  }

  /** Inode inum holds no block any more, the blocks it had are free, and nothing else changed. */
  ghost predicate Gone(fs: Fs, fs': Fs, inum: int)
    requires Shape(fs)
  {
    && Shape(fs') && |fs'.used| == |fs.used| && |fs'.inodes| == |fs.inodes| && fs'.bytes == fs.bytes
    && (forall i :: 0 <= i < |fs.inodes| && i != inum ==> fs'.inodes[i] == fs.inodes[i])
    && (forall b :: 0 <= b < |fs.used| ==> (fs'.used[b] <==> fs.used[b] && !Holds(fs, inum, b)))
    && (forall sl {:trigger Val(fs', sl)} :: SlotIn(fs, sl) ==>
           Val(fs', sl) == if sl.inum == inum then 0 else Val(fs, sl))
  }

  lemma GoneValid(fs: Fs, own: Owner, mid: Fs, owner: Owner, inum: int, fs': Fs)
    requires Owned(fs, own, {}) && Owned(mid, owner, {}) && FilesOk(mid) && 0 <= inum < |fs.inodes| == |mid.inodes|
    requires Dropped(fs, own, Resize(mid, inum, fs.inodes[inum].size), owner, inum, SLOTS)
    requires fs' == mid.(inodes := mid.inodes[inum := mid.inodes[inum].(typ := 0)])
    ensures Owned(fs', owner, {}) && FilesOk(fs') && Gone(fs, fs', inum)
  {
    var drop := Resize(mid, inum, fs.inodes[inum].size);
    forall sl | SlotIn(fs, sl) ensures Val(fs', sl) == Val(mid, sl) == Val(drop, sl) { }
    forall sl ensures SlotOk(fs', owner, sl) {
      assert SlotOk(mid, owner, sl);
    }
    forall b ensures BlockOk(fs', owner, {}, b) {
      assert BlockOk(mid, owner, {}, b) && BlockOk(fs, own, {}, b);
    }
    forall b | 0 <= b < |fs.used|
      ensures fs'.used[b] <==> fs.used[b] && !Holds(fs, inum, b)
    {
      assert BlockOk(fs, own, {}, b);
      HoldsOwned(fs, own, inum, b);
    }
    forall i | 0 <= i < |fs'.inodes| ensures FileOk(fs', i) {
      assert FileOk(mid, i);
    }
  }

  ghost function Resize(fs: Fs, inum: int, size: int): Fs
    requires 0 <= inum < |fs.inodes|
  {
    fs.(inodes := fs.inodes[inum := fs.inodes[inum].(size := size)])
  }

  // ---------------------------------------------------------------------------------
  // All orphans

  ghost predicate OrphanBelow(fs: Fs, n: int, i: int) {
    1 <= i < n && i < |fs.inodes| && Orphan(fs.inodes[i])
  }

  /** Block b belongs to an orphan among inodes 1 .. n. */
  ghost predicate OrphanHolds(fs: Fs, n: int, b: int)
    requires Shape(fs)
  {
    exists i :: OrphanBelow(fs, n, i) && Holds(fs, i, b)
  }

  /** The orphans among inodes 1 .. n are gone with exactly their blocks. */
  ghost predicate Reclaimed(fs: Fs, fs': Fs, n: int)
    requires Shape(fs)
  {
    && Shape(fs') && |fs'.used| == |fs.used| && |fs'.inodes| == |fs.inodes| && fs'.bytes == fs.bytes
    && (forall i :: 0 <= i < |fs.inodes| && !OrphanBelow(fs, n, i) ==> fs'.inodes[i] == fs.inodes[i])
    && (forall i :: 1 <= i < n && i < |fs.inodes| ==> !Orphan(fs'.inodes[i]))
    && (forall sl {:trigger Val(fs', sl)} :: SlotIn(fs, sl) && !OrphanBelow(fs, n, sl.inum) ==>
           Val(fs', sl) == Val(fs, sl))
    && (forall b :: 0 <= b < |fs.used| ==> (fs'.used[b] <==> fs.used[b] && !OrphanHolds(fs, n, b)))
  }

  lemma ReclaimedNone(fs: Fs)
    requires Shape(fs)
    ensures Reclaimed(fs, fs, 1)
  {
  }

  lemma ReclaimedAll(fs: Fs, fs': Fs, n: int)
    requires Shape(fs) && Reclaimed(fs, fs', n) && n >= |fs.inodes|
    ensures Reclaimed(fs, fs', |fs.inodes|)
    ensures forall i :: 1 <= i < |fs'.inodes| ==> !Orphan(fs'.inodes[i])
  {
    assert forall i :: OrphanBelow(fs, n, i) <==> OrphanBelow(fs, |fs.inodes|, i);
    assert forall b :: OrphanHolds(fs, n, b) <==> OrphanHolds(fs, |fs.inodes|, b);
  }

  lemma ReclaimedMore(fs: Fs, mid: Fs, fs': Fs, n: int)
    requires Shape(fs) && Reclaimed(fs, mid, n) && 1 <= n < |fs.inodes|
    requires if Orphan(mid.inodes[n]) then Gone(mid, fs', n) && !Orphan(fs'.inodes[n]) else fs' == mid
    ensures Reclaimed(fs, fs', n + 1)
  {
    assert mid.inodes[n] == fs.inodes[n];
    forall b
      ensures OrphanHolds(fs, n + 1, b) <==> OrphanHolds(fs, n, b) || (Orphan(fs.inodes[n]) && Holds(mid, n, b))
    {
      assert forall k :: HoldsAt(mid, n, k, b) <==> HoldsAt(fs, n, k, b);
      assert forall i :: OrphanBelow(fs, n + 1, i) <==> OrphanBelow(fs, n, i) || (i == n && Orphan(fs.inodes[n]));
    }
    hide OrphanHolds, Holds;
    assert forall i :: OrphanBelow(fs, n + 1, i) <==> OrphanBelow(fs, n, i) || (i == n && Orphan(fs.inodes[n]));
  }
}
