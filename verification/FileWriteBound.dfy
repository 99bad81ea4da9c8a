/**
The bound on what one chunk of filewrite logs is exact: a disk of four bitmap blocks, full but for
one block in each, and a write that starts in the last byte of a file's twelfth block.
*/
module FileWriteBound {
  import opened FileModel
  import opened FileSystem
  import opened Params

  const SIZE: nat := 32768
  const NMETA: nat := 8179
  const FIRST: nat := 8192
  const SHARE: nat := 256
  const NINODES: nat := 98
  const OFFSET: nat := 12287

  /** The four free blocks, each in a bitmap block of its own. */
  predicate Spare(b: int) {
    b == 8191 || b == 8447 || b == 16639 || b == 24831
  }

  /** The block slot k of inode i names: file 1 has twelve direct blocks, each other file 256 in a row. */
  function Address(i: int, k: int): int {
    if i == 1 then (if 0 <= k < 12 then NMETA + k else 0)
    else if i >= 2 && 0 <= k < SHARE && !Spare(FIRST + (i - 2) * SHARE + k) then FIRST + (i - 2) * SHARE + k
    else 0
  }

  function ExampleInode(i: int): Inode {
    Inode(2, 1, if i == 0 then 0 else if i == 1 then OFFSET else 254 * BSIZE, seq(NDIRECT + 1, k => Address(i, k)))
  }

  /** The entries of an indirect block: slot 12 of a file from 2 on. */
  function ExampleWord(b: int, j: int): int {
    if b >= FIRST && (b - FIRST) % SHARE == NDIRECT then Address((b - FIRST) / SHARE + 2, NDIRECT + 1 + j) else 0
  }

  function ExampleUsed(): seq<bool> {
    seq(SIZE, b => !Spare(b))
  }

  function ExampleInodes(): seq<Inode> {
    seq(NINODES, i => ExampleInode(i))
  }

  function ExampleWords(): seq<seq<int>> {
    seq(SIZE, b => seq(NINDIRECT, j => ExampleWord(b, j)))
  }

  function ExampleBytes(): seq<seq<int>> {
    seq(SIZE, _ => seq(BSIZE, _ => 0))
  }

  ghost function Example(): Fs {
    Fs(NMETA, ExampleUsed(), ExampleInodes(), ExampleWords(), ExampleBytes())
  }

  ghost function OwnerOf(b: int): Slot {
    if b < FIRST then Slot(1, b - NMETA) else Slot((b - FIRST) / SHARE + 2, (b - FIRST) % SHARE)
  }

  ghost function ExampleOwner(): Owner {
    map b | NMETA <= b < SIZE && !Spare(b) :: OwnerOf(b)
  }

  lemma ExampleShape()
    ensures Shape(Example())
  {
  }

  lemma ExampleVal(i: int, k: int)
    requires 0 <= i < NINODES && 0 <= k < SLOTS
    ensures Shape(Example()) && Val(Example(), Slot(i, k)) == Address(i, k)
  {
    ExampleShape();
    var fs := Example();
    assert fs.inodes[i].addrs[NDIRECT] == Address(i, NDIRECT);
    if k > NDIRECT && i >= 2 {
      var ind := FIRST + (i - 2) * SHARE + NDIRECT;
      assert !Spare(ind) && (ind - FIRST) / SHARE == i - 2 && (ind - FIRST) % SHARE == NDIRECT;
      assert fs.words[ind][k - NDIRECT - 1] == ExampleWord(ind, k - NDIRECT - 1);
    }
  }

  /** Every address names a block that names it back. */
  lemma AddressOwned(i: int, k: int)
    requires 0 <= i < NINODES && 0 <= k < SLOTS && Address(i, k) != 0
    ensures NMETA <= Address(i, k) < SIZE && !Spare(Address(i, k)) && OwnerOf(Address(i, k)) == Slot(i, k)
  {
  }

  lemma OwnerAddress(b: int)
    requires NMETA <= b < SIZE && !Spare(b)
    ensures var sl := OwnerOf(b); 0 <= sl.inum < NINODES && 0 <= sl.k < SLOTS && Address(sl.inum, sl.k) == b
  {
  }

  lemma ExampleOwned()
    ensures Owned(Example(), ExampleOwner(), {}) && FilesOk(Example())
  {
    var fs, owner := Example(), ExampleOwner();
    ExampleShape();
    forall sl ensures SlotOk(fs, owner, sl) {
      if SlotIn(fs, sl) && Val(fs, sl) != 0 {
        ExampleVal(sl.inum, sl.k);
        AddressOwned(sl.inum, sl.k);
      }
    }
    forall b ensures BlockOk(fs, owner, {}, b) {
      if NMETA <= b < SIZE && !Spare(b) {
        OwnerAddress(b);
        ExampleVal(OwnerOf(b).inum, OwnerOf(b).k);
      }
    }
    forall i | 0 <= i < |fs.inodes| ensures FileOk(fs, i) {
      ExampleFile(i);
    }
  }

  lemma ExampleFile(i: int)
    requires 0 <= i < NINODES
    ensures Shape(Example()) && FileOk(Example(), i)
  {
    var fs := Example();
    ExampleShape();
    assert fs.inodes[i] == ExampleInode(i);
    forall bn {:trigger SlotFor(i, bn)} | 0 <= bn < MAXFILE && bn * BSIZE < fs.inodes[i].size
      ensures Val(fs, SlotFor(i, bn)) != 0
    {
      ExampleVal(i, SlotFor(i, bn).k);
    }
  }

  // ---------------------------------------------------------------------------------
  // The write

  /** A block that was not in its slot before was one of the spare ones. */
  lemma NewIsSpare(fs: Fs, owner: Owner, sl: Slot)
    requires Owned(fs, owner, {}) && fs.nmeta == NMETA && |fs.used| == SIZE && |fs.inodes| == NINODES
    requires Shape(Example()) && Stays(Example(), fs) && SlotIn(fs, sl) && Val(fs, sl) != 0
    requires Address(sl.inum, sl.k) == 0
    ensures Spare(Val(fs, sl)) && fs.used[Val(fs, sl)]
  {
    var v := Val(fs, sl);
    SlotOwns(fs, owner, {}, sl, sl);
    if !Spare(v) {
      OwnerAddress(v);
      var was := OwnerOf(v);
      ExampleVal(was.inum, was.k);
      assert Val(fs, was) == v;
      SlotOwns(fs, owner, {}, sl, was);
    }
  }

  /** Whether the write got through or ran out of blocks, all four are in use after it. */
  lemma AllSpareUsed(fs: Fs, owner: Owner, b: int)
    requires Owned(fs, owner, {}) && FilesOk(fs) && fs.nmeta == NMETA && |fs.used| == SIZE && |fs.inodes| == NINODES
    requires Shape(Example()) && Stays(Example(), fs) && Spare(b)
    requires fs.inodes[1].size == OFFSET + 3072 || forall x :: 0 <= x < SIZE ==> fs.used[x]
    ensures fs.used[b]
  {
    if fs.inodes[1].size == OFFSET + 3072 {
      assert FileOk(fs, 1);
      assert Val(fs, SlotFor(1, 12)) != 0 && Val(fs, SlotFor(1, 13)) != 0 && Val(fs, SlotFor(1, 14)) != 0;
      NewIsSpare(fs, owner, Slot(1, 12));
      NewIsSpare(fs, owner, Slot(1, 13));
      NewIsSpare(fs, owner, Slot(1, 14));
      NewIsSpare(fs, owner, Slot(1, 15));
      SlotOwns(fs, owner, {}, Slot(1, 12), Slot(1, 13));
      SlotOwns(fs, owner, {}, Slot(1, 12), Slot(1, 14));
      SlotOwns(fs, owner, {}, Slot(1, 12), Slot(1, 15));
      SlotOwns(fs, owner, {}, Slot(1, 13), Slot(1, 14));
      SlotOwns(fs, owner, {}, Slot(1, 13), Slot(1, 15));
      SlotOwns(fs, owner, {}, Slot(1, 14), Slot(1, 15));
    }
  }

  lemma TenBlocks(logged: set<int>)
    requires {40, 100, 101, 102, 103, 8190, 8191, 8447, 16639, 24831} <= logged
    ensures |logged| >= 10
  {
    SubsetCount({40, 100, 101, 102, 103, 8190, 8191, 8447, 16639, 24831}, logged);
  }

  /** The first byte written changed the file's twelfth block. */
  lemma FirstByte(fs: Fs, src: seq<int>, r: int)
    requires Shape(Example()) && Shape(fs) && |fs.inodes| == NINODES && |fs.used| == SIZE && Stays(Example(), fs)
    requires FileOk(fs, 1) && FileOk(Example(), 1)
    requires 1 <= r <= |src| && src[0] == 7 && Content(fs, 1) == Overwrite(Content(Example(), 1), OFFSET, src[..r])
    ensures fs.bytes[8190] != Example().bytes[8190]
  {
    ExampleVal(1, 11);
    assert Val(fs, SlotFor(1, 11)) == 8190;
    assert Content(fs, 1)[OFFSET] == 7;
    assert OFFSET / BSIZE == 11 && OFFSET % BSIZE == 1023;
    assert fs.bytes[8190][1023] == 7 && Example().bytes[8190][1023] == 0;
  }

  /** A chunk whose transaction is exactly the reservation of MAXOPBLOCKS blocks. */
  method TightWrite() returns (fs: FileSys, r: int)
    ensures fs.Valid() && r >= 1 && |fs.logged| == MAXOPBLOCKS
  {
    ExampleOwned();
    ExampleFile(1);
    fs := new FileSys(NMETA, 40, 100, ExampleUsed(), ExampleInodes(), ExampleWords(), ExampleBytes(), ExampleOwner());
    ghost var before := fs.FS();
    assert before == Example() && before.inodes[1] == ExampleInode(1);
    var src := seq(3072, _ => 7);
    r := fs.WriteOp(1, OFFSET, src, -1);
    ghost var after := fs.FS();
    ExampleVal(1, 11);
    assert Val(after, SlotFor(1, 11)) == 8190;
    assert r >= 1;
    FirstByte(after, src, r);
    assert fs.NotedAt(before, after, fs.logged, 8190);
    forall b | Spare(b)
      ensures b in fs.logged && fs.BBlock(b) in fs.logged
    {
      AllSpareUsed(after, fs.owner, b);
      assert fs.NotedAt(before, after, fs.logged, b);
    }
    assert Spare(8191) && Spare(8447) && Spare(16639) && Spare(24831);
    TenBlocks(fs.logged);
  }
}
