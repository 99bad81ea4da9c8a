/**
The blocks behind inodes, as fs.c lays them out: twelve direct addresses, an indirect block
of 256 more, and a bitmap.  A block is read either as 1024 bytes or as 256 words, never as
both; `Owned` says each block in use belongs to one slot.
*/
module FileModel {
  import opened Params

  const NDIRECT: nat := 12
  const NINDIRECT: nat := 256
  const MAXFILE: nat := 268
  const SLOTS: nat := 269

  datatype Inode = Inode(typ: int, nlink: int, size: int, addrs: seq<int>)

  /** An address field: k below 12 is a direct one, 12 the indirect block, 13 + j its entry j. */
  datatype Slot = Slot(inum: int, k: int)

  /** nmeta blocks of metadata come first; `used` is the bitmap. */
  datatype Fs = Fs(nmeta: int, used: seq<bool>, inodes: seq<Inode>, words: seq<seq<int>>, bytes: seq<seq<int>>)

  ghost predicate Shape(fs: Fs) {
    && 0 < fs.nmeta <= |fs.used| && |fs.words| == |fs.used| && |fs.bytes| == |fs.used|
    && (forall i :: 0 <= i < |fs.inodes| ==> |fs.inodes[i].addrs| == NDIRECT + 1)
    && (forall b :: 0 <= b < |fs.words| ==> |fs.words[b]| == NINDIRECT)
    && (forall b :: 0 <= b < |fs.bytes| ==> |fs.bytes[b]| == BSIZE)
  }

  ghost predicate SlotIn(fs: Fs, sl: Slot) {
    0 <= sl.inum < |fs.inodes| && 0 <= sl.k < SLOTS
  }

  ghost predicate IndirectIn(fs: Fs, inum: int)
    requires Shape(fs) && 0 <= inum < |fs.inodes|
  {
    0 < fs.inodes[inum].addrs[NDIRECT] < |fs.words|
  }

  /** The block address in a slot, 0 for none. */
  ghost function Val(fs: Fs, sl: Slot): int
    requires Shape(fs) && SlotIn(fs, sl)
  {
    if sl.k <= NDIRECT then fs.inodes[sl.inum].addrs[sl.k]
    else if IndirectIn(fs, sl.inum) then fs.words[fs.inodes[sl.inum].addrs[NDIRECT]][sl.k - NDIRECT - 1]
    else 0
  }

  type Owner = map<int, Slot>

  ghost predicate SlotOk(fs: Fs, owner: Owner, sl: Slot)
    requires Shape(fs)
  {
    SlotIn(fs, sl) && Val(fs, sl) != 0 ==> Val(fs, sl) in owner && owner[Val(fs, sl)] == sl
  }

  /** Block b is in use exactly when it is metadata, owned by a slot, or one of `extra`. */
  ghost predicate BlockOk(fs: Fs, owner: Owner, extra: set<int>, b: int)
    requires Shape(fs)
  {
    && (0 <= b < |fs.used| ==> (fs.used[b] <==> b < fs.nmeta || b in owner || b in extra))
    && (b in owner ==> fs.nmeta <= b < |fs.used| && b !in extra && SlotIn(fs, owner[b]) && Val(fs, owner[b]) == b)
    && (b in extra ==> fs.nmeta <= b < |fs.used|)
  }

  /** The bits set are the metadata blocks, the blocks in slots, each in one, and `extra`. */
  ghost predicate Owned(fs: Fs, owner: Owner, extra: set<int>) {
    && Shape(fs)
    && (forall sl {:trigger SlotOk(fs, owner, sl)} :: SlotOk(fs, owner, sl))
    && (forall b {:trigger BlockOk(fs, owner, extra, b)} :: BlockOk(fs, owner, extra, b))
  }

  /** Every block in use has one owner, and no file has a hole. */
  ghost predicate Sound(fs: Fs) {
    (exists owner :: Owned(fs, owner, {})) && FilesOk(fs)
  }

  ghost predicate SameSize(fs: Fs, fs': Fs) {
    && fs'.nmeta == fs.nmeta && |fs'.used| == |fs.used| && |fs'.inodes| == |fs.inodes|
    && |fs'.bytes| == |fs.bytes| && |fs'.words| == |fs.words|
  }

  /** A slot in use names a data block whose bit is set, and no other slot names it. */
  lemma SlotOwns(fs: Fs, owner: Owner, extra: set<int>, sl: Slot, sl': Slot)
    requires Owned(fs, owner, extra) && SlotIn(fs, sl) && SlotIn(fs, sl') && Val(fs, sl) != 0
    ensures var v := Val(fs, sl);
            && fs.nmeta <= v < |fs.used| && fs.used[v] && v !in extra && v in owner
            && (Val(fs, sl') == v ==> sl' == sl)
  {
    assert SlotOk(fs, owner, sl) && SlotOk(fs, owner, sl') && BlockOk(fs, owner, extra, Val(fs, sl));
  }

  // ---------------------------------------------------------------------------------
  // balloc

  ghost function Zeros(n: nat): seq<int> {
    seq(n, _ => 0)
  }

  /** balloc's bit, and bzero. */
  ghost function Marked(fs: Fs, b: int): Fs
    requires 0 <= b < |fs.used| && Shape(fs)
  {
    fs.(used := fs.used[b := true], words := fs.words[b := Zeros(NINDIRECT)], bytes := fs.bytes[b := Zeros(BSIZE)])
  }

  lemma MarkVal(fs: Fs, owner: Owner, extra: set<int>, b: int, sl: Slot)
    requires Owned(fs, owner, extra) && 0 <= b < |fs.used| && !fs.used[b] && SlotIn(fs, sl)
    ensures Shape(Marked(fs, b)) && Val(Marked(fs, b), sl) == Val(fs, sl) && Val(fs, sl) != b
  {
    SlotOwnsOrNone(fs, owner, extra, Slot(sl.inum, NDIRECT));
    SlotOwnsOrNone(fs, owner, extra, sl);
    assert BlockOk(fs, owner, extra, b);
  }

  lemma SlotOwnsOrNone(fs: Fs, owner: Owner, extra: set<int>, sl: Slot)
    requires Owned(fs, owner, extra) && SlotIn(fs, sl)
    ensures var v := Val(fs, sl); v == 0 || (fs.nmeta <= v < |fs.used| && fs.used[v] && v !in extra)
  {
    if Val(fs, sl) != 0 {
      SlotOwns(fs, owner, extra, sl, sl);
    }
  }

  lemma MarkOwned(fs: Fs, owner: Owner, extra: set<int>, b: int)
    requires Owned(fs, owner, extra) && 0 <= b < |fs.used| && !fs.used[b]
    ensures b >= fs.nmeta && Owned(Marked(fs, b), owner, extra + {b})
  {
    var fs' := Marked(fs, b);
    assert BlockOk(fs, owner, extra, b);
    forall sl ensures SlotOk(fs', owner, sl) {
      assert SlotOk(fs, owner, sl);
      if SlotIn(fs, sl) { MarkVal(fs, owner, extra, b, sl); }
    }
    forall x ensures BlockOk(fs', owner, extra + {b}, x) {
      assert BlockOk(fs, owner, extra, x);
      if x in owner { MarkVal(fs, owner, extra, b, owner[x]); }
    }
  }

  // ---------------------------------------------------------------------------------
  // Storing an address in an empty slot

  /** A slot that could hold an address: an entry needs its indirect block. */
  ghost predicate Vacant(fs: Fs, sl: Slot) {
    Shape(fs) && SlotIn(fs, sl) && Val(fs, sl) == 0 && (sl.k > NDIRECT ==> IndirectIn(fs, sl.inum))
  }

  ghost function Attached(fs: Fs, sl: Slot, b: int): Fs
    requires Vacant(fs, sl)
  {
    if sl.k <= NDIRECT then
      fs.(inodes := fs.inodes[sl.inum := fs.inodes[sl.inum].(addrs := fs.inodes[sl.inum].addrs[sl.k := b])])
    else
      var ind := fs.inodes[sl.inum].addrs[NDIRECT];
      fs.(words := fs.words[ind := fs.words[ind][sl.k - NDIRECT - 1 := b]])
  }

  /** Block b, read as an indirect block, is empty. */
  ghost predicate NoEntries(fs: Fs, b: int)
    requires Shape(fs)
  {
    0 <= b < |fs.words| && forall j :: 0 <= j < NINDIRECT ==> fs.words[b][j] == 0
  }

  /** Only the slot itself changes. */
  lemma AttachVal(fs: Fs, owner: Owner, extra: set<int>, sl: Slot, b: int, sl': Slot)
    requires Owned(fs, owner, extra) && Vacant(fs, sl) && b in extra && SlotIn(fs, sl')
    requires sl.k == NDIRECT ==> NoEntries(fs, b)
    ensures Shape(Attached(fs, sl, b)) && Val(Attached(fs, sl, b), sl') == if sl' == sl then b else Val(fs, sl')
  {
    assert BlockOk(fs, owner, extra, b);
    var ind, ind' := Slot(sl.inum, NDIRECT), Slot(sl'.inum, NDIRECT);
    if Val(fs, ind) != 0 {
      SlotOwns(fs, owner, extra, ind, ind');
    }
  }

  lemma AttachOwned(fs: Fs, owner: Owner, extra: set<int>, sl: Slot, b: int)
    requires Owned(fs, owner, extra) && Vacant(fs, sl) && b in extra
    requires sl.k == NDIRECT ==> NoEntries(fs, b)
    ensures Owned(Attached(fs, sl, b), owner[b := sl], extra - {b})
  {
    var fs', owner' := Attached(fs, sl, b), owner[b := sl];
    AttachVal(fs, owner, extra, sl, b, sl);
    assert BlockOk(fs, owner, extra, b);
    forall x ensures SlotOk(fs', owner', x) {
      assert SlotOk(fs, owner, x);
      if SlotIn(fs, x) { AttachVal(fs, owner, extra, sl, b, x); }
    }
    forall x ensures BlockOk(fs', owner', extra - {b}, x) {
      assert BlockOk(fs, owner, extra, x);
      if x in owner { AttachVal(fs, owner, extra, sl, b, owner[x]); }
    }
  }

  // ---------------------------------------------------------------------------------
  // bfree, and giving up slots

  ghost function Unmarked(fs: Fs, b: int): Fs
    requires 0 <= b < |fs.used|
  {
    fs.(used := fs.used[b := false])
  }

  /** A block no slot names is in use, so bfree's panic cannot happen, and freeing it keeps ownership. */
  lemma FreeOwned(fs: Fs, owner: Owner, extra: set<int>, b: int)
    requires Owned(fs, owner, extra) && b in extra
    ensures fs.nmeta <= b < |fs.used| && fs.used[b] && Owned(Unmarked(fs, b), owner, extra - {b})
  {
    assert BlockOk(fs, owner, extra, b);
    var fs' := Unmarked(fs, b);
    forall sl ensures SlotOk(fs', owner, sl) {
      assert SlotOk(fs, owner, sl);
      assert SlotIn(fs, sl) ==> Val(fs', sl) == Val(fs, sl);
    }
    forall x ensures BlockOk(fs', owner, extra - {b}, x) {
      assert BlockOk(fs, owner, extra, x);
      assert x in owner ==> Val(fs', owner[x]) == Val(fs, owner[x]);
    }
  }

  /** A direct address, or the indirect block with all its entries, is dropped from the inode. */
  ghost function Detached(fs: Fs, inum: int, k: int): Fs
    requires Shape(fs) && 0 <= inum < |fs.inodes| && 0 <= k <= NDIRECT
  {
    fs.(inodes := fs.inodes[inum := fs.inodes[inum].(addrs := fs.inodes[inum].addrs[k := 0])])
  }

  /** The slots that go with slot k: itself, and the entries with the indirect block. */
  ghost predicate Goes(sl: Slot, inum: int, k: int) {
    sl.inum == inum && (sl.k == k || (k == NDIRECT && sl.k > NDIRECT))
  }

  ghost function OwnerWithout(owner: Owner, inum: int, k: int): Owner {
    map b | b in owner && !Goes(owner[b], inum, k) :: owner[b]
  }

  /** Their blocks. */
  ghost function Orphans(owner: Owner, inum: int, k: int): set<int> {
    set b | b in owner && Goes(owner[b], inum, k)
  }

  lemma DetachOwned(fs: Fs, owner: Owner, extra: set<int>, inum: int, k: int)
    requires Owned(fs, owner, extra) && 0 <= inum < |fs.inodes| && 0 <= k <= NDIRECT
    ensures Owned(Detached(fs, inum, k), OwnerWithout(owner, inum, k), extra + Orphans(owner, inum, k))
  {
    var fs', owner', extra' := Detached(fs, inum, k), OwnerWithout(owner, inum, k), extra + Orphans(owner, inum, k);
    forall sl ensures SlotOk(fs', owner', sl) {
      assert SlotOk(fs, owner, sl);
      assert SlotIn(fs, sl) ==> Val(fs', sl) == if Goes(sl, inum, k) then 0 else Val(fs, sl);
    }
    forall x ensures BlockOk(fs', owner', extra', x) {
      assert BlockOk(fs, owner, extra, x);
    }
  }

  // ---------------------------------------------------------------------------------
  // Files

  /** The slot of file block bn. */
  function SlotFor(inum: int, bn: int): Slot {
    Slot(inum, if bn < NDIRECT then bn else bn + 1)
  }

  /** A file's size is within reach and every block below it is there. */
  ghost predicate FileOk(fs: Fs, inum: int)
    requires Shape(fs) && 0 <= inum < |fs.inodes|
  {
    && 0 <= fs.inodes[inum].size <= MAXFILE * BSIZE
    && forall bn {:trigger SlotFor(inum, bn)} :: 0 <= bn < MAXFILE && bn * BSIZE < fs.inodes[inum].size ==>
         Val(fs, SlotFor(inum, bn)) != 0
  }

  ghost predicate FilesOk(fs: Fs)
    requires Shape(fs)
  {
    forall inum {:trigger FileOk(fs, inum)} :: 0 <= inum < |fs.inodes| ==> FileOk(fs, inum)
  }

  ghost predicate Mapped(fs: Fs, inum: int, pos: int)
    requires Shape(fs)
  {
    0 <= inum < |fs.inodes| && 0 <= pos < MAXFILE * BSIZE && 0 < Val(fs, SlotFor(inum, pos / BSIZE)) < |fs.bytes|
  }

  /** Byte pos of a file. */
  ghost function ByteAt(fs: Fs, inum: int, pos: int): int
    requires Shape(fs)
  {
    if Mapped(fs, inum, pos) then fs.bytes[Val(fs, SlotFor(inum, pos / BSIZE))][pos % BSIZE] else 0
  }

  ghost function Content(fs: Fs, inum: int): (c: seq<int>)
    requires Shape(fs) && 0 <= inum < |fs.inodes| && 0 <= fs.inodes[inum].size
    ensures |c| == fs.inodes[inum].size
  {
    seq(fs.inodes[inum].size, pos => ByteAt(fs, inum, pos))
  }

  lemma FileMapped(fs: Fs, owner: Owner, inum: int, pos: int)
    requires Owned(fs, owner, {}) && FilesOk(fs) && 0 <= inum < |fs.inodes| && 0 <= pos < fs.inodes[inum].size
    ensures pos / BSIZE < MAXFILE && SlotIn(fs, SlotFor(inum, pos / BSIZE)) && Mapped(fs, inum, pos)
  {
    assert FileOk(fs, inum);
    var bn := pos / BSIZE;
    assert 0 <= bn < MAXFILE && bn * BSIZE < fs.inodes[inum].size;
    assert Val(fs, SlotFor(inum, bn)) != 0;
    SlotOwnsOrNone(fs, owner, {}, SlotFor(inum, bn));
  }

  // ---------------------------------------------------------------------------------
  // bmap

  /** fs' differs from fs by at most the new blocks, hung in empty slots of one inode. */
  ghost predicate Grew(fs: Fs, fs': Fs, inum: int, bn: int, added: set<int>)
    requires Shape(fs)
  {
    && Shape(fs') && fs'.nmeta == fs.nmeta && |fs'.used| == |fs.used| && |fs'.inodes| == |fs.inodes|
    && (forall i :: 0 <= i < |fs.inodes| ==> fs'.inodes[i] == fs.inodes[i].(addrs := fs'.inodes[i].addrs))
    && (forall i :: 0 <= i < |fs.inodes| && i != inum ==> fs'.inodes[i] == fs.inodes[i])
    && (forall b :: b in added ==> 0 <= b < |fs.used| && !fs.used[b])
    && (forall b :: 0 <= b < |fs.used| ==>
          (fs'.used[b] <==> fs.used[b] || b in added) && (b !in added ==> fs'.bytes[b] == fs.bytes[b]))
    && (forall sl {:trigger Val(fs', sl)} :: SlotIn(fs, sl) ==>
        Val(fs', sl) == Val(fs, sl) || (Val(fs, sl) == 0 && Val(fs', sl) in added
          && (sl == SlotFor(inum, bn) || sl == Slot(inum, NDIRECT))))
  }

  lemma GrewNothing(fs: Fs, inum: int, bn: int)
    requires Shape(fs)
    ensures Grew(fs, fs, inum, bn, {})
  {
  }

  /** A block is found and hung in a slot. */
  lemma GrewMore(fs: Fs, fs1: Fs, owner: Owner, inum: int, bn: int, added: set<int>, b: int, sl: Slot)
    requires Shape(fs) && Grew(fs, fs1, inum, bn, added) && Owned(fs1, owner, {})
    requires 0 <= b < |fs1.used| && !fs1.used[b] && Vacant(fs1, sl)
    requires (sl == SlotFor(inum, bn) || sl == Slot(inum, NDIRECT))
    requires Val(fs, sl) == 0
    ensures Vacant(Marked(fs1, b), sl) && Owned(Attached(Marked(fs1, b), sl, b), owner[b := sl], {})
    ensures Val(Attached(Marked(fs1, b), sl, b), sl) == b
    ensures Grew(fs, Attached(Marked(fs1, b), sl, b), inum, bn, added + {b})
  {
    var fs2 := Marked(fs1, b);
    MarkOwned(fs1, owner, {}, b);
    MarkVal(fs1, owner, {}, b, sl);
    MarkVal(fs1, owner, {}, b, Slot(inum, NDIRECT));
    assert {} + {b} == {b} && {b} - {b} == {};
    AttachOwned(fs2, owner, {b}, sl, b);
    var fs3 := Attached(fs2, sl, b);
    forall x | SlotIn(fs, x)
      ensures Val(fs3, x) == if x == sl then b else Val(fs1, x)
    {
      MarkVal(fs1, owner, {}, b, x);
      AttachVal(fs2, owner, {b}, sl, b, x);
    }
  }

  lemma GrewIndirect(fs: Fs, fs': Fs, inum: int, bn: int, added: set<int>)
    requires Shape(fs) && Grew(fs, fs', inum, bn, added) && 0 <= inum < |fs.inodes|
    ensures fs.inodes[inum].addrs[NDIRECT] != 0 ==> fs'.inodes[inum].addrs[NDIRECT] == fs.inodes[inum].addrs[NDIRECT]
  {
    assert Val(fs', Slot(inum, NDIRECT)) == fs'.inodes[inum].addrs[NDIRECT];
  }

  lemma GrewFiles(fs: Fs, fs': Fs, inum: int, bn: int, added: set<int>)
    requires Shape(fs) && FilesOk(fs) && Grew(fs, fs', inum, bn, added) && 0 !in added
    ensures FilesOk(fs')
  {
    forall i | 0 <= i < |fs'.inodes|
      ensures FileOk(fs', i)
    {
      assert FileOk(fs, i);
      forall b {:trigger SlotFor(i, b)} | 0 <= b < MAXFILE && b * BSIZE < fs'.inodes[i].size
        ensures Val(fs', SlotFor(i, b)) != 0
      {
        assert SlotIn(fs, SlotFor(i, b)) && Val(fs, SlotFor(i, b)) != 0;
      }
    }
  }

  /** What was mapped still is, to the same block with the same bytes. */
  lemma GrewBytes(fs: Fs, fs': Fs, owner: Owner, inum: int, bn: int, added: set<int>, i: int, pos: int)
    requires Owned(fs, owner, {}) && Grew(fs, fs', inum, bn, added) && Mapped(fs, i, pos)
    ensures Mapped(fs', i, pos) && ByteAt(fs', i, pos) == ByteAt(fs, i, pos)
  {
    var sl := SlotFor(i, pos / BSIZE);
    SlotOwns(fs, owner, {}, sl, sl);
    assert Val(fs', sl) == Val(fs, sl);
  }

  // ---------------------------------------------------------------------------------
  // itrunc

  /** fs' is fs without the first slots of inode inum, and without their blocks. */
  ghost predicate Dropped(fs: Fs, owner: Owner, fs': Fs, owner': Owner, inum: int, upto: int)
    requires Shape(fs)
  {
    && Shape(fs') && fs'.nmeta == fs.nmeta && |fs'.used| == |fs.used| && fs'.words == fs.words
    && fs'.bytes == fs.bytes && |fs'.inodes| == |fs.inodes|
    && (forall i :: 0 <= i < |fs.inodes| ==>
           fs'.inodes[i] == if i == inum then fs.inodes[i].(addrs := fs'.inodes[i].addrs) else fs.inodes[i])
    && (forall b :: 0 <= b < |fs.used| ==>
           (fs'.used[b] <==> fs.used[b] && !(b in owner && owner[b].inum == inum && owner[b].k < upto)))
    && (forall sl {:trigger Val(fs', sl)} :: SlotIn(fs, sl) ==>
           Val(fs', sl) == if sl.inum == inum && sl.k < upto then 0 else Val(fs, sl))
    && (forall b :: b in owner' <==> b in owner && !(owner[b].inum == inum && owner[b].k < upto))
    && (forall b :: b in owner' ==> owner'[b] == owner[b])
  }

  lemma DroppedStart(fs: Fs, owner: Owner, inum: int)
    requires Owned(fs, owner, {})
    ensures Dropped(fs, owner, fs, owner, inum, 0)
  {
    forall b ensures b in owner ==> owner[b].k >= 0 {
      assert BlockOk(fs, owner, {}, b);
    }
  }

  /** One direct block goes: its bit and its address. */
  lemma DropDirect(fs: Fs, owner: Owner, inum: int, k: int)
    requires Owned(fs, owner, {}) && 0 <= inum < |fs.inodes| && 0 <= k < NDIRECT && fs.inodes[inum].addrs[k] != 0
    ensures var b := fs.inodes[inum].addrs[k];
            && 0 <= b < |fs.used| && fs.used[b] && b in owner && owner[b] == Slot(inum, k)
            && Owned(Detached(Unmarked(fs, b), inum, k), OwnerWithout(owner, inum, k), {})
            && (forall x :: x in OwnerWithout(owner, inum, k) <==> x in owner && x != b)
  {
    var b := fs.inodes[inum].addrs[k];
    SlotOwns(fs, owner, {}, Slot(inum, k), Slot(inum, k));
    assert SlotOk(fs, owner, Slot(inum, k));
    forall x
      ensures x in Orphans(owner, inum, k) <==> x == b
      ensures x in OwnerWithout(owner, inum, k) <==> x in owner && x != b
    {
      assert BlockOk(fs, owner, {}, x);
      assert x in Orphans(owner, inum, k) <==> x in owner && Goes(owner[x], inum, k);
    }
    assert {} + Orphans(owner, inum, k) == {b} && {b} - {b} == {};
    DetachOwned(fs, owner, {}, inum, k);
    FreeOwned(Detached(fs, inum, k), OwnerWithout(owner, inum, k), {b}, b);
    assert Unmarked(Detached(fs, inum, k), b) == Detached(Unmarked(fs, b), inum, k);
  }

  /** The addresses from entry j of an indirect block on. */
  ghost function Rest(a: seq<int>, j: int): set<int> {
    set i | 0 <= i < |a| && j <= i && a[i] != 0 :: a[i]
  }

  /** With the indirect block gone from the inode, it and its entries are nobody's. */
  lemma OrphanEntries(fs: Fs, owner: Owner, inum: int)
    requires Owned(fs, owner, {}) && 0 <= inum < |fs.inodes| && IndirectIn(fs, inum)
    ensures var ind := fs.inodes[inum].addrs[NDIRECT];
            && Owned(Detached(fs, inum, NDIRECT), OwnerWithout(owner, inum, NDIRECT), Rest(fs.words[ind], 0) + {ind})
            && ind !in Rest(fs.words[ind], 0)
            && forall i, j :: 0 <= i < j < NINDIRECT && fs.words[ind][i] != 0 ==> fs.words[ind][i] != fs.words[ind][j]
  {
    var ind := fs.inodes[inum].addrs[NDIRECT];
    var a := fs.words[ind];
    forall i | 0 <= i < NINDIRECT && a[i] != 0
      ensures a[i] != ind && a[i] in owner && owner[a[i]] == Slot(inum, NDIRECT + 1 + i)
    {
      SlotOwns(fs, owner, {}, Slot(inum, NDIRECT + 1 + i), Slot(inum, NDIRECT));
      assert SlotOk(fs, owner, Slot(inum, NDIRECT + 1 + i));
    }
    assert SlotOk(fs, owner, Slot(inum, NDIRECT));
    forall x ensures x in Orphans(owner, inum, NDIRECT) <==> x in Rest(a, 0) + {ind} {
      assert BlockOk(fs, owner, {}, x);
      if x in owner && Goes(owner[x], inum, NDIRECT) && x != ind {
        assert a[owner[x].k - NDIRECT - 1] == x;
      }
    }
    assert {} + Orphans(owner, inum, NDIRECT) == Rest(a, 0) + {ind};
    DetachOwned(fs, owner, {}, inum, NDIRECT);
  }

  /** Slot k of the file owns at most the block it names. */
  lemma OnlyOwn(fs: Fs, owner: Owner, sl: Slot, x: int)
    requires Owned(fs, owner, {}) && SlotIn(fs, sl)
    ensures x in owner && owner[x] == sl <==> x != 0 && Val(fs, sl) == x
  {
    assert BlockOk(fs, owner, {}, x) && SlotOk(fs, owner, sl);
  }

  lemma DroppedNone(fs: Fs, owner: Owner, fs1: Fs, owner1: Owner, inum: int, k: int)
    requires Owned(fs, owner, {}) && Dropped(fs, owner, fs1, owner1, inum, k) && 0 <= inum < |fs.inodes|
    requires 0 <= k < SLOTS
    requires Val(fs, Slot(inum, k)) == 0
    ensures Dropped(fs, owner, fs1, owner1, inum, k + 1)
  {
    var here := Slot(inum, k);
    forall x | x in owner
      ensures !(owner[x].inum == inum && owner[x].k == k)
    {
      assert owner[x] == here <==> owner[x].inum == inum && owner[x].k == k;
      OnlyOwn(fs, owner, here, x);
    }
    assert forall sl :: SlotIn(fs, sl) && sl.inum == inum && sl.k == k ==> sl == here;
  }

  lemma DroppedOne(fs: Fs, owner: Owner, fs1: Fs, owner1: Owner, inum: int, k: int)
    requires Owned(fs, owner, {}) && Owned(fs1, owner1, {}) && Dropped(fs, owner, fs1, owner1, inum, k)
    requires 0 <= inum < |fs.inodes| && 0 <= k < NDIRECT && fs1.inodes[inum].addrs[k] != 0
    ensures var b := fs1.inodes[inum].addrs[k];
            0 <= b < |fs1.used| && Dropped(fs, owner, Detached(Unmarked(fs1, b), inum, k),
              OwnerWithout(owner1, inum, k), inum, k + 1)
  {
    var b, here := fs1.inodes[inum].addrs[k], Slot(inum, k);
    DropDirect(fs1, owner1, inum, k);
    var fs2 := Detached(Unmarked(fs1, b), inum, k);
    assert Val(fs1, here) == Val(fs, here) == b;
    forall x | x in owner
      ensures owner[x].inum == inum && owner[x].k == k <==> x == b
    {
      assert owner[x] == here <==> owner[x].inum == inum && owner[x].k == k;
      OnlyOwn(fs, owner, here, x);
    }
    OnlyOwn(fs, owner, here, b);
    forall sl | SlotIn(fs, sl)
      ensures Val(fs2, sl) == if sl == here then 0 else Val(fs1, sl)
    {
    }
    assert forall sl :: SlotIn(fs, sl) && sl.inum == inum && sl.k == k ==> sl == here;
  }

  /** With the indirect block and its entries freed, nothing of the file is left. */
  lemma DroppedAll(fs: Fs, owner: Owner, fs1: Fs, owner1: Owner, inum: int, fs2: Fs)
    requires Owned(fs, owner, {}) && Shape(fs1) && Dropped(fs, owner, fs1, owner1, inum, NDIRECT)
    requires 0 <= inum < |fs.inodes|
    requires Owned(fs2, OwnerWithout(owner1, inum, NDIRECT), {})
    requires fs2 == Detached(fs1, inum, NDIRECT).(used := fs2.used) && |fs2.used| == |fs.used|
    ensures Dropped(fs, owner, fs2, OwnerWithout(owner1, inum, NDIRECT), inum, SLOTS)
  {
    var owner2 := OwnerWithout(owner1, inum, NDIRECT);
    forall x
      ensures x in owner2 <==> x in owner && !(owner[x].inum == inum && owner[x].k < SLOTS)
    {
      assert BlockOk(fs, owner, {}, x);
    }
    forall b | 0 <= b < |fs.used|
      ensures fs2.used[b] <==> fs.used[b] && !(b in owner && owner[b].inum == inum && owner[b].k < SLOTS)
    {
      assert BlockOk(fs, owner, {}, b) && BlockOk(fs2, owner2, {}, b);
    }
    forall sl | SlotIn(fs, sl)
      ensures Val(fs2, sl) == if sl.inum == inum && sl.k < SLOTS then 0 else Val(fs, sl)
    {
      assert Val(fs1, sl) == if sl.inum == inum && sl.k < NDIRECT then 0 else Val(fs, sl);
    }
  }

  lemma RestStep(a: seq<int>, j: int, ind: int)
    requires 0 <= j < |a| && (forall i, k :: 0 <= i < k < |a| && a[i] != 0 ==> a[i] != a[k]) && ind !in Rest(a, 0)
    ensures Rest(a, j + 1) + {ind} == if a[j] == 0 then Rest(a, j) + {ind} else Rest(a, j) + {ind} - {a[j]}
    ensures a[j] != 0 ==> a[j] in Rest(a, j)
  {
    assert a[j] != 0 ==> a[j] in Rest(a, 0);
  }

  /** Without an indirect block the file has no entries to give up. */
  lemma NothingIndirect(fs: Fs, owner: Owner, inum: int)
    requires Owned(fs, owner, {}) && 0 <= inum < |fs.inodes| && fs.inodes[inum].addrs[NDIRECT] == 0
    ensures Owned(fs, OwnerWithout(owner, inum, NDIRECT), {}) && fs == Detached(fs, inum, NDIRECT)
  {
    forall x ensures x in owner ==> !Goes(owner[x], inum, NDIRECT) {
      assert BlockOk(fs, owner, {}, x);
    }
    assert OwnerWithout(owner, inum, NDIRECT) == owner;
    assert fs.inodes[inum].addrs[NDIRECT := 0] == fs.inodes[inum].addrs;
  }

  /** Setting the size of a file without blocks to 0 leaves every file whole. */
  lemma TruncValid(fs: Fs, owner: Owner, fs1: Fs, owner1: Owner, inum: int, fs2: Fs)
    requires Shape(fs) && FilesOk(fs) && Owned(fs1, owner1, {}) && Dropped(fs, owner, fs1, owner1, inum, SLOTS)
    requires 0 <= inum < |fs.inodes|
    requires fs2 == fs1.(inodes := fs1.inodes[inum := fs1.inodes[inum].(size := 0)])
    ensures Owned(fs2, owner1, {}) && FilesOk(fs2)
  {
    forall sl ensures SlotOk(fs2, owner1, sl) {
      assert SlotOk(fs1, owner1, sl);
      assert SlotIn(fs1, sl) ==> Val(fs2, sl) == Val(fs1, sl);
    }
    forall b ensures BlockOk(fs2, owner1, {}, b) {
      assert BlockOk(fs1, owner1, {}, b);
      assert b in owner1 ==> Val(fs2, owner1[b]) == Val(fs1, owner1[b]);
    }
    forall i | 0 <= i < |fs2.inodes| ensures FileOk(fs2, i) {
      assert FileOk(fs, i);
      forall bn {:trigger SlotFor(i, bn)} | 0 <= bn < MAXFILE && bn * BSIZE < fs2.inodes[i].size
        ensures Val(fs2, SlotFor(i, bn)) != 0
      {
        assert SlotIn(fs, SlotFor(i, bn)) && Val(fs1, SlotFor(i, bn)) == Val(fs, SlotFor(i, bn));
      }
    }
  }

  // ---------------------------------------------------------------------------------
  // readi and writei

  /** src written over s from `at` on, extending it if it reaches further. */
  function Overwrite(s: seq<int>, at: int, src: seq<int>): seq<int>
    requires 0 <= at <= |s|
  {
    s[..at] + src + if at + |src| < |s| then s[at + |src|..] else []
  }

  ghost function Stored(fs: Fs, b: int, at: int, src: seq<int>): Fs
    requires Shape(fs) && 0 <= b < |fs.bytes| && 0 <= at && at + |src| <= BSIZE
  {
    fs.(bytes := fs.bytes[b := Overwrite(fs.bytes[b], at, src)])
  }

  lemma StoreOwned(fs: Fs, owner: Owner, b: int, at: int, src: seq<int>)
    requires Owned(fs, owner, {}) && FilesOk(fs) && 0 <= b < |fs.bytes| && 0 <= at && at + |src| <= BSIZE
    ensures Owned(Stored(fs, b, at, src), owner, {}) && FilesOk(Stored(fs, b, at, src))
  {
    var fs' := Stored(fs, b, at, src);
    forall sl ensures SlotOk(fs', owner, sl) {
      assert SlotOk(fs, owner, sl);
      assert SlotIn(fs, sl) ==> Val(fs', sl) == Val(fs, sl);
    }
    forall x ensures BlockOk(fs', owner, {}, x) {
      assert BlockOk(fs, owner, {}, x);
      assert x in owner ==> Val(fs', owner[x]) == Val(fs, owner[x]);
    }
    forall i | 0 <= i < |fs'.inodes| ensures FileOk(fs', i) {
      assert FileOk(fs, i);
    }
  }

  /** Storing into the block of file block bn changes those bytes of that file and nothing else. */
  lemma StoreBytes(fs: Fs, owner: Owner, inum: int, bn: int, at: int, src: seq<int>, i: int, pos: int)
    requires Owned(fs, owner, {}) && 0 <= inum < |fs.inodes| && 0 <= bn < MAXFILE && 0 <= at && at + |src| <= BSIZE
    requires Val(fs, SlotFor(inum, bn)) != 0 && 0 <= Val(fs, SlotFor(inum, bn)) < |fs.bytes|
    ensures var fs', first := Stored(fs, Val(fs, SlotFor(inum, bn)), at, src), bn * BSIZE + at;
            && Shape(fs') && (Mapped(fs', i, pos) <==> Mapped(fs, i, pos))
            && (Mapped(fs, i, pos) ==>
                  ByteAt(fs', i, pos) ==
                  if i == inum && first <= pos < first + |src| then src[pos - first] else ByteAt(fs, i, pos))
            && (i == inum && first <= pos < first + |src| ==> Mapped(fs, i, pos))
  {
    var sl := SlotFor(inum, bn);
    var fs' := Stored(fs, Val(fs, sl), at, src);
    if 0 <= i < |fs.inodes| && 0 <= pos < MAXFILE * BSIZE {
      var x := SlotFor(i, pos / BSIZE);
      SlotOwns(fs, owner, {}, sl, x);
      assert Val(fs', x) == Val(fs, x);
      assert x == sl <==> i == inum && pos / BSIZE == bn;
    }
  }

  /** A write of the first tot bytes of src at off, on the way. */
  ghost predicate WroteAt(fs: Fs, fs': Fs, inum: int, off: int, tot: int, src: seq<int>, i: int, pos: int)
    requires Shape(fs) && Shape(fs') && 0 <= tot <= |src|
  {
    && (Mapped(fs, i, pos) ==> Mapped(fs', i, pos))
    && (i == inum && off <= pos < off + tot ==> Mapped(fs', i, pos) && ByteAt(fs', i, pos) == src[pos - off])
    && (Mapped(fs, i, pos) && !(i == inum && off <= pos < off + tot) ==> ByteAt(fs', i, pos) == ByteAt(fs, i, pos))
  }

  /** No slot in use lets go of its block. */
  ghost predicate Stays(fs: Fs, fs': Fs)
    requires Shape(fs) && Shape(fs') && |fs'.inodes| == |fs.inodes|
  {
    forall sl {:trigger Val(fs', sl)} :: SlotIn(fs, sl) && Val(fs, sl) != 0 ==> Val(fs', sl) == Val(fs, sl)
  }

  ghost predicate Wrote(fs: Fs, fs': Fs, inum: int, off: int, tot: int, src: seq<int>) {
    && Shape(fs) && Shape(fs') && 0 <= tot <= |src| && |fs'.inodes| == |fs.inodes| && Stays(fs, fs')
    && (forall i :: 0 <= i < |fs.inodes| ==> fs'.inodes[i] == fs.inodes[i].(addrs := fs'.inodes[i].addrs))
    && (forall i :: 0 <= i < |fs.inodes| && i != inum ==> fs'.inodes[i] == fs.inodes[i])
    && (forall i, pos {:trigger WroteAt(fs, fs', inum, off, tot, src, i, pos)} ::
           WroteAt(fs, fs', inum, off, tot, src, i, pos))
  }

  lemma StaysStored(fs: Fs, fs1: Fs, fs2: Fs, inum: int, bn: int, added: set<int>, b: int, at: int, src: seq<int>)
    requires Shape(fs) && Shape(fs1) && |fs1.inodes| == |fs.inodes| && Stays(fs, fs1) && Grew(fs1, fs2, inum, bn, added)
    requires 0 <= b < |fs2.bytes| && 0 <= at && at + |src| <= BSIZE
    ensures Shape(Stored(fs2, b, at, src)) && Stays(fs, Stored(fs2, b, at, src))
  {
    var fs3 := Stored(fs2, b, at, src);
    forall sl | SlotIn(fs, sl) && Val(fs, sl) != 0
      ensures Val(fs3, sl) == Val(fs, sl)
    {
      assert Val(fs1, sl) == Val(fs, sl) && Val(fs2, sl) == Val(fs1, sl) && Val(fs3, sl) == Val(fs2, sl);
    }
  }

  lemma StaysGrew(fs: Fs, fs1: Fs, fs2: Fs, inum: int, bn: int, added: set<int>)
    requires Shape(fs) && Shape(fs1) && |fs1.inodes| == |fs.inodes| && Stays(fs, fs1) && Grew(fs1, fs2, inum, bn, added)
    ensures Stays(fs, fs2)
  {
    forall sl | SlotIn(fs, sl) && Val(fs, sl) != 0
      ensures Val(fs2, sl) == Val(fs, sl)
    {
      assert Val(fs1, sl) == Val(fs, sl);
    }
  }

  /** One more chunk: bmap, then the store. */
  lemma WroteMore(fs: Fs, fs1: Fs, owner: Owner, inum: int, off: int, tot: int, src: seq<int>, fs2: Fs, owner2: Owner,
      added: set<int>, m: int)
    requires Wrote(fs, fs1, inum, off, tot, src) && Owned(fs1, owner, {}) && Owned(fs2, owner2, {})
    requires 0 <= inum < |fs.inodes|
    requires 0 <= off && 0 < m && tot + m <= |src| && off + tot + m <= MAXFILE * BSIZE
    requires (off + tot) % BSIZE + m <= BSIZE
    requires Grew(fs1, fs2, inum, (off + tot) / BSIZE, added) && Val(fs2, SlotFor(inum, (off + tot) / BSIZE)) != 0
    ensures var b := Val(fs2, SlotFor(inum, (off + tot) / BSIZE));
            0 <= b < |fs2.bytes| && Wrote(fs, Stored(fs2, b, (off + tot) % BSIZE, src[tot..tot + m]), inum, off,
              tot + m, src)
  {
    var bn, at, chunk := (off + tot) / BSIZE, (off + tot) % BSIZE, src[tot..tot + m];
    SlotOwnsOrNone(fs2, owner2, {}, SlotFor(inum, bn));
    var fs3, done := Stored(fs2, Val(fs2, SlotFor(inum, bn)), at, chunk), tot + m;
    StaysStored(fs, fs1, fs2, inum, bn, added, Val(fs2, SlotFor(inum, bn)), at, chunk);
    forall i, pos
      ensures WroteAt(fs, fs3, inum, off, done, src, i, pos)
    {
      assert WroteAt(fs, fs1, inum, off, tot, src, i, pos);
      StoreBytes(fs2, owner2, inum, bn, at, chunk, i, pos);
      if Mapped(fs1, i, pos) {
        GrewBytes(fs1, fs2, owner, inum, bn, added, i, pos);
      }
    }
  }

  /** bmap alone writes nothing. */
  lemma WroteSame(fs: Fs, fs1: Fs, owner: Owner, inum: int, off: int, tot: int, src: seq<int>, fs2: Fs, bn: int,
      added: set<int>)
    requires Wrote(fs, fs1, inum, off, tot, src) && Owned(fs1, owner, {}) && Grew(fs1, fs2, inum, bn, added)
    ensures Wrote(fs, fs2, inum, off, tot, src)
  {
    StaysGrew(fs, fs1, fs2, inum, bn, added);
    forall i, pos
      ensures WroteAt(fs, fs2, inum, off, tot, src, i, pos)
    {
      assert WroteAt(fs, fs1, inum, off, tot, src, i, pos);
      if Mapped(fs1, i, pos) {
        GrewBytes(fs1, fs2, owner, inum, bn, added, i, pos);
      }
    }
  }

  /** writei's `ip->size = off` if the write went past the end. */
  ghost function Resized(fs: Fs, inum: int, end: int): Fs
    requires 0 <= inum < |fs.inodes|
  {
    if end > fs.inodes[inum].size then fs.(inodes := fs.inodes[inum := fs.inodes[inum].(size := end)]) else fs
  }

  lemma ResizeVal(fs: Fs, inum: int, end: int, i: int, pos: int)
    requires Shape(fs) && 0 <= inum < |fs.inodes|
    ensures Shape(Resized(fs, inum, end)) && (Mapped(Resized(fs, inum, end), i, pos) <==> Mapped(fs, i, pos))
    ensures ByteAt(Resized(fs, inum, end), i, pos) == ByteAt(fs, i, pos)
  {
    var fs' := Resized(fs, inum, end);
    if 0 <= i < |fs.inodes| && 0 <= pos < MAXFILE * BSIZE {
      assert Val(fs', SlotFor(i, pos / BSIZE)) == Val(fs, SlotFor(i, pos / BSIZE));
    }
  }

  lemma ResizeOwned(fs: Fs, owner: Owner, inum: int, end: int)
    requires Owned(fs, owner, {}) && 0 <= inum < |fs.inodes|
    ensures Owned(Resized(fs, inum, end), owner, {})
  {
    var fs' := Resized(fs, inum, end);
    forall sl ensures SlotOk(fs', owner, sl) {
      assert SlotOk(fs, owner, sl);
      assert SlotIn(fs, sl) ==> Val(fs', sl) == Val(fs, sl);
    }
    forall x ensures BlockOk(fs', owner, {}, x) {
      assert BlockOk(fs, owner, {}, x);
      assert x in owner ==> Val(fs', owner[x]) == Val(fs, owner[x]);
    }
  }

  /** The end of writei: no file has a hole, and the bytes written are where they belong. */
  lemma WroteFiles(fs: Fs, owner: Owner, fs1: Fs, owner1: Owner, inum: int, off: int, tot: int, src: seq<int>)
    requires Owned(fs, owner, {}) && FilesOk(fs) && Owned(fs1, owner1, {}) && 0 <= inum < |fs.inodes|
    requires Wrote(fs, fs1, inum, off, tot, src)
    requires 0 <= off <= fs.inodes[inum].size && off + tot <= MAXFILE * BSIZE
    ensures Owned(Resized(fs1, inum, off + tot), owner1, {}) && FilesOk(Resized(fs1, inum, off + tot))
    ensures Stays(fs, Resized(fs1, inum, off + tot))
  {
    var fs2 := Resized(fs1, inum, off + tot);
    ResizeOwned(fs1, owner1, inum, off + tot);
    forall sl | SlotIn(fs, sl) && Val(fs, sl) != 0
      ensures Val(fs2, sl) == Val(fs, sl)
    {
      assert Val(fs1, sl) == Val(fs, sl);
    }
    forall i | 0 <= i < |fs2.inodes|
      ensures FileOk(fs2, i)
    {
      assert FileOk(fs, i);
      forall bn {:trigger SlotFor(i, bn)} | 0 <= bn < MAXFILE && bn * BSIZE < fs2.inodes[i].size
        ensures Val(fs2, SlotFor(i, bn)) != 0
      {
        var pos := bn * BSIZE;
        assert pos / BSIZE == bn;
        assert WroteAt(fs, fs1, inum, off, tot, src, i, pos);
        if pos < fs.inodes[i].size { FileMapped(fs, owner, i, pos); }
        ResizeVal(fs1, inum, off + tot, i, pos);
      }
    }
  }

  lemma WroteContent(fs: Fs, owner: Owner, fs1: Fs, owner1: Owner, inum: int, off: int, tot: int, src: seq<int>, i: int)
    requires Owned(fs, owner, {}) && FilesOk(fs) && Owned(fs1, owner1, {}) && 0 <= inum < |fs.inodes|
    requires Wrote(fs, fs1, inum, off, tot, src)
    requires 0 <= off <= fs.inodes[inum].size && off + tot <= MAXFILE * BSIZE && 0 <= i < |fs.inodes|
    ensures Shape(Resized(fs1, inum, off + tot)) && FileOk(fs, i) && 0 <= Resized(fs1, inum, off + tot).inodes[i].size
    ensures FileOk(fs, inum)
    ensures Content(Resized(fs1, inum, off + tot), i) ==
            if i == inum then Overwrite(Content(fs, inum), off, src[..tot]) else Content(fs, i)
  {
    hide Owned, Mapped, ByteAt, Val;
    var fs2 := Resized(fs1, inum, off + tot);
    assert FileOk(fs, i) && FileOk(fs, inum);
    ResizeVal(fs1, inum, off + tot, i, 0);
    var c, d := Content(fs2, i), if i == inum then Overwrite(Content(fs, inum), off, src[..tot]) else Content(fs, i);
    assert |c| == |d|;
    forall pos | 0 <= pos < |c|
      ensures c[pos] == d[pos]
    {
      assert WroteAt(fs, fs1, inum, off, tot, src, i, pos);
      if pos < fs.inodes[i].size { FileMapped(fs, owner, i, pos); }
      ResizeVal(fs1, inum, off + tot, i, pos);
    }
  }

  lemma SameBlock(o: int, j: int)
    requires 0 <= o && 0 <= j && o % BSIZE + j < BSIZE
    ensures (o + j) / BSIZE == o / BSIZE && (o + j) % BSIZE == o % BSIZE + j
  {
  }

  /** Bytes of one block are the bytes of the file there. */
  lemma Piece(fs: Fs, owner: Owner, inum: int, o: int, m: int)
    requires Owned(fs, owner, {}) && FilesOk(fs) && 0 <= inum < |fs.inodes| && 0 <= o && 0 < m && o % BSIZE + m <= BSIZE
    requires o + m <= fs.inodes[inum].size
    ensures o / BSIZE < MAXFILE && var b := Val(fs, SlotFor(inum, o / BSIZE));
            0 < b < |fs.bytes| && fs.bytes[b][o % BSIZE..o % BSIZE + m] == Content(fs, inum)[o..o + m]
  {
    FileMapped(fs, owner, inum, o);
    var b := Val(fs, SlotFor(inum, o / BSIZE));
    var piece, content := fs.bytes[b][o % BSIZE..o % BSIZE + m], Content(fs, inum)[o..o + m];
    forall j | 0 <= j < m
      ensures piece[j] == content[j]
    {
      SameBlock(o, j);
      FileMapped(fs, owner, inum, o + j);
      assert content[j] == ByteAt(fs, inum, o + j) && piece[j] == fs.bytes[b][o % BSIZE + j];
    }
  }
}
