/** balloc, bfree, bmap, itrunc, readi and writei of fs.c, in place. */
module FileSystem {
  import opened FileModel
  import opened Params

  const BPB: nat := 8192
  const IPB: nat := 16

  /** How much of `left` bytes fits into the block of byte o: m in readi and writei. */
  function ChunkLen(o: int, left: int): int {
    if left < BSIZE - o % BSIZE then left else BSIZE - o % BSIZE
  }

  /** A chunk is not empty, stays in its block, and ends the write or the block. */
  lemma ChunkFits(o: int, left: int)
    requires 0 <= o && left > 0
    ensures var m := ChunkLen(o, left);
            && 0 < m <= left && o % BSIZE + m <= BSIZE && (m == left || (o + m) % BSIZE == 0)
            && (o + m - 1) / BSIZE == o / BSIZE
  {
  }

  const UINT: int := 0x1_0000_0000

  /** The number of blocks that n bytes from off on lie in. */
  function Span(off: int, n: nat): int {
    if n == 0 then 0 else (off + n - 1) / BSIZE - off / BSIZE + 1
  }

  /** Bytes that went into a file at some offset. */
  datatype Put = Put(inum: int, at: int, bytes: seq<int>)

  /** The content of a file after such a write; bytes cannot go past its end. */
  function PutInto(c: seq<int>, at: int, bytes: seq<int>): seq<int> {
    if bytes != [] && 0 <= at <= |c| then Overwrite(c, at, bytes) else c
  }

  /** One file has taken these bytes and every other file reads as before. */
  ghost predicate Chunk(fs: Fs, fs': Fs, put: Put) {
    && Shape(fs) && Shape(fs') && 0 <= put.inum < |fs.inodes| == |fs'.inodes|
    && FileOk(fs, put.inum) && FileOk(fs', put.inum) && OthersSame(fs, fs', put.inum)
    && (put.bytes != [] ==> 0 <= put.at <= fs.inodes[put.inum].size)
    && Content(fs', put.inum) == PutInto(Content(fs, put.inum), put.at, put.bytes)
  }

  /** The first `sent` bytes of src in consecutive pieces from offset off on. */
  ghost predicate Pieces(puts: seq<Put>, inum: int, off: int, src: seq<int>, sent: int) {
    if puts == [] then sent == 0
    else
      var last := puts[|puts| - 1];
      var s := sent - |last.bytes|;
      && 0 <= s <= sent <= |src| && last == Put(inum, off + s, src[s..sent])
      && Pieces(puts[..|puts| - 1], inum, off, src, s)
  }

  lemma NoPieces(inum: int, off: int, src: seq<int>)
    ensures Pieces([], inum, off, src, 0)
  {
  }

  lemma PiecesMore(puts: seq<Put>, inum: int, off: int, src: seq<int>, sent: int, more: int)
    requires Pieces(puts, inum, off, src, sent) && 0 <= sent <= sent + more <= |src|
    ensures Pieces(puts + [Put(inum, off + sent, src[sent..sent + more])], inum, off, src, sent + more)
  {
    var puts' := puts + [Put(inum, off + sent, src[sent..sent + more])];
    assert puts'[..|puts'| - 1] == puts;
  }

  class FileSys {
    const nmeta: int
    const inodestart: int
    const bmapstart: int
    var used: seq<bool>
    var inodes: seq<Inode>
    var dinodes: seq<Inode>
    var words: seq<seq<int>>
    var bytes: seq<seq<int>>
    var logged: set<int>
    ghost var owner: Owner

    ghost function FS(): Fs
      reads this
    {
      Fs(nmeta, used, inodes, words, bytes)
    }

    /** Every block in use has one owner and no file has a hole. */
    ghost predicate Valid()
      reads this
    {
      Owned(FS(), owner, {}) && FilesOk(FS()) && |dinodes| == |inodes|
    }

    /** A file system as found on disk, mounted. */
    constructor (nmeta: int, inodestart: int, bmapstart: int, used: seq<bool>, dinodes: seq<Inode>,
        words: seq<seq<int>>, bytes: seq<seq<int>>, ghost owner: Owner)
      requires Owned(Fs(nmeta, used, dinodes, words, bytes), owner, {})
      requires FilesOk(Fs(nmeta, used, dinodes, words, bytes))
      ensures Valid() && this.dinodes == inodes == dinodes && FS() == Fs(nmeta, used, dinodes, words, bytes)
      ensures logged == {} && this.owner == owner
      ensures this.inodestart == inodestart && this.bmapstart == bmapstart
    {
      this.nmeta, this.inodestart, this.bmapstart := nmeta, inodestart, bmapstart;
      this.used, this.inodes, this.dinodes, this.words, this.bytes := used, dinodes, dinodes, words, bytes;
      this.logged, this.owner := {}, owner;
    }

    function BBlock(b: int): int {
      b / BPB + bmapstart
    }

    function IBlock(inum: int): int {
      inum / IPB + inodestart
    }

    /** The bitmap blocks of a set of blocks. */
    ghost function Bits(bs: set<int>): set<int> {
      set b | b in bs :: BBlock(b)
    }

    /** Block b, if it or its bit changed, is among the logged blocks; so is the bitmap block of the bit. */
    ghost predicate NotedAt(fs: Fs, fs': Fs, l: set<int>, b: int) {
      0 <= b < |fs.used| == |fs'.used| && |fs.words| == |fs'.words| == |fs.bytes| == |fs'.bytes| == |fs.used| ==>
        && (fs'.used[b] != fs.used[b] ==> BBlock(b) in l && (fs'.used[b] ==> b in l))
        && (fs'.bytes[b] != fs.bytes[b] || fs'.words[b] != fs.words[b] ==> b in l)
    }

    /** Everything that changed is logged. */
    ghost predicate Noted(fs: Fs, fs': Fs, l: set<int>) {
      |fs'.used| == |fs.used| && forall b {:trigger NotedAt(fs, fs', l, b)} :: NotedAt(fs, fs', l, b)
    }

    /** What an operation owes the log: l has every block it changed and fits the reservation. */
    ghost predicate Journals(fs: Fs, fs': Fs, l: set<int>) {
      && Sound(fs) && Sound(fs') && SameSize(fs, fs') && Stays(fs, fs') && Noted(fs, fs', l)
      && (forall i :: 0 <= i < |fs.inodes| && fs'.inodes[i] != fs.inodes[i] ==> IBlock(i) in l)
      && |l| <= MAXOPBLOCKS
    }

    /** The file systems before, between and after transactions, what each logged and what each wrote. */
    ghost predicate Transactions(trace: seq<Fs>, ops: seq<set<int>>, puts: seq<Put>) {
      && |ops| == |puts| && |trace| == |ops| + 1
      && (forall k :: 0 <= k < |ops| ==> Journals(trace[k], trace[k + 1], ops[k]))
      && (forall k :: 0 <= k < |ops| ==> Chunk(trace[k], trace[k + 1], puts[k]))
    }

    lemma TransactionsMore(trace: seq<Fs>, ops: seq<set<int>>, puts: seq<Put>, fs: Fs, l: set<int>, put: Put)
      requires Transactions(trace, ops, puts) && Journals(trace[|ops|], fs, l) && Chunk(trace[|ops|], fs, put)
      ensures Transactions(trace + [fs], ops + [l], puts + [put])
    {
      hide Journals, Chunk;
    }

    lemma NotedNothing(fs: Fs, l: set<int>)
      ensures Noted(fs, fs, l)
    {
    }

    lemma NotedTwice(fs: Fs, fs1: Fs, fs2: Fs, l1: set<int>, l2: set<int>)
      requires Shape(fs) && Shape(fs1) && Shape(fs2) && Noted(fs, fs1, l1) && Noted(fs1, fs2, l2) && l1 <= l2
      ensures Noted(fs, fs2, l2)
    {
      forall b ensures NotedAt(fs, fs2, l2, b) {
        assert NotedAt(fs, fs1, l1, b) && NotedAt(fs1, fs2, l2, b);
      }
    }

    lemma NotedFree(fs: Fs, fs1: Fs, fs2: Fs, l1: set<int>, l2: set<int>, b: int)
      requires Noted(fs, fs1, l1) && 0 <= b < |fs1.used| && fs2 == Unmarked(fs1, b) && l2 == l1 + {BBlock(b)}
      ensures Noted(fs, fs2, l2)
    {
      forall x ensures NotedAt(fs, fs2, l2, x) { assert NotedAt(fs, fs1, l1, x); }
    }

    lemma NotedStays(fs: Fs, fs1: Fs, fs2: Fs, l1: set<int>, l2: set<int>)
      requires Noted(fs, fs1, l1) && l1 <= l2 && fs2 == fs1.(inodes := fs2.inodes)
      ensures Noted(fs, fs2, l2)
    {
      forall b ensures NotedAt(fs, fs2, l2, b) { assert NotedAt(fs, fs1, l1, b); }
    }

    /** bzero. */
    method Bzero(b: int)
      requires 0 <= b < |words| && |bytes| == |words|
      modifies this`words, this`bytes, this`logged
      ensures words == old(words)[b := Zeros(NINDIRECT)] && bytes == old(bytes)[b := Zeros(BSIZE)]
      ensures logged == old(logged) + {b}
    {
      words := words[b := seq(NINDIRECT, _ => 0)];
      bytes := bytes[b := seq(BSIZE, _ => 0)];
      logged := logged + {b};
    }

    /** balloc: the first free block, marked and zeroed, or 0 when every bit is set. */
    method Balloc() returns (r: int)
      requires Shape(FS()) && used[0]
      modifies this`used, this`words, this`bytes, this`logged
      ensures r == 0 ==> (forall x :: 0 <= x < |used| ==> used[x]) && FS() == old(FS()) && logged == old(logged)
      ensures r != 0 ==> 0 < r < |old(used)| && !old(used)[r] && (forall x :: 0 <= x < r ==> old(used)[x])
      ensures r != 0 ==> FS() == Marked(old(FS()), r) && logged == old(logged) + {BBlock(r), r}
    {
      var b := 0;
      while b < |used|
        invariant 0 <= b && b % BPB == 0 && FS() == old(FS()) && logged == old(logged)
        invariant forall x :: 0 <= x < b && x < |used| ==> used[x]
      {
        var bi := 0;
        while bi < BPB && b + bi < |used|
          invariant 0 <= bi <= BPB && (b + bi <= |used| || bi == 0) && FS() == old(FS()) && logged == old(logged)
          invariant forall x :: 0 <= x < b + bi && x < |used| ==> used[x]
        {
          if !used[b + bi] {
            used := used[b + bi := true];
            assert BBlock(b) == BBlock(b + bi);
            logged := logged + {BBlock(b)};
            Bzero(b + bi);
            return b + bi;
          }
          bi := bi + 1;
        }
        b := b + BPB;
      }
      return 0;
    }

    /** bfree: the bit must be set, or the kernel panics. */
    method Bfree(b: int)
      requires 0 <= b < |used| && used[b]
      modifies this`used, this`logged
      ensures used == old(used)[b := false] && logged == old(logged) + {BBlock(b)}
    {
      used := used[b := false];
      logged := logged + {BBlock(b)};
    }

    // -------------------------------------------------------------------------------
    // bmap

    /** balloc for a direct address or for the indirect block. */
    method AllocAddr(inum: int, k: int, ghost fs: Fs, ghost bn: int, ghost added: set<int>) returns (addr: int)
      requires Owned(FS(), owner, {}) && 0 <= k <= NDIRECT && Vacant(FS(), Slot(inum, k))
      requires Slot(inum, k) in {SlotFor(inum, bn), Slot(inum, NDIRECT)}
      requires Shape(fs) && Grew(fs, FS(), inum, bn, added) && Val(fs, Slot(inum, k)) == 0
      modifies this`used, this`words, this`bytes, this`logged, this`inodes, this`owner
      ensures addr == 0 ==>
                && (forall x :: 0 <= x < |used| ==> used[x]) && FS() == old(FS()) && logged == old(logged)
                && owner == old(owner)
      ensures addr != 0 ==>
                Owned(FS(), owner, {}) && Grew(fs, FS(), inum, bn, added + {addr}) && addr !in added && addr > 0
      ensures addr != 0 ==> Val(FS(), Slot(inum, k)) == addr && logged == old(logged) + {BBlock(addr), addr}
      ensures Noted(old(FS()), FS(), logged)
    {
      ghost var fs1 := FS();
      assert BlockOk(fs1, owner, {}, 0);
      addr := Balloc();
      if addr == 0 {
        return;
      }
      GrewMore(fs, fs1, owner, inum, bn, added, addr, Slot(inum, k));
      inodes := inodes[inum := inodes[inum].(addrs := inodes[inum].addrs[k := addr])];
      owner := owner[addr := Slot(inum, k)];
      assert FS() == Attached(Marked(fs1, addr), Slot(inum, k), addr);
    }

    /** balloc for an entry of the indirect block ind, which is then logged. */
    method AllocEntry(inum: int, j: int, ind: int, ghost fs: Fs, ghost added: set<int>) returns (addr: int)
      requires Owned(FS(), owner, {}) && 0 <= j < NINDIRECT && Vacant(FS(), SlotFor(inum, j + NDIRECT))
      requires ind == inodes[inum].addrs[NDIRECT] && Shape(fs) && Grew(fs, FS(), inum, j + NDIRECT, added)
      requires Val(fs, SlotFor(inum, j + NDIRECT)) == 0
      modifies this`used, this`words, this`bytes, this`logged, this`owner
      ensures addr == 0 ==>
                && (forall x :: 0 <= x < |used| ==> used[x]) && FS() == old(FS()) && logged == old(logged)
                && owner == old(owner)
      ensures addr != 0 ==>
                && Owned(FS(), owner, {}) && Grew(fs, FS(), inum, j + NDIRECT, added + {addr})
                && addr !in added && addr > 0
      ensures addr != 0 ==>
                Val(FS(), SlotFor(inum, j + NDIRECT)) == addr && logged == old(logged) + {BBlock(addr), addr, ind}
      ensures Noted(old(FS()), FS(), logged)
    {
      ghost var fs1, sl := FS(), SlotFor(inum, j + NDIRECT);
      assert BlockOk(fs1, owner, {}, 0);
      addr := Balloc();
      if addr != 0 {
        GrewMore(fs, fs1, owner, inum, j + NDIRECT, added, addr, sl);
        words := words[ind := words[ind][j := addr]];
        logged := logged + {ind};
        owner := owner[addr := sl];
        assert FS() == Attached(Marked(fs1, addr), sl, addr);
      }
    }

    /** The indirect block of an inode, or 0. */
    ghost function Ind(inum: int): int
      requires Shape(FS()) && 0 <= inum < |inodes|
      reads this
    {
      inodes[inum].addrs[NDIRECT]
    }

    /** The blocks bmap logs: those it allocates, their bitmap blocks, and the indirect block it writes. */
    ghost predicate LoggedBy(before: set<int>, added: set<int>, ind: set<int>)
      reads this
    {
      logged == before + added + Bits(added) + ind
    }

    lemma LogSum(before: set<int>, added: set<int>, addr: int, ind: int)
      ensures before + added + Bits(added) + {BBlock(addr), addr, ind} ==
                before + (added + {addr}) + Bits(added + {addr}) + {ind}
    {
      assert Bits(added + {addr}) == Bits(added) + {BBlock(addr)};
    }

    /** bmap for a direct block. */
    method BmapDirect(inum: int, bn: int) returns (addr: int, ghost added: set<int>)
      requires Owned(FS(), owner, {}) && 0 <= inum < |inodes| && 0 <= bn < NDIRECT
      modifies this`used, this`words, this`bytes, this`logged, this`inodes, this`owner
      ensures Owned(FS(), owner, {}) && Grew(old(FS()), FS(), inum, bn, added) && 0 !in added
      ensures addr == Val(FS(), SlotFor(inum, bn))
      ensures added == if old(Val(FS(), SlotFor(inum, bn))) == 0 && addr != 0 then {addr} else {}
      ensures added == {} ==> FS() == old(FS())
      ensures addr == 0 ==> forall x :: 0 <= x < |used| ==> used[x]
      ensures LoggedBy(old(logged), added, {}) && Noted(old(FS()), FS(), logged)
    {
      addr, added := inodes[inum].addrs[bn], {};
      GrewNothing(FS(), inum, bn);
      if addr == 0 {
        addr := AllocAddr(inum, bn, FS(), bn, {});
        if addr != 0 {
          added := {addr};
        }
      }
    }

    /** The first half of bmap beyond the direct blocks: the indirect block, allocated if need be. */
    method IndirectBlock(inum: int, bn: int) returns (ind: int, ghost added: set<int>)
      requires Owned(FS(), owner, {}) && 0 <= inum < |inodes| && NDIRECT <= bn < MAXFILE
      modifies this`used, this`words, this`bytes, this`logged, this`inodes, this`owner
      ensures Owned(FS(), owner, {}) && Grew(old(FS()), FS(), inum, bn, added) && 0 !in added && ind == Ind(inum)
      ensures added == if old(Ind(inum)) == 0 && ind != 0 then {ind} else {}
      ensures added == {} ==> FS() == old(FS())
      ensures ind != 0 ==> IndirectIn(FS(), inum) && (old(Ind(inum)) == 0 ==> old(Val(FS(), SlotFor(inum, bn))) == 0)
      ensures ind == 0 ==> forall x :: 0 <= x < |used| ==> used[x]
      ensures LoggedBy(old(logged), added, {}) && Noted(old(FS()), FS(), logged)
    {
      ind, added := inodes[inum].addrs[NDIRECT], {};
      GrewNothing(FS(), inum, bn);
      if ind == 0 {
        ind := AllocAddr(inum, NDIRECT, FS(), bn, {});
        if ind != 0 {
          added := {ind};
        }
      }
      SlotOwnsOrNone(FS(), owner, {}, Slot(inum, NDIRECT));
    }

    /** The entry of the indirect block, allocated if need be; `added` is what bmap has allocated before. */
    method BmapEntry(inum: int, bn: int, ind: int, ghost fs: Fs, ghost added: set<int>, ghost before: set<int>)
      returns (addr: int, ghost added': set<int>)
      requires Owned(FS(), owner, {}) && Shape(fs) && 0 <= inum < |inodes| == |fs.inodes| && NDIRECT <= bn < MAXFILE
      requires Grew(fs, FS(), inum, bn, added) && 0 !in added && ind == Ind(inum) && IndirectIn(FS(), inum)
      requires added <= {ind} && (added != {} ==> Val(fs, SlotFor(inum, bn)) == 0)
      requires LoggedBy(before, added, {}) && Noted(fs, FS(), logged) && (added == {} ==> FS() == fs)
      modifies this`used, this`words, this`bytes, this`logged, this`owner
      ensures Owned(FS(), owner, {}) && Grew(fs, FS(), inum, bn, added') && 0 !in added'
      ensures addr == Val(FS(), SlotFor(inum, bn)) && added' == added + NewData(fs, inum, bn, addr)
      ensures LoggedBy(before, added', if NewData(fs, inum, bn, addr) == {} then {} else {ind})
      ensures added' == {} ==> FS() == fs
      ensures addr == 0 ==> forall x :: 0 <= x < |used| ==> used[x]
      ensures Noted(fs, FS(), logged)
    {
      hide Owned, Noted;
      ghost var fs1, l1 := FS(), logged;
      added' := added;
      addr := words[ind][bn - NDIRECT];
      assert addr == Val(FS(), SlotFor(inum, bn));
      if addr != 0 {
        SlotOwns(FS(), owner, {}, SlotFor(inum, bn), Slot(inum, NDIRECT));
      } else {
        assert Val(fs, SlotFor(inum, bn)) == 0;
        addr := AllocEntry(inum, bn - NDIRECT, ind, fs, added);
        NotedTwice(fs, fs1, FS(), l1, logged);
        if addr != 0 {
          LogSum(before, added, addr, ind);
          added' := added + {addr};
        }
      }
    }

    /** bmap for an entry of the indirect block. */
    method BmapIndirect(inum: int, bn: int) returns (addr: int, ghost added: set<int>)
      requires Owned(FS(), owner, {}) && 0 <= inum < |inodes| && NDIRECT <= bn < MAXFILE
      modifies this`used, this`words, this`bytes, this`logged, this`inodes, this`owner
      ensures Owned(FS(), owner, {}) && Grew(old(FS()), FS(), inum, bn, added) && 0 !in added
      ensures addr == Val(FS(), SlotFor(inum, bn))
      ensures added == NewData(old(FS()), inum, bn, addr) + NewIndirect(old(FS()), FS(), inum)
      ensures LoggedBy(old(logged), added, if NewData(old(FS()), inum, bn, addr) == {} then {} else {Ind(inum)})
      ensures added == {} ==> FS() == old(FS())
      ensures addr == 0 ==> forall x :: 0 <= x < |used| ==> used[x]
      ensures Noted(old(FS()), FS(), logged)
    {
      ghost var fs := FS();
      assert Shape(fs);
      hide Owned, Noted, Grew;
      var ind: int;
      ind, added := IndirectBlock(inum, bn);
      if ind == 0 {
        return 0, added;
      }
      ghost var hung := added;
      addr, added := BmapEntry(inum, bn, ind, fs, hung, old(logged));
      assert hung == NewIndirect(fs, FS(), inum);
    }

    /** bmap: the block of file block bn, allocated if need be, or 0 when the disk is full. */
    method Bmap(inum: int, bn: int) returns (addr: int, ghost added: set<int>)
      requires Valid() && 0 <= inum < |inodes| && 0 <= bn < MAXFILE
      modifies this`used, this`words, this`bytes, this`logged, this`inodes, this`owner
      ensures Valid() && Grew(old(FS()), FS(), inum, bn, added) && 0 !in added && addr == Val(FS(), SlotFor(inum, bn))
      ensures added == NewData(old(FS()), inum, bn, addr) +
                       (if bn < NDIRECT then {} else NewIndirect(old(FS()), FS(), inum))
      ensures LoggedBy(old(logged), added,
                       if bn < NDIRECT || NewData(old(FS()), inum, bn, addr) == {} then {} else {Ind(inum)})
      ensures added == {} ==> FS() == old(FS())
      ensures addr == 0 ==> forall x :: 0 <= x < |used| ==> used[x]
      ensures Noted(old(FS()), FS(), logged)
    {
      ghost var fs := FS();
      assert Shape(fs);
      hide Owned, FilesOk, LoggedBy, Noted;
      if bn < NDIRECT {
        addr, added := BmapDirect(inum, bn);
      } else {
        addr, added := BmapIndirect(inum, bn);
      }
      GrewFiles(fs, FS(), inum, bn, added);
    }

    // -------------------------------------------------------------------------------
    // itrunc

    /** iupdate. */
    method Iupdate(inum: int)
      requires 0 <= inum < |inodes| == |dinodes|
      modifies this`dinodes, this`logged
      ensures dinodes == old(dinodes)[inum := inodes[inum]] && logged == old(logged) + {IBlock(inum)}
    {
      dinodes := dinodes[inum := inodes[inum]];
      logged := logged + {IBlock(inum)};
    }

    method SetAddr(inum: int, k: int)
      requires Shape(FS()) && 0 <= inum < |inodes| && 0 <= k <= NDIRECT
      modifies this`inodes
      ensures FS() == Detached(old(FS()), inum, k)
    {
      inodes := inodes[inum := inodes[inum].(addrs := inodes[inum].addrs[k := 0])];
    }

    /** One round of itrunc's first loop. */
    method DropOne(inum: int, k: int, ghost fs: Fs, ghost own: Owner)
      requires Owned(FS(), owner, {}) && 0 <= inum < |inodes| && 0 <= k < NDIRECT
      requires Owned(fs, own, {}) && Dropped(fs, own, FS(), owner, inum, k) && Noted(fs, FS(), logged)
      modifies this`used, this`logged, this`inodes, this`owner
      ensures Owned(FS(), owner, {}) && Dropped(fs, own, FS(), owner, inum, k + 1) && Noted(fs, FS(), logged)
    {
      var b := inodes[inum].addrs[k];
      assert Val(FS(), Slot(inum, k)) == Val(fs, Slot(inum, k)) == b;
      if b == 0 {
        DroppedNone(fs, own, FS(), owner, inum, k);
      } else {
        DropDirect(FS(), owner, inum, k);
        DroppedOne(fs, own, FS(), owner, inum, k);
        ghost var fs1, l1 := FS(), logged;
        Bfree(b);
        NotedFree(fs, fs1, FS(), l1, logged, b);
        ghost var fs2 := FS();
        SetAddr(inum, k);
        NotedStays(fs, fs2, FS(), logged, logged);
        owner := OwnerWithout(owner, inum, k);
      }
    }

    /** itrunc's second half: the entries of the indirect block, then the block itself. */
    method DropIndirect(inum: int, ghost fs: Fs, ghost own: Owner)
      requires Owned(FS(), owner, {}) && 0 <= inum < |inodes| && Owned(fs, own, {})
      requires Dropped(fs, own, FS(), owner, inum, NDIRECT)
      requires Noted(fs, FS(), logged)
      modifies this`used, this`logged, this`inodes, this`owner
      ensures Owned(FS(), owner, {}) && Dropped(fs, own, FS(), owner, inum, SLOTS) && Noted(fs, FS(), logged)
    {
      var ind := inodes[inum].addrs[NDIRECT];
      ghost var fs1, owner1 := FS(), owner;
      SlotOwnsOrNone(fs1, owner, {}, Slot(inum, NDIRECT));
      owner := OwnerWithout(owner, inum, NDIRECT);
      if ind != 0 {
        DropEntries(inum, ind, owner1, fs);
        ghost var fs2 := FS();
        SetAddr(inum, NDIRECT);
        NotedStays(fs, fs2, FS(), logged, logged);
      } else {
        NothingIndirect(fs1, owner1, inum);
      }
      DroppedAll(fs, own, fs1, owner1, inum, FS());
    }

    method DropEntries(inum: int, ind: int, ghost own: Owner, ghost fs: Fs)
      requires Owned(FS(), own, {}) && 0 <= inum < |inodes| && IndirectIn(FS(), inum)
      requires ind == inodes[inum].addrs[NDIRECT]
      requires Noted(fs, FS(), logged)
      modifies this`used, this`logged
      ensures |used| == |old(used)| && Noted(fs, FS(), logged)
      ensures Owned(Detached(FS(), inum, NDIRECT), OwnerWithout(own, inum, NDIRECT), {})
    {
      var a := words[ind];
      OrphanEntries(FS(), own, inum);
      ghost var rest := OwnerWithout(own, inum, NDIRECT);
      for j := 0 to NINDIRECT
        invariant |used| == |old(used)| && Shape(FS()) && Noted(fs, FS(), logged)
        invariant Owned(Detached(FS(), inum, NDIRECT), rest, Rest(a, j) + {ind})
      {
        RestStep(a, j, ind);
        if a[j] != 0 {
          FreeOwned(Detached(FS(), inum, NDIRECT), rest, Rest(a, j) + {ind}, a[j]);
          assert Unmarked(Detached(FS(), inum, NDIRECT), a[j]) == Detached(Unmarked(FS(), a[j]), inum, NDIRECT);
          ghost var fs1, l1 := FS(), logged;
          Bfree(a[j]);
          NotedFree(fs, fs1, FS(), l1, logged, a[j]);
        }
      }
      assert Rest(a, NINDIRECT) + {ind} == {ind} && {ind} - {ind} == {};
      FreeOwned(Detached(FS(), inum, NDIRECT), rest, {ind}, ind);
      assert Unmarked(Detached(FS(), inum, NDIRECT), ind) == Detached(Unmarked(FS(), ind), inum, NDIRECT);
      ghost var fs2, l2 := FS(), logged;
      Bfree(ind);
      NotedFree(fs, fs2, FS(), l2, logged, ind);
    }

    /** itrunc: the file's blocks, and no others, are free; the inode is empty, in memory and on disk. */
    method Itrunc(inum: int)
      requires Valid() && 0 <= inum < |inodes|
      modifies this`used, this`logged, this`inodes, this`owner, this`dinodes
      ensures Valid() && |inodes| == |old(inodes)| && dinodes == old(dinodes)[inum := inodes[inum]]
      ensures inodes[inum] == old(inodes)[inum].(size := 0, addrs := inodes[inum].addrs)
      ensures Noted(old(FS()), FS(), logged) && IBlock(inum) in logged
      ensures Dropped(old(FS()), old(owner),
                      FS().(inodes := inodes[inum := inodes[inum].(size := old(inodes)[inum].size)]),
                      owner, inum, SLOTS)
    {
      ghost var fs, own := FS(), owner;
      DroppedStart(fs, own, inum);
      for k := 0 to NDIRECT
        invariant dinodes == old(dinodes) && Owned(FS(), owner, {}) && Dropped(fs, own, FS(), owner, inum, k)
        invariant Noted(fs, FS(), logged)
      {
        DropOne(inum, k, fs, own);
      }
      DropIndirect(inum, fs, own);
      ghost var fs1 := FS();
      inodes := inodes[inum := inodes[inum].(size := 0)];
      assert fs1 == FS().(inodes := inodes[inum := inodes[inum].(size := fs.inodes[inum].size)]);
      TruncValid(fs, own, fs1, owner, inum, FS());
      ghost var l1 := logged;
      Iupdate(inum);
      NotedStays(fs, fs1, FS(), l1, logged);
    }

    // -------------------------------------------------------------------------------
    // writei

    /** bmap as writei uses it, with what it logs bounded. */
    method BmapLogged(inum: int, bn: int) returns (addr: int, ghost added: set<int>, ghost bits: set<int>)
      requires Valid() && 0 <= inum < |inodes| && 0 <= bn < MAXFILE
      modifies this`used, this`words, this`bytes, this`logged, this`inodes, this`owner
      ensures Valid() && Grew(old(FS()), FS(), inum, bn, added) && addr == Val(FS(), SlotFor(inum, bn))
      ensures addr == 0 ==> forall x :: 0 <= x < |used| ==> used[x]
      ensures old(Val(FS(), SlotFor(inum, bn))) != 0 ==> FS() == old(FS())
      ensures ChunkLog(old(FS()), FS(), old(logged), logged, inum, bn, addr, bits)
      ensures Noted(old(FS()), FS(), logged) && old(logged) <= logged
    {
      ghost var fs := FS();
      assert Shape(fs);
      hide Owned, FilesOk, Noted, Grew, ChunkLog, NewData, NewIndirect;
      addr, added := Bmap(inum, bn);
      bits := Bits(added);
      BmapChunk(fs, inum, bn, addr, added, old(logged));
    }

    /** What bmap logged, in terms of one round of writei. */
    lemma BmapChunk(fs: Fs, inum: int, bn: int, addr: int, added: set<int>, before: set<int>)
      requires Shape(fs) && Shape(FS()) && 0 <= inum < |fs.inodes| == |inodes| && 0 <= bn < MAXFILE
      requires Grew(fs, FS(), inum, bn, added) && addr == Val(FS(), SlotFor(inum, bn))
      requires added == NewData(fs, inum, bn, addr) + (if bn < NDIRECT then {} else NewIndirect(fs, FS(), inum))
      requires LoggedBy(before, added, if bn < NDIRECT || NewData(fs, inum, bn, addr) == {} then {} else {Ind(inum)})
      ensures ChunkLog(fs, FS(), before, logged, inum, bn, addr, Bits(added)) && before <= logged
      ensures Val(fs, SlotFor(inum, bn)) != 0 ==> added == {}
    {
      hide Grew, Bits, Val, Shape, IndCount;
      var data, ind := NewData(fs, inum, bn, addr), if bn < NDIRECT then {} else NewIndirect(fs, FS(), inum);
      BmapBits(fs, inum, bn, addr, data, ind);
      GrewIndirect(fs, FS(), inum, bn, added);
      IndirectThere(FS(), inum, bn);
      ChunkSets(before, addr, Ind(inum), bn < NDIRECT, data, ind, Bits(added));
      assert logged <= before + {addr} + Bits(added) + IndSet(FS(), inum);
      assert IndSet(fs, inum) <= IndSet(FS(), inum);
    }

    /** Their bitmap blocks: one for the data block, one for the indirect block, none if it was there. */
    lemma BmapBits(fs: Fs, inum: int, bn: int, addr: int, data: set<int>, ind: set<int>)
      requires Shape(fs) && Shape(FS()) && 0 <= inum < |fs.inodes| == |inodes| && 0 <= bn < MAXFILE
      requires data == NewData(fs, inum, bn, addr) && ind == if bn < NDIRECT then {} else NewIndirect(fs, FS(), inum)
      ensures |Bits(data + ind)| <= (if Val(fs, SlotFor(inum, bn)) == 0 then 1 else 0) + IndCount(fs, FS(), inum)
      ensures Val(fs, SlotFor(inum, bn)) != 0 ==> data + ind == {}
    {
      hide Bits, Val, Shape;
      IndirectThere(fs, inum, bn);
      BitsCount(addr, data != {}, Ind(inum), ind != {});
      assert data == (if data != {} then {addr} else {}) && ind == (if ind != {} then {Ind(inum)} else {});
    }

    lemma BitsCount(a: int, hasA: bool, b: int, hasB: bool)
      ensures |Bits((if hasA then {a} else {}) + (if hasB then {b} else {}))| <=
              (if hasA then 1 else 0) + (if hasB then 1 else 0)
    {
      assert Bits((if hasA then {a} else {}) + (if hasB then {b} else {})) ==
               (if hasA then {BBlock(a)} else {}) + (if hasB then {BBlock(b)} else {});
    }

    /** either_copyin into block a, and its log_write. */
    method PutBytes(a: int, at: int, piece: seq<int>)
      requires Valid() && 0 <= a < |bytes| && 0 <= at && at + |piece| <= BSIZE
      modifies this`bytes, this`logged
      ensures Valid() && FS() == Stored(old(FS()), a, at, piece) && logged == old(logged) + {a}
      ensures Noted(old(FS()), FS(), logged)
    {
      StoreOwned(FS(), owner, a, at, piece);
      bytes := bytes[a := Overwrite(bytes[a], at, piece)];
      logged := logged + {a};
    }

    /** File block bn is missing and there is no block left for it. */
    ghost predicate Full(inum: int, bn: int)
      reads this
    {
      Shape(FS()) && 0 <= inum < |inodes| && 0 <= bn < MAXFILE && Val(FS(), SlotFor(inum, bn)) == 0 &&
      forall x :: 0 <= x < |used| ==> used[x]
    }

    /** One round of writei's loop: m bytes copied into one block, or none when bmap or the copy fails. */
    method WriteChunk(inum: int, off: int, tot: int, src: seq<int>, copyFails: bool, ghost fs: Fs)
      returns (m: int, ghost addr: int, ghost bits: set<int>)
      requires Valid() && Wrote(fs, FS(), inum, off, tot, src) && 0 <= inum < |inodes|
      requires 0 <= off && 0 <= tot < |src| && off + |src| <= MAXFILE * BSIZE
      modifies this`used, this`words, this`bytes, this`logged, this`inodes, this`owner
      ensures Valid() && 0 <= m && tot + m <= |src| && Wrote(fs, FS(), inum, off, tot + m, src)
      ensures m == 0 ==> copyFails || Full(inum, (off + tot) / BSIZE)
      ensures Noted(old(FS()), FS(), logged) && old(logged) <= logged
      ensures m == 0 || m == ChunkLen(off + tot, |src| - tot)
      ensures ChunkLog(old(FS()), FS(), old(logged), logged, inum, (off + tot) / BSIZE, addr, bits)
    {
      hide FilesOk, Wrote, Noted, Grew;
      ghost var fs1, owner1 := FS(), owner;
      var bn, at := (off + tot) / BSIZE, (off + tot) % BSIZE;
      var a: int;
      ghost var added: set<int>;
      a, added, bits := BmapLogged(inum, bn);
      addr, m := a, 0;
      WroteSame(fs, fs1, owner1, inum, off, tot, src, FS(), bn, added);
      if a == 0 || copyFails {
        return;
      }
      m := ChunkLen(off + tot, |src| - tot);
      ChunkFits(off + tot, |src| - tot);
      WroteMore(fs, fs1, owner1, inum, off, tot, src, FS(), owner, added, m);
      ghost var fs2, l2 := FS(), logged;
      PutBytes(a, at, src[tot..tot + m]);
      NotedTwice(fs1, fs2, FS(), l2, logged);
    }

    /** A round of writei's loop together with the account of what has been logged. */
    method WriteRound(inum: int, off: int, tot: int, src: seq<int>, chunk: int, fail: int, ghost fs: Fs,
        ghost before: set<int>, ghost data: set<int>, ghost bits: set<int>)
      returns (tot': int, ghost data': set<int>, ghost bits': set<int>)
      requires Valid() && 0 <= inum < |inodes| && 0 <= off && off + |src| <= MAXFILE * BSIZE && 0 <= tot < |src|
      requires 0 <= chunk
      requires Wrote(fs, FS(), inum, off, tot, src) && off <= fs.inodes[inum].size && (chunk == 0 ==> tot == 0)
      requires Spent(fs, FS(), before, logged, inum, off, chunk, data, bits) && Noted(fs, FS(), logged)
      modifies this`used, this`words, this`bytes, this`logged, this`inodes, this`owner
      ensures Valid() && |inodes| == |old(inodes)| && Wrote(fs, FS(), inum, off, tot', src)
      ensures Spent(fs, FS(), before, logged, inum, off, chunk + 1, data', bits')
      ensures tot' == tot || tot' == tot + ChunkLen(off + tot, |src| - tot)
      ensures tot' == tot ==> chunk == fail || Full(inum, (off + tot) / BSIZE)
      ensures Noted(fs, FS(), logged)
    {
      hide Spent, ChunkLog, Owned, FilesOk, ChunkLen;
      ghost var fs1, l1 := FS(), logged;
      var m: int;
      ghost var addr: int, more: set<int>;
      m, addr, more := WriteChunk(inum, off, tot, src, chunk == fail, fs);
      if chunk == 0 && off % BSIZE != 0 {
        FirstBlockMapped(fs, fs1, inum, off, tot, src);
      }
      SpentMore(fs, fs1, FS(), before, l1, logged, inum, off, chunk, data, bits, (off + tot) / BSIZE, addr, more);
      NotedTwice(fs, fs1, FS(), l1, logged);
      tot', data', bits' := tot + m, data + {addr}, bits + more;
    }

    /** writei's loop. */
    method WriteLoop(inum: int, off: int, src: seq<int>, fail: int)
      returns (tot: int, ghost data: set<int>, ghost bits: set<int>)
      requires Valid() && 0 <= inum < |inodes| && 0 <= off <= inodes[inum].size && off + |src| <= MAXFILE * BSIZE
      modifies this`used, this`words, this`bytes, this`logged, this`inodes, this`owner
      ensures Valid() && |inodes| == |old(inodes)| && 0 <= tot <= |src| && Wrote(old(FS()), FS(), inum, off, tot, src)
      ensures tot < |src| ==> 0 <= fail < Span(off, |src|) || Full(inum, (off + tot) / BSIZE)
      ensures Noted(old(FS()), FS(), logged)
      ensures logged <= old(logged) + data + bits + IndSet(FS(), inum)
      ensures |data| <= Span(off, |src|)
      ensures |bits| <= Span(off, |src|) + 1 - (if off % BSIZE != 0 && |src| > 0 then 1 else 0)
    {
      ghost var fs := FS();
      assert Shape(fs);
      hide Wrote, Owned, FilesOk, Progress, ChunkLen, Span, Spent, Noted, Full;
      tot, data, bits := 0, {}, {};
      var chunk := 0;
      WroteNothing(fs, inum, off, src);
      NotedNothing(fs, logged);
      SpentNothing(fs, logged, inum, off);
      ProgressStart(off, |src|);
      while tot < |src|
        invariant Valid() && |inodes| == |old(inodes)| && Wrote(fs, FS(), inum, off, tot, src)
        invariant 0 <= tot <= |src| && 0 <= chunk <= Span(off, |src|) && Progress(off, tot, |src|, chunk)
        invariant Spent(fs, FS(), old(logged), logged, inum, off, chunk, data, bits) && Noted(fs, FS(), logged)
      {
        ProgressStep(off, tot, |src|, chunk);
        var done := tot;
        tot, data, bits := WriteRound(inum, off, tot, src, chunk, fail, fs, old(logged), data, bits);
        chunk := chunk + 1;
        if tot == done {
          break;
        }
      }
      SpentBound(fs, FS(), old(logged), logged, inum, off, |src|, chunk, data, bits);
    }

    /**
    writei.  r bytes of src replace or extend the file from off on, all of them unless the disk is
    full or the copy of chunk number `fail` fails; every other file is as before.
    */
    method Writei(inum: int, off: int, src: seq<int>, fail: int)
      returns (r: int, ghost data: set<int>, ghost bits: set<int>)
      requires Valid() && 0 <= inum < |inodes| && 0 <= off < UINT && |src| < UINT
      modifies this`used, this`words, this`bytes, this`logged, this`inodes, this`owner, this`dinodes
      ensures Valid() && |inodes| == |old(inodes)|
      ensures (r == -1 <==> off > old(inodes)[inum].size || off + |src| > MAXFILE * BSIZE)
      ensures r == -1 ==> FS() == old(FS()) && dinodes == old(dinodes) && logged == old(logged)
      ensures r != -1 ==> 0 <= r <= |src|
      ensures r != -1 && r < |src| ==> 0 <= fail < Span(off, |src|) || Full(inum, (off + r) / BSIZE)
      ensures r != -1 ==> Noted(old(FS()), FS(), logged) && IBlock(inum) in logged && Stays(old(FS()), FS())
      ensures r != -1 ==> dinodes == old(dinodes)[inum := inodes[inum]]
      ensures forall i :: 0 <= i < |inodes| ==>
                inodes[i].typ == old(inodes)[i].typ && inodes[i].nlink == old(inodes)[i].nlink
      ensures r != -1 ==>
                && FileOk(old(FS()), inum) && FileOk(FS(), inum)
                && Content(FS(), inum) == Overwrite(old(Content(FS(), inum)), off, src[..r])
      ensures OthersSame(old(FS()), FS(), inum)
      ensures forall i :: 0 <= i < |inodes| && i != inum ==> inodes[i] == old(inodes)[i]
      ensures r != -1 ==> logged <= old(logged) + data + bits + IndSet(FS(), inum) + {IBlock(inum)}
      ensures r != -1 ==>
                && |data| <= Span(off, |src|)
                && |bits| <= Span(off, |src|) + 1 - (if off % BSIZE != 0 && |src| > 0 then 1 else 0)
    {
      ghost var fs, own := FS(), owner;
      data, bits := {}, {};
      FilesAt(fs);
      if off > inodes[inum].size || off + |src| >= UINT {
        r := -1;
        return;
      }
      if off + |src| > MAXFILE * BSIZE {
        r := -1;
        return;
      }
      r, data, bits := WriteLoop(inum, off, src, fail);
      ghost var fs1 := FS();
      WroteFiles(fs, own, fs1, owner, inum, off, r, src);
      forall i | 0 <= i < |inodes|
        ensures FileOk(fs, i) && 0 <= Resized(fs1, inum, off + r).inodes[i].size
        ensures Content(Resized(fs1, inum, off + r), i) ==
                if i == inum then Overwrite(Content(fs, inum), off, src[..r]) else Content(fs, i)
      {
        WroteContent(fs, own, fs1, owner, inum, off, r, src, i);
      }
      if off + r > inodes[inum].size {
        inodes := inodes[inum := inodes[inum].(size := off + r)];
      }
      assert FS() == Resized(fs1, inum, off + r);
      FilesAt(FS());
      ghost var l1 := logged;
      Iupdate(inum);
      NotedStays(fs, fs1, FS(), l1, logged);
      FullStays(fs1, FS(), inum, (off + r) / BSIZE);
    }

    /** One round of readi's loop: the block is there, so bmap allocates nothing. */
    method ReadChunk(inum: int, o: int, m: int) returns (piece: seq<int>)
      requires Valid() && 0 <= inum < |inodes| && 0 <= o && 0 < m && o % BSIZE + m <= BSIZE
      requires o + m <= inodes[inum].size
      modifies this`used, this`words, this`bytes, this`logged, this`inodes, this`owner
      ensures Valid() && FS() == old(FS()) && logged == old(logged) && piece == Content(FS(), inum)[o..o + m]
    {
      Piece(FS(), owner, inum, o, m);
      var a: int;
      ghost var added: set<int>;
      a, added := Bmap(inum, o / BSIZE);
      piece := bytes[a][o % BSIZE..o % BSIZE + m];
    }

    /**
    readi.  The bytes from off on, clipped to the file's size, and nothing else changes: readi
    never allocates.  -1 when the copy of chunk number `fail` fails.
    */
    method Readi(inum: int, off: int, n: int, fail: int) returns (r: int, out: seq<int>)
      requires Valid() && 0 <= inum < |inodes| && 0 <= off < UINT && 0 <= n < UINT
      modifies this`used, this`words, this`bytes, this`logged, this`inodes, this`owner
      ensures Valid() && FS() == old(FS()) && logged == old(logged)
      ensures off > inodes[inum].size || off + n >= UINT ==> r == 0 && out == []
      ensures off <= inodes[inum].size && off + n < UINT ==>
                var len := if off + n > inodes[inum].size then inodes[inum].size - off else n;
                if 0 <= fail < Span(off, len) then r == -1 else r == len && out == Content(FS(), inum)[off..off + len]
    {
      out := [];
      FilesAt(FS());
      if off > inodes[inum].size || off + n >= UINT {
        r := 0;
        return;
      }
      var len := if off + n > inodes[inum].size then inodes[inum].size - off else n;
      r, out := ReadLoop(inum, off, len, fail);
    }

    /** readi's loop. */
    method ReadLoop(inum: int, off: int, len: int, fail: int) returns (r: int, out: seq<int>)
      requires Valid() && 0 <= inum < |inodes| && 0 <= off && 0 <= len && off + len <= inodes[inum].size
      modifies this`used, this`words, this`bytes, this`logged, this`inodes, this`owner
      ensures Valid() && FS() == old(FS()) && logged == old(logged)
      ensures if 0 <= fail < Span(off, len) then r == -1 else r == len && out == Content(FS(), inum)[off..off + len]
    {
      hide Owned, FilesOk, Progress, ChunkLen, Span, Content, Shape;
      ghost var fs := FS();
      HasContent(fs, owner, inum);
      ghost var content := Content(fs, inum);
      out := [];
      var tot, chunk := 0, 0;
      ProgressStart(off, len);
      while tot < len
        invariant Valid() && FS() == fs && logged == old(logged) && 0 <= tot <= len && Progress(off, tot, len, chunk)
        invariant out == content[off..off + tot]
        invariant !(0 <= fail < chunk) && 0 <= chunk
      {
        ProgressStep(off, tot, len, chunk);
        ChunkFits(off + tot, len - tot);
        var m := ChunkLen(off + tot, len - tot);
        var piece := ReadChunk(inum, off + tot, m);
        if chunk == fail {
          r := -1;
          return;
        }
        out := out + piece;
        tot, chunk := tot + m, chunk + 1;
      }
      ProgressEnd(off, len, chunk);
      r := tot;
    }

    // -------------------------------------------------------------------------------
    // filewrite

    /** One chunk of filewrite: a transaction of its own, within the log's reservation. */
    method WriteOp(inum: int, off: int, src: seq<int>, fail: int) returns (r: int)
      requires Valid() && 0 <= inum < |inodes| && 0 <= off < UINT && |src| <= MAXCHUNK
      modifies this
      ensures Valid() && |inodes| == |old(inodes)| && |logged| <= MAXOPBLOCKS
      ensures r == -1 ==> FS() == old(FS())
      ensures r == -1 <==> off > old(inodes)[inum].size || off + |src| > MAXFILE * BSIZE
      ensures r != -1 ==> FileOk(old(FS()), inum) && FileOk(FS(), inum) && off <= old(inodes)[inum].size
      ensures r != -1 ==>
                && 0 <= r <= |src|
                && Content(FS(), inum) == Overwrite(old(Content(FS(), inum)), off, src[..r])
                && (r < |src| ==> 0 <= fail < Span(off, |src|) || Full(inum, (off + r) / BSIZE))
      ensures OthersSame(old(FS()), FS(), inum)
      ensures forall i :: 0 <= i < |inodes| && i != inum ==> inodes[i] == old(inodes)[i]
      ensures old(dinodes) == old(inodes) ==> dinodes == inodes
      ensures r != -1 ==> Noted(old(FS()), FS(), logged) && IBlock(inum) in logged && Stays(old(FS()), FS())
      ensures Journals(old(FS()), FS(), logged)
      ensures Chunk(old(FS()), FS(), Put(inum, off, src[..if r > 0 then r else 0]))
    {
      hide Full, Noted, Stays;
      ghost var fs := FS();
      FilesAt(fs);
      logged := {};
      ghost var data, bits: set<int>;
      r, data, bits := Writei(inum, off, src, fail);
      if r != -1 {
        OpFits(off, |src|, logged, data, bits, IndSet(FS(), inum), {IBlock(inum)});
      } else {
        NotedNothing(fs, logged);
        StaysSelf(fs);
      }
      if r == 0 {
        OverwriteJoin(Content(fs, inum), off, [], []);
      }
      assert Owned(fs, old(owner), {}) && Owned(FS(), owner, {});
    }

    /** A round of filewrite's loop, r more bytes after the first i of a write at off. */
    method WriteMore(inum: int, off: int, src: seq<int>, i: int, n1: int, fail: int, ghost fs: Fs) returns (r: int)
      requires Valid() && 0 <= inum < |inodes| == |fs.inodes| && 0 <= off && off + i < UINT && 0 <= i
      requires 0 <= n1 <= MAXCHUNK && i + n1 <= |src|
      requires Shape(fs) && Written(fs, FS(), inum, off, i, src) && FilesOk(fs)
      modifies this
      ensures Valid() && Shape(FS()) && |inodes| == |old(inodes)| && |logged| <= MAXOPBLOCKS && -1 <= r <= n1
      ensures Written(fs, FS(), inum, off, if r > 0 then i + r else i, src)
      ensures r >= 0 ==> off + i + n1 <= MAXFILE * BSIZE
      ensures r == -1 ==> off > fs.inodes[inum].size || off + i + n1 > MAXFILE * BSIZE
      ensures r != n1 ==> r == -1 || 0 <= fail < Span(off + i, n1) || Full(inum, (off + i + r) / BSIZE)
      ensures Journals(old(FS()), FS(), logged)
      ensures Chunk(old(FS()), FS(), Put(inum, off + i, src[i..if r > 0 then i + r else i]))
    {
      hide Noted, Full, Stays, OthersSame, Content, Overwrite, FilesOk, Span, Journals, Chunk;
      ghost var fs1 := FS();
      if off <= fs.inodes[inum].size {
        WrittenReaches(fs, fs1, inum, off, i, src);
      }
      r := WriteOp(inum, off + i, src[i..i + n1], fail);
      OthersTwice(fs, fs1, FS(), inum);
      assert src[i..i + n1][..if r > 0 then r else 0] == src[i..if r > 0 then i + r else i];
      if r >= 0 {
        assert src[i..i + n1][..r] == src[i..i + r];
        OverwriteTwice(fs, fs1, inum, off, i, r, src);
      }
    }

    /**
    filewrite on an inode: chunks of at most MAXCHUNK bytes, each one transaction.  `trace`, `ops` and
    `puts` are the file systems between the transactions, what each logged and what each wrote; the
    copy fails in block failBlock of the chunk at byte failAt.  The result is n exactly when all n
    bytes were written, and the file's offset has moved past what was.
    */
    method Filewrite(inum: int, off: int, src: seq<int>, failAt: int, failBlock: int)
      returns (ret: int, off': int, ghost trace: seq<Fs>, ghost ops: seq<set<int>>, ghost puts: seq<Put>)
      requires Valid() && 0 <= inum < |inodes| && 0 <= off <= MAXFILE * BSIZE && |src| < UINT
      modifies this
      ensures Valid() && |inodes| == |old(inodes)|
      ensures Transactions(trace, ops, puts) && trace[0] == old(FS()) && trace[|ops|] == FS()
      ensures Pieces(puts, inum, off, src, off' - off)
      ensures off <= off' <= off + |src| && ret == if off' == off + |src| then |src| else -1
      ensures Written(old(FS()), FS(), inum, off, off' - off, src)
      ensures ret != |src| ==>
                || off > old(inodes)[inum].size || off + |src| > MAXFILE * BSIZE
                || (0 <= failAt < |src| && 0 <= failBlock < 4) || Full(inum, off' / BSIZE)
    {
      hide Full, Written, Span, Owned, FilesOk, Shape, Journals, Chunk, Pieces;
      ghost var fs := FS();
      WrittenNothing(fs, owner, inum, off, src);
      NoPieces(inum, off, src);
      var i := 0;
      off', trace, ops, puts := off, [fs], [], [];
      while i < |src|
        invariant Valid() && |inodes| == |old(inodes)| && 0 <= i <= |src| && off' == off + i && off' <= MAXFILE * BSIZE
        invariant Transactions(trace, ops, puts) && trace[0] == fs && trace[|ops|] == FS()
        invariant Pieces(puts, inum, off, src, i)
        invariant Shape(FS()) && Written(fs, FS(), inum, off, i, src)
      {
        var n1 := if |src| - i > MAXCHUNK then MAXCHUNK else |src| - i;
        ChunkSpan(off + i, n1);
        var r := WriteMore(inum, off, src, i, n1, if i == failAt then failBlock else -1, fs);
        ghost var more := if r > 0 then r else 0;
        ghost var put := Put(inum, off + i, src[i..i + more]);
        TransactionsMore(trace, ops, puts, FS(), logged, put);
        PiecesMore(puts, inum, off, src, i, more);
        trace, ops, puts := trace + [FS()], ops + [logged], puts + [put];
        if r > 0 {
          off' := off' + r;
        }
        if r != n1 {
          break;
        }
        i := i + r;
      }
      ret := if i == |src| then |src| else -1;
    }
  }

  /** max in filewrite: room for the inode, the indirect block, two blocks of slop, and a bitmap block each. */
  const MAXCHUNK: nat := (MAXOPBLOCKS - 1 - 1 - 2) / 2 * BSIZE

  /** A chunk lies in at most four blocks, three if it is aligned. */
  lemma ChunkSpan(off: int, n: nat)
    requires 0 <= off && n <= MAXCHUNK
    ensures 0 <= Span(off, n) <= 4 && (off % BSIZE == 0 ==> Span(off, n) <= 3)
  {
    var x, q := off % BSIZE, off / BSIZE;
    assert off == q * BSIZE + x;
    if n > 0 {
      assert (off + n - 1) / BSIZE == q + (x + n - 1) / BSIZE;
    }
  }

  lemma OpFits(off: int, n: nat, logged: set<int>, data: set<int>, bits: set<int>, ind: set<int>, inode: set<int>)
    requires 0 <= off && n <= MAXCHUNK && logged <= data + bits + ind + inode && |ind| <= 1 && |inode| <= 1
    requires |data| <= Span(off, n) && |bits| <= Span(off, n) + 1 - (if off % BSIZE != 0 && n > 0 then 1 else 0)
    ensures |logged| <= MAXOPBLOCKS
  {
    ChunkSpan(off, n);
    SubsetCount(logged, data + bits + ind + inode);
    assert |data + bits + ind + inode| <= |data| + |bits| + |ind| + |inode|;
  }

  lemma SubsetCount(a: set<int>, b: set<int>)
    requires a <= b
    ensures |a| <= |b|
  {
    assert a + (b - a) == b;
  }

  ghost predicate SameFile(fs: Fs, fs1: Fs, i: int)
    requires Shape(fs) && Shape(fs1)
  {
    0 <= i < |fs.inodes| && i < |fs1.inodes| ==> FileOk(fs, i) && FileOk(fs1, i) && Content(fs1, i) == Content(fs, i)
  }

  /** Every file but inum reads as before. */
  ghost predicate OthersSame(fs: Fs, fs1: Fs, inum: int)
    requires Shape(fs) && Shape(fs1)
  {
    |fs1.inodes| == |fs.inodes| && forall i :: i != inum ==> SameFile(fs, fs1, i)
  }

  lemma OthersTwice(fs: Fs, fs1: Fs, fs2: Fs, inum: int)
    requires Shape(fs) && Shape(fs1) && Shape(fs2) && OthersSame(fs, fs1, inum) && OthersSame(fs1, fs2, inum)
    ensures OthersSame(fs, fs2, inum)
  {
    forall i | i != inum
      ensures SameFile(fs, fs2, i)
    {
      assert SameFile(fs, fs1, i) && SameFile(fs1, fs2, i);
    }
  }

  /** The first k bytes of src have been written at off and nothing else in any file has changed. */
  ghost predicate Written(fs: Fs, fs1: Fs, inum: int, off: int, k: int, src: seq<int>)
    requires Shape(fs) && Shape(fs1) && 0 <= inum < |fs.inodes| == |fs1.inodes|
  {
    && 0 <= k <= |src| && OthersSame(fs, fs1, inum) && FileOk(fs, inum) && FileOk(fs1, inum)
    && (k > 0 ==> 0 <= off <= fs.inodes[inum].size)
    && Content(fs1, inum) == if k == 0 then Content(fs, inum) else Overwrite(Content(fs, inum), off, src[..k])
  }

  lemma WrittenNothing(fs: Fs, owner: Owner, inum: int, off: int, src: seq<int>)
    requires Owned(fs, owner, {}) && FilesOk(fs) && 0 <= inum < |fs.inodes|
    ensures Shape(fs) && Written(fs, fs, inum, off, 0, src)
  {
    FilesAt(fs);
  }

  lemma StaysSelf(fs: Fs)
    requires Shape(fs)
    ensures Stays(fs, fs)
  {
  }

  lemma WrittenReaches(fs: Fs, fs1: Fs, inum: int, off: int, k: int, src: seq<int>)
    requires Shape(fs) && Shape(fs1) && 0 <= inum < |fs.inodes| == |fs1.inodes|
    requires Written(fs, fs1, inum, off, k, src) && 0 <= off <= fs.inodes[inum].size
    ensures off + k <= fs1.inodes[inum].size
  {
    OverwriteJoin(Content(fs, inum), off, src[..k], []);
  }

  /** Two writes in a row are one longer write. */
  lemma OverwriteTwice(fs: Fs, fs1: Fs, inum: int, off: int, i: int, r: int, src: seq<int>)
    requires Shape(fs) && Shape(fs1) && 0 <= inum < |fs.inodes| == |fs1.inodes|
    requires Written(fs, fs1, inum, off, i, src) && 0 <= off && 0 <= r && i + r <= |src|
    requires off + i <= fs1.inodes[inum].size
    ensures off <= fs.inodes[inum].size && off + i <= |Content(fs1, inum)|
    ensures Overwrite(Content(fs1, inum), off + i, src[i..i + r]) == Overwrite(Content(fs, inum), off, src[..i + r])
    ensures i + r == 0 ==> Overwrite(Content(fs, inum), off, src[..i + r]) == Content(fs, inum)
  {
    hide Content, OthersSame, FileOk, Shape, Overwrite;
    var c := Content(fs, inum);
    assert src[..0] == [];
    assert src[..i] + src[i..i + r] == src[..i + r];
    assert |c| == fs.inodes[inum].size && |Content(fs1, inum)| == fs1.inodes[inum].size;
    OverwriteJoin(c, off, src[..i], src[i..i + r]);
  }

  /** Overwriting with nothing changes nothing, and overwriting twice in a row is overwriting once. */
  lemma OverwriteJoin(c: seq<int>, off: int, xs: seq<int>, ys: seq<int>)
    requires 0 <= off <= |c|
    ensures Overwrite(c, off, []) == c && off + |xs| <= |Overwrite(c, off, xs)|
    ensures Overwrite(Overwrite(c, off, xs), off + |xs|, ys) == Overwrite(c, off, xs + ys)
  {
  }

  /** After `chunk` rounds tot bytes are done, and what is left starts on a block boundary. */
  ghost predicate Progress(off: int, tot: int, n: int, chunk: int) {
    && 0 <= off && 0 <= tot <= n && 0 <= chunk <= Span(off, n)
    && (tot == n ==> chunk == Span(off, n))
    && (tot < n ==>
          chunk == (off + tot) / BSIZE - off / BSIZE && (if chunk == 0 then tot == 0 else (off + tot) % BSIZE == 0))
  }

  lemma ProgressStart(off: int, n: nat)
    requires 0 <= off
    ensures Progress(off, 0, n, 0) && 0 <= Span(off, n) && (n > 0 ==> 0 < Span(off, n))
  {
  }

  lemma ProgressEnd(off: int, n: int, chunk: int)
    requires Progress(off, n, n, chunk)
    ensures chunk == Span(off, n)
  {
  }

  lemma ProgressStep(off: int, tot: int, n: int, chunk: int)
    requires Progress(off, tot, n, chunk) && tot < n
    ensures chunk + 1 <= Span(off, n) && (chunk == 0 ==> tot == 0) && 0 < ChunkLen(off + tot, n - tot) <= n - tot
    ensures Progress(off, tot + ChunkLen(off + tot, n - tot), n, chunk + 1)
  {
    ChunkFits(off + tot, n - tot);
  }

  lemma FullStays(fs: Fs, fs': Fs, inum: int, bn: int)
    requires Shape(fs) && Shape(fs') && fs' == fs.(inodes := fs'.inodes) && |fs'.inodes| == |fs.inodes|
    requires 0 <= inum < |fs.inodes|
    requires fs'.inodes[inum].addrs == fs.inodes[inum].addrs
    ensures 0 <= bn < MAXFILE ==> Val(fs', SlotFor(inum, bn)) == Val(fs, SlotFor(inum, bn))
  {
  }

  lemma WroteNothing(fs: Fs, inum: int, off: int, src: seq<int>)
    requires Shape(fs)
    ensures Wrote(fs, fs, inum, off, 0, src)
  {
  }

  /** An unaligned offset lies in a block the file already has. */
  lemma FirstBlockMapped(fs: Fs, fs1: Fs, inum: int, off: int, tot: int, src: seq<int>)
    requires Wrote(fs, fs1, inum, off, tot, src) && FilesOk(fs1) && 0 <= inum < |fs.inodes|
    requires 0 <= off <= fs.inodes[inum].size && off % BSIZE != 0 && off < MAXFILE * BSIZE
    ensures Val(fs1, SlotFor(inum, off / BSIZE)) != 0
  {
    assert FileOk(fs1, inum);
    assert 0 <= off / BSIZE < MAXFILE && off / BSIZE * BSIZE < fs1.inodes[inum].size;
  }

  lemma HasContent(fs: Fs, owner: Owner, inum: int)
    requires Owned(fs, owner, {}) && FilesOk(fs) && 0 <= inum < |fs.inodes|
    ensures Shape(fs) && 0 <= fs.inodes[inum].size
  {
    assert FileOk(fs, inum);
  }

  lemma FilesAt(fs: Fs)
    requires Shape(fs) && FilesOk(fs)
    ensures forall i :: 0 <= i < |fs.inodes| ==> FileOk(fs, i)
  {
    forall i | 0 <= i < |fs.inodes| ensures FileOk(fs, i) { }
  }

  ghost function IndSet(fs: Fs, inum: int): set<int>
    requires Shape(fs) && 0 <= inum < |fs.inodes|
  {
    var ind := fs.inodes[inum].addrs[NDIRECT];
    if ind == 0 then {} else {ind}
  }

  ghost function IndCount(fs: Fs, fs': Fs, inum: int): int
    requires Shape(fs) && Shape(fs') && 0 <= inum < |fs.inodes| == |fs'.inodes|
  {
    if fs.inodes[inum].addrs[NDIRECT] == 0 && fs'.inodes[inum].addrs[NDIRECT] != 0 then 1 else 0
  }

  /** What one round of writei may log: a data block, bitmap blocks, the indirect block. */
  ghost predicate ChunkLog(fs: Fs, fs': Fs, before: set<int>, logged: set<int>, inum: int, bn: int, addr: int,
      bits: set<int>)
    requires Shape(fs) && SlotIn(fs, SlotFor(inum, bn))
  {
    && Shape(fs') && |fs'.inodes| == |fs.inodes| && logged <= before + {addr} + bits + IndSet(fs', inum)
    && |bits| <= (if Val(fs, SlotFor(inum, bn)) == 0 then 1 else 0) + IndCount(fs, fs', inum)
    && IndSet(fs, inum) <= IndSet(fs', inum)
  }

  /** The same for c rounds of a write at off. */
  ghost predicate Spent(fs: Fs, fs': Fs, before: set<int>, logged: set<int>, inum: int, off: int, c: int,
      data: set<int>, bits: set<int>)
    requires Shape(fs) && 0 <= inum < |fs.inodes|
  {
    && Shape(fs') && |fs'.inodes| == |fs.inodes| && logged <= before + data + bits + IndSet(fs', inum)
    && |data| <= c && |bits| <= c - (if c > 0 && off % BSIZE != 0 then 1 else 0) + IndCount(fs, fs', inum)
    && IndSet(fs, inum) <= IndSet(fs', inum)
  }

  lemma SpentNothing(fs: Fs, before: set<int>, inum: int, off: int)
    requires Shape(fs) && 0 <= inum < |fs.inodes|
    ensures Spent(fs, fs, before, before, inum, off, 0, {}, {})
  {
  }

  /** What a whole write of n bytes may log. */
  lemma SpentBound(fs: Fs, fs': Fs, before: set<int>, logged: set<int>, inum: int, off: int, n: nat, c: int,
      data: set<int>, bits: set<int>)
    requires Shape(fs) && 0 <= inum < |fs.inodes| && 0 <= off && 0 <= c <= Span(off, n)
    requires Spent(fs, fs', before, logged, inum, off, c, data, bits)
    ensures Shape(fs') && |fs'.inodes| == |fs.inodes| && logged <= before + data + bits + IndSet(fs', inum)
    ensures |data| <= Span(off, n)
    ensures |bits| <= Span(off, n) + 1 - (if off % BSIZE != 0 && n > 0 then 1 else 0)
  {
  }

  lemma SpentMore(fs: Fs, fs1: Fs, fs2: Fs, before: set<int>, l1: set<int>, l2: set<int>, inum: int, off: int, c: int,
      data: set<int>, bits: set<int>, bn: int, addr: int, b2: set<int>)
    requires Shape(fs) && 0 <= inum < |fs.inodes| && 0 <= c && 0 <= bn < MAXFILE
    requires Spent(fs, fs1, before, l1, inum, off, c, data, bits)
    requires ChunkLog(fs1, fs2, l1, l2, inum, bn, addr, b2)
    requires c == 0 && off % BSIZE != 0 ==> Val(fs1, SlotFor(inum, bn)) != 0
    ensures Spent(fs, fs2, before, l2, inum, off, c + 1, data + {addr}, bits + b2)
  {
    assert |data + {addr}| <= |data| + 1 && |bits + b2| <= |bits| + |b2|;
    assert IndCount(fs, fs2, inum) == IndCount(fs, fs1, inum) + IndCount(fs1, fs2, inum);
  }

  lemma ChunkSets(before: set<int>, addr: int, ind: int, direct: bool, d: set<int>, n: set<int>, bits: set<int>)
    requires d <= {addr} && n <= (if ind == 0 then {} else {ind}) && (!direct && d != {} ==> ind != 0)
    ensures before + (d + n) + bits + (if direct || d == {} then {} else {ind}) <=
            before + {addr} + bits + (if ind == 0 then {} else {ind})
  {
  }

  /** A block found through the indirect block means there is one. */
  lemma IndirectThere(fs: Fs, inum: int, bn: int)
    requires Shape(fs) && 0 <= inum < |fs.inodes| && 0 <= bn < MAXFILE
    ensures bn >= NDIRECT && Val(fs, SlotFor(inum, bn)) != 0 ==> fs.inodes[inum].addrs[NDIRECT] != 0
  {
  }

  /** The data block bmap allocates for file block bn. */
  ghost function NewData(fs: Fs, inum: int, bn: int, addr: int): set<int>
    requires Shape(fs) && SlotIn(fs, SlotFor(inum, bn))
  {
    if Val(fs, SlotFor(inum, bn)) == 0 && addr != 0 then {addr} else {}
  }

  /** The indirect block it allocates. */
  ghost function NewIndirect(fs: Fs, fs': Fs, inum: int): set<int>
    requires Shape(fs) && Shape(fs') && 0 <= inum < |fs.inodes| && |fs'.inodes| == |fs.inodes|
  {
    var i, i' := fs.inodes[inum].addrs[NDIRECT], fs'.inodes[inum].addrs[NDIRECT];
    if i == 0 && i' != 0 then {i'} else {}
  }
}
