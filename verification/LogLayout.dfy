/**
The on-disk format of the redo log: a header block at `start`, LOGBLOCKS log blocks
after it, and home blocks everywhere else.
*/
module LogLayout {
  import opened Params

  /** BSIZE bytes, read as words. */
  datatype Block = Block(words: seq<int>)

  /** Block numbers of the log area: the header and its LOGBLOCKS data blocks. */
  predicate InLog(start: nat, b: int) {
    start <= b <= start + LOGBLOCKS
  }

  predicate Home(start: nat, size: nat, b: int) {
    0 <= b < size && !InLog(start, b)
  }

  /** A list of home blocks without repeats that fits in the log. */
  predicate GoodList(start: nat, size: nat, blocks: seq<int>) {
    && |blocks| <= LOGBLOCKS
    && (forall i :: 0 <= i < |blocks| ==> Home(start, size, blocks[i]))
    && (forall i, j :: 0 <= i < j < |blocks| ==> blocks[i] != blocks[j])
  }

  predicate GoodHeader(start: nat, size: nat, header: Block) {
    GoodList(start, size, HeaderBlocks(header))
  }

  /** The block numbers a header lists: word 0 is n, words 1..n are block[0..n]. */
  function HeaderBlocks(header: Block): seq<int>
  {
    if |header.words| > 0 && 0 <= header.words[0] < |header.words| && header.words[0] <= LOGBLOCKS
    then header.words[1..1 + header.words[0]] else []
  }

  /** The header as write_head leaves it: words past the list keep what they held. */
  function PutHeader(header: Block, blocks: seq<int>): (r: Block)
    requires |blocks| <= LOGBLOCKS
    ensures HeaderBlocks(r) == blocks
  {
    var kept := if 1 + |blocks| <= |header.words| then header.words[1 + |blocks|..] else [];
    Block([|blocks|] + blocks + kept)
  }

  /** A position of `b`, or the length when absent: what the absorption scan of log_write finds. */
  ghost function Find(blocks: seq<int>, b: int): (i: nat)
    ensures i <= |blocks|
    ensures i < |blocks| ==> blocks[i] == b
    ensures i == |blocks| <==> b !in blocks
  {
    if b in blocks then var i :| 0 <= i < |blocks| && blocks[i] == b; i else |blocks|
  }

  /**
  What a completed recovery puts at home block `b`: the log copy when the header lists
  it, the home copy otherwise.
  */
  ghost function RecoveredBlock(start: nat, disk: seq<Block>, b: int): Block
    requires start + LOGBLOCKS < |disk| && 0 <= b < |disk|
  {
    var i := Find(HeaderBlocks(disk[start]), b);
    if i < |HeaderBlocks(disk[start])| then disk[start + 1 + i] else disk[b]
  }

  /** The durable file system: what recovery would make of this disk, home blocks only. */
  ghost function Image(start: nat, disk: seq<Block>): map<int, Block>
    requires start + LOGBLOCKS < |disk|
  {
    map b | 0 <= b < |disk| && Home(start, |disk|, b) :: RecoveredBlock(start, disk, b)
  }

  /** The home blocks as they stand. */
  function HomeBlocks(start: nat, disk: seq<Block>): map<int, Block>
    requires start + LOGBLOCKS < |disk|
  {
    map b | 0 <= b < |disk| && Home(start, |disk|, b) :: disk[b]
  }

  /** With no repeats, position i is the one Find returns for blocks[i]. */
  lemma FindAt(start: nat, size: nat, blocks: seq<int>, i: nat)
    requires GoodList(start, size, blocks) && i < |blocks|
    ensures Find(blocks, blocks[i]) == i
  {
    var k := Find(blocks, blocks[i]);
    assert blocks[i] in blocks;
    assert blocks[k] == blocks[i];
  }

  /** The first k listed blocks have reached their home. */
  predicate Installed(start: nat, disk: seq<Block>, blocks: seq<int>, k: nat)
    requires start + LOGBLOCKS < |disk| && GoodList(start, |disk|, blocks) && k <= |blocks|
  {
    forall i :: 0 <= i < k ==> disk[blocks[i]] == disk[start + 1 + i]
  }

  /** The image with the listed blocks replaced, one for one, by the given contents. */
  ghost function Overlay(image: map<int, Block>, blocks: seq<int>, contents: seq<Block>): map<int, Block>
    requires |blocks| == |contents|
  {
    map b | b in image :: if Find(blocks, b) < |blocks| then contents[Find(blocks, b)] else image[b]
  }

  /** An empty header makes the home blocks the truth, whatever the log blocks hold. */
  lemma EmptyHeader(start: nat, disk: seq<Block>)
    requires start + LOGBLOCKS < |disk| && HeaderBlocks(disk[start]) == []
    ensures Image(start, disk) == HomeBlocks(start, disk)
  {
  }

  /** Writing log data blocks under an empty header is invisible. */
  lemma LogWriteInvisible(start: nat, disk: seq<Block>, k: nat, v: Block, disk': seq<Block>)
    requires start + LOGBLOCKS < |disk| && HeaderBlocks(disk[start]) == [] && k < LOGBLOCKS
    requires disk' == disk[start + 1 + k := v]
    ensures Image(start, disk') == Image(start, disk)
  {
  }

  /** The header write makes all logged contents appear at once. */
  lemma HeaderWriteCommits(start: nat, disk: seq<Block>, blocks: seq<int>, contents: seq<Block>, header: Block,
                           disk': seq<Block>)
    requires start + LOGBLOCKS < |disk| && HeaderBlocks(disk[start]) == []
    requires |blocks| <= LOGBLOCKS && |contents| == |blocks|
    requires forall i :: 0 <= i < |blocks| ==> disk[start + 1 + i] == contents[i]
    requires disk' == disk[start := PutHeader(header, blocks)]
    ensures Image(start, disk') == Overlay(Image(start, disk), blocks, contents)
  {
    hide HeaderBlocks, PutHeader;
    var overlay := Overlay(Image(start, disk), blocks, contents);
    forall b | 0 <= b < |disk| && Home(start, |disk|, b)
      ensures RecoveredBlock(start, disk', b) == overlay[b]
    {
      assert HeaderBlocks(disk'[start]) == blocks;
      assert RecoveredBlock(start, disk, b) == disk[b] == disk'[b];
    }
  }

  /** Copying a log block home changes nothing recovery could see. */
  lemma InstallInvisible(start: nat, disk: seq<Block>, blocks: seq<int>, k: nat, disk': seq<Block>)
    requires start + LOGBLOCKS < |disk| && HeaderBlocks(disk[start]) == blocks
    requires GoodList(start, |disk|, blocks) && k < |blocks|
    requires disk' == disk[blocks[k] := disk[start + 1 + k]]
    ensures Image(start, disk') == Image(start, disk)
  {
    FindAt(start, |disk|, blocks, k);
    assert Home(start, |disk|, blocks[k]) && disk'[start] == disk[start];
    forall b | Home(start, |disk|, b)
      ensures RecoveredBlock(start, disk', b) == RecoveredBlock(start, disk, b)
    {
      var i := Find(blocks, b);
      assert i < |blocks| ==> InLog(start, start + 1 + i);
    }
  }

  lemma InstallExtends(start: nat, disk: seq<Block>, blocks: seq<int>, k: nat, disk': seq<Block>)
    requires start + LOGBLOCKS < |disk| && GoodList(start, |disk|, blocks) && k < |blocks|
    requires Installed(start, disk, blocks, k)
    requires disk' == disk[blocks[k] := disk[start + 1 + k]]
    ensures Installed(start, disk', blocks, k + 1)
  {
    assert Home(start, |disk|, blocks[k]);
    forall i | 0 <= i < k + 1
      ensures blocks[k] != start + 1 + i && (i < k ==> blocks[i] != blocks[k])
    {
      assert InLog(start, start + 1 + i);
    }
  }

  lemma InstalledBlock(start: nat, disk: seq<Block>, blocks: seq<int>, b: int)
    requires start + LOGBLOCKS < |disk| && HeaderBlocks(disk[start]) == blocks
    requires GoodList(start, |disk|, blocks) && Installed(start, disk, blocks, |blocks|)
    requires 0 <= b < |disk|
    ensures RecoveredBlock(start, disk, b) == disk[b]
  {
    var i := Find(blocks, b);
    assert i < |blocks| ==> blocks[i] == b;
  }

  /** Once everything listed is home, the home blocks are the image. */
  lemma InstalledIsHome(start: nat, disk: seq<Block>, blocks: seq<int>)
    requires start + LOGBLOCKS < |disk| && HeaderBlocks(disk[start]) == blocks
    requires GoodList(start, |disk|, blocks) && Installed(start, disk, blocks, |blocks|)
    ensures HomeBlocks(start, disk) == Image(start, disk)
  {
    forall b | 0 <= b < |disk|
      ensures RecoveredBlock(start, disk, b) == disk[b]
    {
      InstalledBlock(start, disk, blocks, b);
    }
  }

  /** Clearing the header then changes nothing recovery could see. */
  lemma ClearInvisible(start: nat, disk: seq<Block>, header: Block, disk': seq<Block>)
    requires start + LOGBLOCKS < |disk| && HomeBlocks(start, disk) == Image(start, disk)
    requires disk' == disk[start := PutHeader(header, [])]
    ensures Image(start, disk') == Image(start, disk)
  {
    EmptyHeader(start, disk');
    assert HomeBlocks(start, disk') == HomeBlocks(start, disk);
  }
}
