/**
The circular, address-ordered free list of user/umalloc.c as a value.  Addresses count
Header-sized units.  The list is named by its headers in address order, starting with
`base`, whose size is 0; `ptr` and `size` are the two words of every header.
*/
module FreeList {

  type Words = map<int, int>

  /** One past the last unit of the block with this header. */
  function End(size: Words, h: int): int
    requires h in size
  {
    h + size[h]
  }

  ghost predicate Known(fl: seq<int>, ptr: Words, size: Words) {
    forall i :: 0 <= i < |fl| ==> fl[i] in ptr && fl[i] in size
  }

  /** Each header points to the next, the last one back to the first. */
  ghost predicate LinkOk(fl: seq<int>, ptr: Words, i: int)
    requires 0 <= i < |fl| && fl[i] in ptr
  {
    ptr[fl[i]] == if i + 1 < |fl| then fl[i + 1] else fl[0]
  }

  /** Blocks do not overlap and stand in address order. */
  ghost predicate Ordered(fl: seq<int>, size: Words)
    requires forall i :: 0 <= i < |fl| ==> fl[i] in size
  {
    && (forall i :: 0 < i < |fl| ==> size[fl[i]] >= 1)
    && (forall i, j :: 0 <= i < j < |fl| ==> fl[i] + size[fl[i]] <= fl[j] && fl[i] < fl[j])
  }

  /** Block i ends where block i + 1 starts. */
  ghost predicate Touch(fl: seq<int>, size: Words, i: int)
    requires forall i :: 0 <= i < |fl| ==> fl[i] in size
  {
    0 <= i && i + 1 < |fl| && fl[i] + size[fl[i]] == fl[i + 1]
  }

  /** A circular, ordered list that starts with the empty block base. */
  ghost predicate Loose(fl: seq<int>, ptr: Words, size: Words, base: int) {
    && |fl| >= 1 && fl[0] == base && Known(fl, ptr, size) && size[base] == 0
    && (forall i {:trigger LinkOk(fl, ptr, i)} :: 0 <= i < |fl| ==> LinkOk(fl, ptr, i))
    && Ordered(fl, size)
  }

  /** The same, and fully coalesced: what holds between calls. */
  ghost predicate List(fl: seq<int>, ptr: Words, size: Words, base: int) {
    Loose(fl, ptr, size, base) && forall i {:trigger Touch(fl, size, i)} :: !Touch(fl, size, i)
  }

  /** The list only depends on the words of its own headers. */
  lemma SameWords(fl: seq<int>, ptr: Words, size: Words, ptr': Words, size': Words, base: int)
    requires List(fl, ptr, size, base)
    requires forall i :: 0 <= i < |fl| ==>
               fl[i] in ptr' && fl[i] in size' && ptr'[fl[i]] == ptr[fl[i]] && size'[fl[i]] == size[fl[i]]
    ensures List(fl, ptr', size', base)
  {
    forall i | 0 <= i < |fl| ensures LinkOk(fl, ptr', i) { assert LinkOk(fl, ptr, i); }
    forall i ensures !Touch(fl, size', i) { assert !Touch(fl, size, i); }
  }

  // ---------------------------------------------------------------------------------
  // Inserting a block, and merging neighbours

  function Insert(fl: seq<int>, k: nat, b: int): seq<int>
    requires k < |fl|
  {
    fl[..k + 1] + [b] + fl[k + 1..]
  }

  function Remove(fl: seq<int>, k: nat): seq<int>
    requires k < |fl|
  {
    fl[..k] + fl[k + 1..]
  }

  /** b fits between block k and the one after it. */
  ghost predicate Fits(fl: seq<int>, size: Words, k: int, b: int)
    requires forall i :: 0 <= i < |fl| ==> fl[i] in size
  {
    && 0 <= k < |fl| && b in size && size[b] >= 1 && fl[k] + size[fl[k]] <= b && fl[k] < b
    && (k + 1 < |fl| ==> b + size[b] <= fl[k + 1])
  }

  lemma InsertOrdered(fl: seq<int>, size: Words, k: int, b: int)
    requires forall i :: 0 <= i < |fl| ==> fl[i] in size
    requires Ordered(fl, size) && Fits(fl, size, k, b)
    ensures forall i :: 0 <= i < |fl| + 1 ==> Insert(fl, k, b)[i] in size
    ensures Ordered(Insert(fl, k, b), size)
  {
    var fl' := Insert(fl, k, b);
    forall i, j | 0 <= i < j < |fl'|
      ensures fl'[i] in size && fl'[i] + size[fl'[i]] <= fl'[j] && fl'[i] < fl'[j]
    {
      InsertPair(fl, size, k, b, i, j);
    }
  }

  lemma InsertPair(fl: seq<int>, size: Words, k: int, b: int, i: int, j: int)
    requires forall i :: 0 <= i < |fl| ==> fl[i] in size
    requires Ordered(fl, size) && Fits(fl, size, k, b) && 0 <= i < j < |fl| + 1
    ensures var fl' := Insert(fl, k, b); fl'[i] in size && fl'[i] + size[fl'[i]] <= fl'[j] && fl'[i] < fl'[j]
  {
    var fl' := Insert(fl, k, b);
    assert fl'[i] == if i <= k then fl[i] else if i == k + 1 then b else fl[i - 1];
    assert fl'[j] == if j <= k then fl[j] else if j == k + 1 then b else fl[j - 1];
  }

  lemma InsertLoose(fl: seq<int>, ptr: Words, size: Words, base: int, k: int, b: int)
    requires List(fl, ptr, size, base) && Fits(fl, size, k, b)
    ensures Loose(Insert(fl, k, b), ptr[b := ptr[fl[k]]][fl[k] := b], size, base)
  {
    var fl', ptr' := Insert(fl, k, b), ptr[b := ptr[fl[k]]][fl[k] := b];
    InsertOrdered(fl, size, k, b);
    assert LinkOk(fl, ptr, k);
    forall i | 0 <= i < |fl'|
      ensures fl'[i] in ptr' && LinkOk(fl', ptr', i)
    {
      if i < k { assert LinkOk(fl, ptr, i); }
      if i > k + 1 { assert LinkOk(fl, ptr, i - 1); }
    }
  }

  /** Only the new block can touch a neighbour. */
  lemma InsertTouch(fl: seq<int>, size: Words, k: int, b: int, i: int)
    requires forall i :: 0 <= i < |fl| ==> fl[i] in size
    requires Ordered(fl, size) && Fits(fl, size, k, b) && !Touch(fl, size, i) && !Touch(fl, size, i - 1)
    ensures forall i :: 0 <= i < |fl| + 1 ==> Insert(fl, k, b)[i] in size
    ensures Touch(Insert(fl, k, b), size, i) ==> i == k || i == k + 1
  {
  }

  /** Block i takes in block i + 1. */
  lemma MergeLoose(fl: seq<int>, ptr: Words, size: Words, base: int, i: int)
    requires Loose(fl, ptr, size, base) && Touch(fl, size, i) && i > 0
    ensures var a, b := fl[i], fl[i + 1];
            Loose(Remove(fl, i + 1), ptr[a := ptr[b]], size[a := size[a] + size[b]], base)
  {
    var a, b := fl[i], fl[i + 1];
    var fl', ptr', size' := Remove(fl, i + 1), ptr[a := ptr[b]], size[a := size[a] + size[b]];
    assert LinkOk(fl, ptr, i + 1);
    forall j | 0 <= j < |fl'| ensures LinkOk(fl', ptr', j) {
      if j < i { assert LinkOk(fl, ptr, j); }
      if j > i { assert LinkOk(fl, ptr, j + 1); }
    }
  }

  /** Merging moves the touching pairs along with the blocks. */
  lemma MergeTouch(fl: seq<int>, ptr: Words, size: Words, base: int, i: int, j: int)
    requires Loose(fl, ptr, size, base) && Touch(fl, size, i) && i > 0
    ensures var a, b := fl[i], fl[i + 1];
            Touch(Remove(fl, i + 1), size[a := size[a] + size[b]], j) == if j < i then Touch(fl, size, j)
              else Touch(fl, size, j + 1)
  {
  }

  lemma RemoveOrdered(fl: seq<int>, size: Words, k: int)
    requires forall i :: 0 <= i < |fl| ==> fl[i] in size
    requires Ordered(fl, size) && 0 < k < |fl|
    ensures forall i :: 0 <= i < |fl| - 1 ==> Remove(fl, k)[i] in size
    ensures Ordered(Remove(fl, k), size)
  {
    var fl' := Remove(fl, k);
    forall i, j | 0 <= i < j < |fl'|
      ensures fl'[i] in size && fl'[i] + size[fl'[i]] <= fl'[j] && fl'[i] < fl'[j]
    {
      assert fl'[i] == if i < k then fl[i] else fl[i + 1];
      assert fl'[j] == if j < k then fl[j] else fl[j + 1];
    }
  }

  lemma RemoveLink(fl: seq<int>, ptr: Words, size: Words, base: int, k: int, j: int)
    requires Loose(fl, ptr, size, base) && 0 < k < |fl| && 0 <= j < |fl| - 1
    ensures Remove(fl, k)[j] in ptr && LinkOk(Remove(fl, k), ptr[fl[k - 1] := ptr[fl[k]]], j)
  {
    assert LinkOk(fl, ptr, k);
    if j < k - 1 {
      assert LinkOk(fl, ptr, j);
    } else if j > k - 1 {
      assert LinkOk(fl, ptr, j + 1);
    }
  }

  lemma RemoveLoose(fl: seq<int>, ptr: Words, size: Words, base: int, k: int)
    requires Loose(fl, ptr, size, base) && 0 < k < |fl|
    ensures Loose(Remove(fl, k), ptr[fl[k - 1] := ptr[fl[k]]], size, base)
  {
    var fl', ptr' := Remove(fl, k), ptr[fl[k - 1] := ptr[fl[k]]];
    hide Ordered, LinkOk;
    RemoveOrdered(fl, size, k);
    forall j | 0 <= j < |fl'|
      ensures fl'[j] in ptr' && LinkOk(fl', ptr', j)
    {
      RemoveLink(fl, ptr, size, base, k, j);
    }
  }

  // ---------------------------------------------------------------------------------
  // Taking blocks out

  lemma RemoveList(fl: seq<int>, ptr: Words, size: Words, base: int, k: int)
    requires List(fl, ptr, size, base) && 0 < k < |fl|
    ensures List(Remove(fl, k), ptr[fl[k - 1] := ptr[fl[k]]], size, base)
  {
    RemoveLoose(fl, ptr, size, base, k);
    var fl' := Remove(fl, k);
    forall j
      ensures !Touch(fl', size, j)
    {
      assert !Touch(fl, size, j) && !Touch(fl, size, j + 1);
    }
  }

  lemma ShrinkList(fl: seq<int>, ptr: Words, size: Words, base: int, k: int, n: int)
    requires List(fl, ptr, size, base) && 0 < k < |fl| && 1 <= n < size[fl[k]]
    ensures List(fl, ptr, size[fl[k] := n], base)
  {
    var size' := size[fl[k] := n];
    forall j | 0 <= j < |fl| ensures LinkOk(fl, ptr, j) { assert LinkOk(fl, ptr, j); }
    forall j ensures !Touch(fl, size', j) {
      assert !Touch(fl, size, j);
    }
  }

  // ---------------------------------------------------------------------------------
  // Which block each unit obtained from sbrk belongs to

  type Owner = imap<int, int>

  /** Unit u of block h belongs to it. */
  ghost predicate InBlock(owner: Owner, size: Words, h: int, u: int) {
    h in size && (h <= u < h + size[h] ==> u in owner && owner[u] == h)
  }

  /** Unit u belongs to a block, and lies in it. */
  ghost predicate HasBlock(owner: Owner, size: Words, hs: set<int>, u: int) {
    u in owner ==> owner[u] in hs && owner[u] in size && owner[u] <= u < owner[u] + size[owner[u]]
  }

  /** The blocks with headers hs partition the units of owner, which names each unit's block. */
  ghost predicate Partition(owner: Owner, size: Words, hs: set<int>) {
    && (forall h :: h in hs ==> h in size && size[h] >= 1)
    && (forall h, u {:trigger InBlock(owner, size, h, u)} :: h in hs ==> InBlock(owner, size, h, u))
    && (forall u {:trigger HasBlock(owner, size, hs, u)} :: HasBlock(owner, size, hs, u))
  }

  lemma Apart(owner: Owner, size: Words, hs: set<int>, a: int, b: int)
    requires Partition(owner, size, hs) && a in hs && b in hs && a < b
    ensures a + size[a] <= b
  {
    assert InBlock(owner, size, a, b) && InBlock(owner, size, b, b);
  }

  ghost function Relabel(owner: Owner, lo: int, hi: int, h: int): Owner {
    imap u | u in owner :: if lo <= u < hi then h else owner[u]
  }

  lemma MergePartition(owner: Owner, size: Words, hs: set<int>, a: int, b: int)
    requires Partition(owner, size, hs) && a in hs && b in hs && a + size[a] == b
    ensures Partition(Relabel(owner, b, b + size[b], a), size[a := size[a] + size[b]], hs - {b})
  {
    var owner', size' := Relabel(owner, b, b + size[b], a), size[a := size[a] + size[b]];
    forall h, u | h in hs - {b} ensures InBlock(owner', size', h, u) {
      assert InBlock(owner, size, h, u) && InBlock(owner, size, b, u);
    }
    forall u ensures HasBlock(owner', size', hs - {b}, u) {
      assert HasBlock(owner, size, hs, u) && InBlock(owner, size, b, u);
    }
  }

  lemma UnitsOf(owner: Owner, size: Words, hs: set<int>, p: int)
    requires Partition(owner, size, hs) && p in hs
    ensures p in size && forall u :: p <= u < p + size[p] ==> u in owner && owner[u] == p
  {
    forall u | p <= u < p + size[p] ensures u in owner && owner[u] == p {
      assert InBlock(owner, size, p, u);
    }
  }

  lemma SplitPartition(owner: Owner, size: Words, hs: set<int>, a: int, n: int)
    requires Partition(owner, size, hs) && a in hs && 1 <= n < size[a]
    ensures var h := a + size[a] - n;
            h !in hs && Partition(Relabel(owner, h, h + n, h), size[a := size[a] - n][h := n], hs + {h})
  {
    var h := a + size[a] - n;
    var owner', size' := Relabel(owner, h, h + n, h), size[a := size[a] - n][h := n];
    assert InBlock(owner, size, a, h) && (h in hs ==> InBlock(owner, size, h, h));
    forall x, u | x in hs + {h} ensures InBlock(owner', size', x, u) {
      assert InBlock(owner, size, a, u) && (x in hs ==> InBlock(owner, size, x, u));
    }
    forall u ensures HasBlock(owner', size', hs + {h}, u) {
      assert HasBlock(owner, size, hs, u) && InBlock(owner, size, a, u);
    }
  }

  /** Units that were not there before. */
  ghost function Grow(owner: Owner, h: int, n: nat): Owner {
    imap u | u in owner || h <= u < h + n :: if h <= u < h + n then h else owner[u]
  }

  lemma GrowPartition(owner: Owner, size: Words, hs: set<int>, h: int, n: nat)
    requires Partition(owner, size, hs) && n >= 1 && forall u :: u in owner ==> u < h
    ensures h !in hs && Partition(Grow(owner, h, n), size[h := n], hs + {h})
  {
    var owner', size' := Grow(owner, h, n), size[h := n];
    assert h in hs ==> InBlock(owner, size, h, h);
    forall x, u | x in hs + {h} ensures InBlock(owner', size', x, u) {
      assert x in hs ==> InBlock(owner, size, x, u);
    }
    forall u ensures HasBlock(owner', size', hs + {h}, u) {
      assert HasBlock(owner, size, hs, u);
    }
  }

  // ---------------------------------------------------------------------------------
  // The allocator's memory as one value

  /** The free list, the words of every header, the live blocks, and the owner of each unit. */
  datatype Arena = Arena(base: int, fl: seq<int>, ptr: Words, size: Words, live: set<int>, owner: Owner)

  ghost function Heads(a: Arena): set<int> {
    (set h | h in a.fl && h != a.base) + a.live
  }

  /** The free and the live blocks partition the units obtained. */
  ghost predicate Sound(a: Arena) {
    && Loose(a.fl, a.ptr, a.size, a.base) && Partition(a.owner, a.size, Heads(a))
    && (forall h :: h in a.live ==> h !in a.fl && h != a.base)
  }

  ghost predicate TouchAt(a: Arena, i: int) {
    Known(a.fl, a.ptr, a.size) && Touch(a.fl, a.size, i)
  }

  /** Sound and fully coalesced. */
  ghost predicate Tidy(a: Arena) {
    Sound(a) && forall i {:trigger TouchAt(a, i)} :: !TouchAt(a, i)
  }

  lemma TidyList(a: Arena)
    requires Tidy(a)
    ensures List(a.fl, a.ptr, a.size, a.base)
  {
    forall i ensures !Touch(a.fl, a.size, i) { assert !TouchAt(a, i); }
  }

  /** Headers lie from base on, and their words are known. */
  lemma TidyEntry(a: Arena, k: nat)
    requires Tidy(a) && k < |a.fl|
    ensures a.fl[k] in a.ptr && a.fl[k] in a.size && a.base <= a.fl[k] && (k > 0 <==> a.fl[k] != a.base)
    ensures (k > 0 <==> a.size[a.fl[k]] > 0)
    ensures a.ptr[a.fl[k]] == if k + 1 < |a.fl| then a.fl[k + 1] else a.fl[0]
  {
    assert LinkOk(a.fl, a.ptr, k);
  }

  ghost function Inserted(a: Arena, k: nat, b: int): Arena
    requires k < |a.fl| && a.fl[k] in a.ptr
  {
    a.(fl := Insert(a.fl, k, b), ptr := a.ptr[b := a.ptr[a.fl[k]]][a.fl[k] := b], live := a.live - {b})
  }

  lemma InsertSound(a: Arena, k: nat, b: int)
    requires Tidy(a) && b in a.live && Fits(a.fl, a.size, k, b)
    ensures Sound(Inserted(a, k, b)) && forall i {:trigger TouchAt(Inserted(a, k, b), i)} ::
              TouchAt(Inserted(a, k, b), i) ==> i == k || i == k + 1
  {
    var a' := Inserted(a, k, b);
    TidyList(a);
    InsertLoose(a.fl, a.ptr, a.size, a.base, k, b);
    assert a.fl == a.fl[..k + 1] + a.fl[k + 1..];
    assert Heads(a') == Heads(a);
    forall i | TouchAt(a', i)
      ensures i == k || i == k + 1
    {
      assert !Touch(a.fl, a.size, i) && !Touch(a.fl, a.size, i - 1);
      InsertTouch(a.fl, a.size, k, b, i);
    }
  }

  /** The first test of free decides whether the new block touches the next one. */
  lemma NextTest(a: Arena, k: nat, b: int)
    requires Tidy(a) && b in a.live && Fits(a.fl, a.size, k, b)
    ensures var one, nx := Inserted(a, k, b), a.ptr[a.fl[k]];
            && (TouchAt(one, k + 1) <==> b + a.size[b] == nx)
            && (b + a.size[b] == nx ==>
                  && k + 2 < |one.fl| && one.fl[k + 1] == b && one.fl[k + 2] == nx && nx in a.ptr
                  && nx in a.size && nx != b && nx != a.fl[k])
  {
    TidyList(a);
    InsertSound(a, k, b);
    var one := Inserted(a, k, b);
    assert LinkOk(a.fl, a.ptr, k);
    assert one.fl[k + 1] == b && (k + 1 < |a.fl| ==> one.fl[k + 2] == a.fl[k + 1]);
  }

  ghost function Merged(a: Arena, i: nat): Arena
    requires i + 1 < |a.fl| && a.fl[i + 1] in a.ptr && a.fl[i] in a.size && a.fl[i + 1] in a.size
  {
    var x, y := a.fl[i], a.fl[i + 1];
    a.(fl := Remove(a.fl, i + 1), ptr := a.ptr[x := a.ptr[y]],
       size := a.size[x := a.size[x] + a.size[y]], owner := Relabel(a.owner, y, y + a.size[y], x))
  }

  lemma RemoveElems(fl: seq<int>, k: nat, x: int)
    requires k < |fl| && forall i, j :: 0 <= i < j < |fl| ==> fl[i] != fl[j]
    ensures x in Remove(fl, k) <==> x in fl && x != fl[k]
  {
    assert fl == fl[..k] + [fl[k]] + fl[k + 1..];
  }

  lemma MergeSound(a: Arena, i: nat)
    requires Sound(a) && TouchAt(a, i) && i > 0
    ensures Sound(Merged(a, i))
    ensures forall j {:trigger TouchAt(Merged(a, i), j)} :: TouchAt(Merged(a, i), j) ==>
              TouchAt(a, if j < i then j else j + 1)
  {
    hide Partition, LinkOk;
    var a', x, y := Merged(a, i), a.fl[i], a.fl[i + 1];
    MergeLoose(a.fl, a.ptr, a.size, a.base, i);
    forall h ensures h in a'.fl <==> h in a.fl && h != y { RemoveElems(a.fl, i + 1, h); }
    assert x in a.fl && y in a.fl;
    assert Heads(a') == Heads(a) - {y};
    MergePartition(a.owner, a.size, Heads(a), x, y);
    forall j | TouchAt(a', j)
      ensures TouchAt(a, if j < i then j else j + 1)
    {
      MergeTouch(a.fl, a.ptr, a.size, a.base, i, j);
    }
  }

  // ---------------------------------------------------------------------------------
  // free on that value

  /** Entry i takes in the next one if they touch. */
  ghost function Joined(a: Arena, i: nat): Arena {
    if TouchAt(a, i) then Merged(a, i) else a
  }

  /** Insert after entry k, then merge with the next block and with entry k where they touch. */
  ghost function Freed(a: Arena, k: nat, b: int): Arena
    requires Tidy(a) && b in a.live && Fits(a.fl, a.size, k, b)
  {
    Joined(Joined(Inserted(a, k, b), k + 1), k)
  }

  /** The units of block b became free, and nothing happened to any other live block. */
  ghost predicate Released(a: Arena, a': Arena, b: int) {
    && a'.live == a.live - {b} && a'.owner.Keys == a.owner.Keys && a'.base == a.base
    && (forall u :: u in a.owner ==>
          (a'.owner[u] in a'.live <==> a.owner[u] in a'.live) && (a.owner[u] in a'.live ==> a'.owner[u] == a.owner[u]))
    && (forall h :: h in a'.live && h in a.size ==> h in a'.size && a'.size[h] == a.size[h])
  }

  /** Block b lies inside the free block that now owns its first unit. */
  ghost predicate Within(a: Arena, b: int, n: int) {
    b in a.owner && a.owner[b] in a.fl && a.owner[b] in a.size && a.owner[b] <= b
      && b + n <= a.owner[b] + a.size[a.owner[b]]
  }

  lemma MergeReleases(a: Arena, i: nat, one: Arena, b: int, n: int)
    requires Sound(one) && TouchAt(one, i) && i > 0 && Released(a, one, b) && Within(one, b, n)
    ensures Released(a, Merged(one, i), b) && Within(Merged(one, i), b, n)
  {
    var two, x, y := Merged(one, i), one.fl[i], one.fl[i + 1];
    assert x in one.fl && y in one.fl;
    forall u | u in one.owner
      ensures two.owner[u] == if one.owner[u] == y then x else one.owner[u]
    {
      assert HasBlock(one.owner, one.size, Heads(one), u) && InBlock(one.owner, one.size, y, u);
    }
    RemoveElems(one.fl, i + 1, two.owner[b]);
  }

  lemma InsertReleases(a: Arena, k: nat, b: int)
    requires Tidy(a) && b in a.live && Fits(a.fl, a.size, k, b)
    ensures var one := Inserted(a, k, b);
            && Released(a, one, b) && Within(one, b, a.size[b])
            && k + 1 < |one.fl| && one.fl[k] == a.fl[k] && one.fl[k + 1] == b
  {
    assert InBlock(a.owner, a.size, b, b);
    assert Inserted(a, k, b).fl[k + 1] == b;
  }

  /** After the first test of free: the block is in the list and at most touches entry k. */
  lemma JoinedNext(a: Arena, k: nat, b: int)
    requires Tidy(a) && b in a.live && Fits(a.fl, a.size, k, b)
    ensures var two := Joined(Inserted(a, k, b), k + 1);
            && Sound(two) && Released(a, two, b) && Within(two, b, a.size[b])
            && k + 1 < |two.fl| && two.fl[k] == a.fl[k] && two.fl[k + 1] == b
            && forall i {:trigger TouchAt(two, i)} :: TouchAt(two, i) ==> i == k
  {
    hide Partition, Ordered, LinkOk, Released, Within, Inserted;
    InsertSound(a, k, b);
    InsertReleases(a, k, b);
    var one := Inserted(a, k, b);
    if TouchAt(one, k + 1) {
      MergeSound(one, k + 1);
      MergeReleases(a, k + 1, one, b, a.size[b]);
    }
  }

  /** free keeps the arena tidy, and frees exactly the block it is given. */
  lemma FreeTidy(a: Arena, k: nat, b: int)
    requires Tidy(a) && b in a.live && Fits(a.fl, a.size, k, b)
    ensures Tidy(Freed(a, k, b)) && Released(a, Freed(a, k, b), b) && Within(Freed(a, k, b), b, a.size[b])
    ensures a.fl[k] in Freed(a, k, b).fl
  {
    JoinedNext(a, k, b);
    var two := Joined(Inserted(a, k, b), k + 1);
    assert k == 0 ==> !TouchAt(two, k);
    hide Sound, Released, Within, Inserted;
    if TouchAt(two, k) {
      MergeSound(two, k);
      MergeReleases(a, k, two, b, a.size[b]);
      assert Merged(two, k).fl[k] == a.fl[k];
    }
  }

  // ---------------------------------------------------------------------------------
  // malloc and morecore on that value

  /** Entry k leaves the list whole, or gives up its last n units. */
  ghost function Taken(a: Arena, k: nat, n: nat): Arena
    requires Tidy(a) && 0 < k < |a.fl| && a.fl[k] in a.size && n <= a.size[a.fl[k]]
  {
    var p := a.fl[k];
    if a.size[p] == n then a.(fl := Remove(a.fl, k), ptr := a.ptr[a.fl[k - 1] := a.ptr[p]], live := a.live + {p})
    else
      var h := p + a.size[p] - n;
      a.(size := a.size[p := a.size[p] - n][h := n], live := a.live + {h}, owner := Relabel(a.owner, h, h + n, h))
  }

  /** The n units from h on, all of them free before, are one more live block. */
  ghost predicate Allocated(a: Arena, a': Arena, h: int, n: nat) {
    && h !in a.live && a'.live == a.live + {h} && h in a'.size && a'.size[h] == n && a'.owner.Keys == a.owner.Keys
    && a'.base == a.base
    && (forall u :: h <= u < h + n ==> u in a.owner && a.owner[u] in a.fl && a'.owner[u] == h)
    && (forall u :: u in a.owner && !(h <= u < h + n) ==> a'.owner[u] == a.owner[u])
    && (forall x :: x in a.live && x in a.size ==> x in a'.size && a'.size[x] == a.size[x])
  }

  lemma TakeWhole(a: Arena, k: nat)
    requires Tidy(a) && 0 < k < |a.fl|
    ensures a.fl[k - 1] in Taken(a, k, a.size[a.fl[k]]).fl
    ensures Tidy(Taken(a, k, a.size[a.fl[k]])) && Allocated(a, Taken(a, k, a.size[a.fl[k]]), a.fl[k], a.size[a.fl[k]])
  {
    var p := a.fl[k];
    var a' := Taken(a, k, a.size[p]);
    TidyList(a);
    RemoveList(a.fl, a.ptr, a.size, a.base, k);
    forall x ensures x in a'.fl <==> x in a.fl && x != p { RemoveElems(a.fl, k, x); }
    assert p in a.fl && Heads(a') == Heads(a);
    assert a'.fl[k - 1] == a.fl[k - 1];
    forall u | p <= u < p + a.size[p] ensures u in a.owner && a.owner[u] == p {
      assert InBlock(a.owner, a.size, p, u);
    }
    forall u | u in a.owner && !(p <= u < p + a.size[p]) ensures a.owner[u] != p {
      assert HasBlock(a.owner, a.size, Heads(a), u);
    }
    forall i ensures !TouchAt(a', i) { assert !Touch(a'.fl, a'.size, i); }
  }

  lemma TakeTail(a: Arena, k: nat, n: nat)
    requires Tidy(a) && 0 < k < |a.fl| && 1 <= n < a.size[a.fl[k]]
    ensures Tidy(Taken(a, k, n)) && Allocated(a, Taken(a, k, n), a.fl[k] + a.size[a.fl[k]] - n, n)
  {
    hide Partition, LinkOk;
    var p := a.fl[k];
    var h := p + a.size[p] - n;
    var a' := Taken(a, k, n);
    TidyList(a);
    ShrinkList(a.fl, a.ptr, a.size, a.base, k, a.size[p] - n);
    assert p in a.fl;
    SplitPartition(a.owner, a.size, Heads(a), p, n);
    assert Heads(a') == Heads(a) + {h};
    SameWords(a.fl, a.ptr, a.size[p := a.size[p] - n], a.ptr, a'.size, a.base);
    UnitsOf(a.owner, a.size, Heads(a), p);
    forall i ensures !TouchAt(a', i) { assert !Touch(a'.fl, a'.size, i); }
  }

  /** n units from h on, obtained from sbrk, as a live block about to be freed. */
  ghost function Extended(a: Arena, h: int, n: nat): Arena {
    a.(size := a.size[h := n], live := a.live + {h}, owner := Grow(a.owner, h, n))
  }

  lemma ExtendTidy(a: Arena, h: int, n: nat)
    requires Tidy(a) && n >= 1 && a.base < h && forall u :: u in a.owner ==> u < h
    ensures Tidy(Extended(a, h, n)) && h !in a.live && h !in a.fl
  {
    var a' := Extended(a, h, n);
    TidyList(a);
    GrowPartition(a.owner, a.size, Heads(a), h, n);
    assert h !in a.fl;
    assert Heads(a') == Heads(a) + {h};
    SameWords(a.fl, a.ptr, a.size, a.ptr, a'.size, a.base);
    forall i ensures !TouchAt(a', i) { assert !Touch(a'.fl, a'.size, i); }
  }

  /** n units from h on were obtained and are free; live blocks are as before. */
  ghost predicate Obtained(a: Arena, a': Arena, h: int, n: nat) {
    && a'.live == a.live && a'.base == a.base
    && (forall u :: u in a'.owner <==> u in a.owner || h <= u < h + n)
    && (forall u :: u in a.owner && a.owner[u] in a.live ==> a'.owner[u] == a.owner[u])
    && (forall u :: u in a'.owner && a'.owner[u] in a'.live ==> u in a.owner && a.owner[u] in a.live)
    && (forall x :: x in a.live && x in a.size ==> x in a'.size && a'.size[x] == a.size[x])
  }

  lemma ExtendRelease(a: Arena, h: int, n: nat, a': Arena)
    requires Tidy(a) && n >= 1 && a.base < h && (forall u :: u in a.owner ==> u < h)
    requires Released(Extended(a, h, n), a', h)
    ensures Obtained(a, a', h, n)
  {
    ExtendTidy(a, h, n);
    forall u | u in a.owner
      ensures a.owner[u] < h
    {
      assert HasBlock(a.owner, a.size, Heads(a), u);
    }
  }

  /** The arena malloc starts from when nothing has been allocated yet. */
  ghost function Fresh(base: int, ptr: Words, size: Words): Arena {
    Arena(base, [base], ptr[base := base], size[base := 0], {}, imap[])
  }

  lemma FreshTidy(base: int, ptr: Words, size: Words)
    ensures Tidy(Fresh(base, ptr, size))
  {
    var a := Fresh(base, ptr, size);
    assert LinkOk(a.fl, a.ptr, 0);
  }
}
