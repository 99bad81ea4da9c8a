/** The page-table operations of vm.c on one address space, in place. */
module PageTable {
  import opened Basics
  import opened PageTree
  import opened Params

  /** One list before another, with nothing in common. */
  lemma DistinctConcat(a: seq<int>, b: seq<int>)
    requires Distinct(a) && Distinct(b) && forall x :: x in a ==> x !in b
    ensures Distinct(a + b)
  {
    forall i, j | 0 <= i < j < |a + b|
      ensures (a + b)[i] != (a + b)[j]
    {
      if i < |a| <= j {
        assert a[i] in a && b[j - |a|] in b;
      }
    }
  }

  /** PGROUNDUP, in pages. */
  function PagesUp(sz: nat): nat {
    (sz + PGSIZE - 1) / PGSIZE
  }

  class PageTable {
    const root: int
    var tables: map<int, seq<Pte>>
    ghost var place: map<int, Place>
    var free: seq<int>
    var dropped: seq<int>

    ghost function T(): Tree
      reads this
    {
      Tree(root, tables, place)
    }

    ghost function Flat(): Flat
      reads this
    {
      FlatMap(T())
    }

    /** The pages that are tables or free. */
    ghost function Pool(): set<int>
      reads this
    {
      tables.Keys + Elems(free)
    }

    /** A tree of table pages, none of them free; free pages are listed once. */
    ghost predicate Valid()
      reads this
    {
      && Wf(T()) && -1 !in tables
      && Distinct(free) && -1 !in free
      && (forall p :: p in free ==> p !in tables)
    }

    /** uvmcreate on a page just allocated. */
    constructor (root: int, free: seq<int>)
      requires root != -1 && Distinct([root] + free) && -1 !in free
      ensures Valid() && this.root == root && tables.Keys == {root}
      ensures forall w :: w in Flat() ==> Flat()[w] == Zero
    {
      this.root := root;
      tables := map[root := ZeroTable()];
      place := map[root := Place(2, 0, -1)];
      this.free := free;
      dropped := [];
      new;
      forall p | p in free
        ensures p != root
      {
        var i :| 0 <= i < |free| && free[i] == p;
        assert ([root] + free)[0] == root && ([root] + free)[i + 1] == p;
      }
      assert Distinct(free) by {
        forall i, j | 0 <= i < j < |free|
          ensures free[i] != free[j]
        {
          assert ([root] + free)[i + 1] == free[i] && ([root] + free)[j + 1] == free[j];
        }
      }
    }

    method Kalloc() returns (p: int)
      requires Valid()
      modifies this`free
      ensures Valid()
      ensures old(free) == [] ==> p == -1 && free == []
      ensures old(free) != [] ==> p == old(free)[0] && free == old(free)[1..] && p != -1 && p !in tables && p !in free
      ensures Pool() == old(Pool()) - {p}
    {
      if free == [] {
        return -1;
      }
      p := free[0];
      assert p in free && free == [p] + free[1..];
      free := free[1..];
      assert p !in free;
    }

    /** Hang a zeroed page from entry i of table p. */
    method HangNew(p: int, i: int, c: int)
      requires Valid() && Slot(T(), p, i) && c !in tables && c !in free && c != -1
      modifies this`tables, this`place
      ensures Valid() && T() == Hang(old(T()), p, i, c) && Flat() == old(Flat())
    {
      hide FlatMap, EntryOk, HangsOk, Apart;
      ghost var t, t' := T(), Hang(T(), p, i, c);
      assert Wf(t') && FlatMap(t') == FlatMap(t) by {
        HangWf(t, p, i, c);
        HangSameMap(t, p, i, c);
      }
      place := place[c := Place(place[p].level - 1, place[p].prefix * ENTRIES + i, p)];
      tables := tables[p := tables[p][i := Branch(c)]];
      tables := tables[c := ZeroTable()];
      assert T() == t';
    }

    /** One level of walk with alloc 1: follow the entry, or hang a new table there. */
    method WalkLevel(p: int, level: int, vpn: int) returns (c: int)
      requires Valid() && Vpn(vpn) && 1 <= level <= 2
      requires p in tables && place[p].level == level && place[p].prefix == PrefixOf(level, vpn)
      modifies this`tables, this`place, this`free
      ensures Valid() && Flat() == old(Flat())
      ensures c == Down(T(), p, level, vpn)
      ensures c != -1 ==> c in tables && place[c].level == level - 1 && place[c].prefix == PrefixOf(level - 1, vpn)
      ensures c == -1 ==> T() == old(T()) && free == []
      ensures Pool() == old(Pool())
      ensures old(Down(T(), p, level, vpn)) != -1 ==> T() == old(T()) && free == old(free)
      ensures forall q :: q in old(tables) && q != p ==> q in tables && tables[q] == old(tables)[q]
    {
      DownPlace(T(), p, level, vpn);
      var i := PX(level, vpn);
      if tables[p][i].v {
        c := tables[p][i].ppn;
        assert EntryOk(T(), p, i);
      } else {
        c := Kalloc();
        if c == -1 {
          return;
        }
        HangNew(p, i, c);
        PrefixStep(level, vpn);
      }
    }

    /** walk with alloc 1: the level-0 table for vpn, or -1.  No address translates differently after it. */
    method Walk(vpn: int) returns (leaf: int)
      requires Valid() && Vpn(vpn)
      modifies this`tables, this`place, this`free
      ensures Valid() && Flat() == old(Flat())
      ensures leaf == LeafTable(T(), vpn) && (leaf != -1 ==> leaf in tables && place[leaf].level == 0)
      ensures leaf == -1 ==> free == []
      ensures Pool() == old(Pool())
      ensures old(LeafTable(T(), vpn)) != -1 ==> T() == old(T()) && free == old(free)
    {
      hide FlatMap, EntryOk, HangsOk, Apart, PX;
      leaf := root;
      var level := 2;
      while level > 0
        invariant 0 <= level <= 2 && Valid() && Flat() == old(Flat())
        invariant leaf in tables && place[leaf].level == level && place[leaf].prefix == PrefixOf(level, vpn)
        invariant level == 2 ==> leaf == root
        invariant level == 1 ==> leaf == Down(T(), root, 2, vpn)
        invariant level == 0 ==> leaf == LeafTable(T(), vpn)
        invariant Pool() == old(Pool())
        invariant old(LeafTable(T(), vpn)) != -1 ==> T() == old(T()) && free == old(free)
      {
        leaf := WalkLevel(leaf, level, vpn);
        if leaf == -1 {
          return;
        }
        level := level - 1;
      }
    }

    /** `*pte = e` for the entry walk returned. */
    method SetPte(vpn: int, leaf: int, e: Pte)
      requires Valid() && Vpn(vpn) && leaf == LeafTable(T(), vpn) && leaf != -1 && leaf in tables
      requires place[leaf].level == 0
      requires e.v ==> e.IsLeaf()
      modifies this`tables
      ensures Valid() && tables.Keys == old(tables).Keys
      ensures Flat() == old(Flat())[vpn := if e.v then e else Zero]
    {
      ghost var t, t' := T(), SetEntry(T(), leaf, PX(0, vpn), e);
      assert Wf(t') by {
        SetEntryWf(t, leaf, PX(0, vpn), e);
      }
      SetEntryStored(t, vpn, e);
      tables := tables[leaf := tables[leaf][PX(0, vpn) := e]];
      assert T() == t';
    }

    /** One round of mappages. */
    method MapOne(vpn: int, e: Pte) returns (ok: bool)
      requires Valid() && Vpn(vpn) && e.v && e.IsLeaf()
      modifies this`tables, this`place, this`free
      ensures Valid() && (!ok ==> free == []) && Pool() == old(Pool())
      ensures Flat() == if ok then old(Flat())[vpn := e] else old(Flat())
    {
      hide FlatMap, Wf;
      var leaf := Walk(vpn);
      if leaf == -1 {
        return false;
      }
      SetPte(vpn, leaf, e);
      return true;
    }

    /** Round i of mappages, over the map f it began with. */
    method MapStep(ghost f: Flat, vpn: int, i: nat, e: Pte) returns (ok: bool)
      requires Valid() && Vpn(vpn + i) && vpn + i in f && e.v && e.IsLeaf() && Flat() == AddRange(f, vpn, i, e)
      modifies this`tables, this`place, this`free
      ensures Valid() && (!ok ==> free == [])
      ensures ok ==> Flat() == AddRange(f, vpn, i + 1, e)
      ensures !ok ==> Flat() == AddRange(f, vpn, i, e)
    {
      hide FlatMap, Wf;
      AddRangeStep(f, vpn, i, e);
      ok := MapOne(vpn + i, e.(ppn := e.ppn + i));
    }

    /**
    mappages over n pages, none of which may be mapped (the kernel panics on a remap).  The
    first `done` pages are mapped, all n exactly when the result is 0.
    */
    method Mappages(vpn: int, n: nat, e: Pte) returns (r: int, ghost done: nat)
      requires Valid() && n > 0 && 0 <= vpn && vpn + n <= MAXVPN && e.v && e.IsLeaf()
      requires forall w :: vpn <= w < vpn + n ==> !Flat()[w].v
      modifies this`tables, this`place, this`free
      ensures Valid() && done <= n && (r == 0 <==> done == n) && (r != 0 ==> r == -1 && free == [])
      ensures Flat() == AddRange(old(Flat()), vpn, done, e)
    {
      hide FlatMap, Wf;
      ghost var f := Flat();
      FlatDomain(T());
      AddRangeNone(f, vpn, e);
      for i := 0 to n
        invariant Valid() && Flat() == AddRange(f, vpn, i, e)
      {
        var ok := MapStep(f, vpn, i, e);
        if !ok {
          return -1, i;
        }
      }
      return 0, n;
    }

    /** walk with alloc 0: the level-0 table for vpn, or -1. */
    method Find(vpn: int) returns (leaf: int)
      requires Valid() && Vpn(vpn)
      ensures leaf == LeafTable(T(), vpn) && (leaf != -1 ==> leaf in tables && place[leaf].level == 0)
      ensures leaf == -1 || !tables[leaf][PX(0, vpn)].v ==> Flat()[vpn] == Zero
      ensures leaf != -1 && tables[leaf][PX(0, vpn)].v ==> Flat()[vpn] == tables[leaf][PX(0, vpn)]
    {
      PathPlaces(T(), vpn);
      leaf := root;
      var level := 2;
      while level > 0
        invariant 0 <= level <= 2 && leaf in tables && place[leaf].level == level
        invariant level == 2 ==> leaf == root
        invariant level == 1 ==> leaf == Down(T(), root, 2, vpn)
        invariant level == 0 ==> leaf == LeafTable(T(), vpn)
      {
        var e := tables[leaf][PX(level, vpn)];
        assert EntryOk(T(), leaf, PX(level, vpn));
        if !e.v {
          return -1;
        }
        leaf := e.ppn;
        level := level - 1;
      }
    }

    /** One round of uvmunmap. */
    method UnmapOne(vpn: int, doFree: bool)
      requires Valid() && Vpn(vpn)
      modifies this`tables, this`dropped
      ensures Valid() && tables.Keys == old(tables).Keys
      ensures dropped == old(dropped) + if doFree then PageAt(old(Flat()), vpn) else []
      ensures Flat() == old(Flat())[vpn := Zero]
    {
      ghost var f := Flat();
      var leaf := Find(vpn);
      if leaf == -1 || !tables[leaf][PX(0, vpn)].v {
        assert f[vpn := Zero] == f;
        return;
      }
      if doFree {
        dropped := dropped + [tables[leaf][PX(0, vpn)].ppn];
      }
      SetPte(vpn, leaf, Zero);
    }

    /** Round i of uvmunmap, over the map f it began with. */
    method UnmapStep(ghost f: Flat, ghost before: seq<int>, vpn: int, i: nat, doFree: bool)
      requires Valid() && Vpn(vpn + i) && vpn + i in f && Flat() == DropRange(f, vpn, i)
      requires dropped == if doFree then before + PagesIn(f, vpn, i) else before
      modifies this`tables, this`dropped
      ensures Valid() && tables.Keys == old(tables).Keys
      ensures Flat() == DropRange(f, vpn, i + 1)
      ensures dropped == if doFree then before + PagesIn(f, vpn, i + 1) else before
    {
      hide FlatMap, Wf;
      DropRangeStep(f, vpn, i);
      PagesInStep(before, f, vpn, i);
      UnmapOne(vpn + i, doFree);
    }

    /** uvmunmap: exactly the range goes; with do_free exactly its pages go to kfree, in order, else none. */
    method Uvmunmap(vpn: int, n: nat, doFree: bool)
      requires Valid() && 0 <= vpn && vpn + n <= MAXVPN
      modifies this`tables, this`dropped
      ensures Valid() && tables.Keys == old(tables).Keys
      ensures Flat() == DropRange(old(Flat()), vpn, n)
      ensures dropped == if doFree then old(dropped) + PagesIn(old(Flat()), vpn, n) else old(dropped)
    {
      hide FlatMap, Wf;
      ghost var f, before := Flat(), dropped;
      FlatDomain(T());
      DropRangeNone(f, vpn);
      assert before + PagesIn(f, vpn, 0) == before;
      for i := 0 to n
        invariant Valid() && tables.Keys == old(tables).Keys
        invariant Flat() == DropRange(f, vpn, i)
        invariant dropped == if doFree then before + PagesIn(f, vpn, i) else before
      {
        UnmapStep(f, before, vpn, i, doFree);
      }
    }

    /** uvmdealloc: the pages from newsz up to oldsz are unmapped and go to kfree. */
    method Uvmdealloc(oldsz: nat, newsz: nat) returns (r: nat)
      requires Valid() && PagesUp(oldsz) <= MAXVPN
      modifies this`tables, this`dropped
      ensures Valid() && tables.Keys == old(tables).Keys && r == if newsz < oldsz then newsz else oldsz
      ensures PagesUp(r) <= PagesUp(oldsz)
      ensures Flat() == DropRange(old(Flat()), PagesUp(r), PagesUp(oldsz) - PagesUp(r))
      ensures dropped == old(dropped) + PagesIn(old(Flat()), PagesUp(r), PagesUp(oldsz) - PagesUp(r))
    {
      hide FlatMap, Wf;
      var hi := PagesUp(oldsz);
      r := oldsz;
      DropRangeNone(Flat(), hi);
      if newsz >= oldsz {
        return;
      }
      r := newsz;
      var lo := PagesUp(newsz);
      if lo < hi {
        Uvmunmap(lo, hi - lo, true);
      }
    }

    /** One round of uvmalloc: a page from the free list mapped at the next address. */
    method GrowStep(ghost f: Flat, vpn: int, ghost pages: seq<int>, v: int, e: Pte) returns (mem: int)
      requires Valid() && Vpn(v) && v == vpn + |pages| && v in f && e.v && e.IsLeaf()
      requires Grown(f, Flat(), vpn, pages, e)
      modifies this`tables, this`place, this`free
      ensures Valid()
      ensures mem != -1 ==> mem in old(free) && Pool() == old(Pool()) - {mem} && Grown(f, Flat(), vpn, pages + [mem], e)
      ensures mem == -1 ==> Pool() == old(Pool()) && Grown(f, Flat(), vpn, pages, e) && |free| <= 1
    {
      hide FlatMap, Wf;
      mem := Kalloc();
      if mem == -1 {
        return;
      }
      GrownStep(f, Flat(), vpn, pages, e, mem);
      var ok := MapOne(v, e.(ppn := mem));
      if !ok {
        free := [mem];
        return -1;
      }
    }

    /**
    uvmalloc.  On success every page from oldsz up to newsz is mapped, each to a page of its own
    that was free; on failure, when at most one free page is left, every translation is as before and
    the pages taken on the way go to kfree.  Tables hung on the way stay.
    */
    method Uvmalloc(oldsz: nat, newsz: nat, e: Pte) returns (r: nat, ghost pages: seq<int>)
      requires Valid() && PagesUp(oldsz) <= MAXVPN && PagesUp(newsz) <= MAXVPN && e.v && e.IsLeaf()
      requires forall w :: PagesUp(oldsz) <= w < PagesUp(newsz) ==> Flat()[w] == Zero
      modifies this`tables, this`place, this`free, this`dropped
      ensures Valid() && r == if newsz < oldsz then oldsz
              else if |pages| == PagesUp(newsz) - PagesUp(oldsz) then newsz else 0
      ensures newsz < oldsz ==> pages == []
      ensures r != 0 ==> Grown(old(Flat()), Flat(), PagesUp(oldsz), pages, e) && dropped == old(dropped)
      ensures r == 0 ==> Flat() == old(Flat()) && dropped == old(dropped) + pages
      ensures newsz >= oldsz && r != newsz ==> |free| <= 1
      ensures Distinct(pages) && Elems(pages) <= old(Pool()) && Pool() == old(Pool()) - Elems(pages)
    {
      pages := [];
      if newsz < oldsz {
        return oldsz, [];
      }
      r, pages := GrowRange(PagesUp(oldsz), PagesUp(newsz), newsz, e);
    }

    /** The error path of uvmalloc. */
    method ShrinkBack(ghost f: Flat, lo: nat, ghost pages: seq<int>, a: nat, e: Pte)
      requires Valid() && lo + |pages| <= MAXVPN && a == (lo + |pages|) * PGSIZE && e.v
      requires Grown(f, Flat(), lo, pages, e) && forall w :: lo <= w < lo + |pages| ==> w in f && f[w] == Zero
      modifies this`tables, this`dropped
      ensures Valid() && tables.Keys == old(tables).Keys && Flat() == f && dropped == old(dropped) + pages
    {
      hide FlatMap, Wf, Grown;
      GrownUndone(f, Flat(), lo, pages, e);
      assert PagesUp(a) == lo + |pages| && PagesUp(lo * PGSIZE) == lo;
      var _ := Uvmdealloc(a, lo * PGSIZE);
    }

    /** The loop of uvmalloc, from page lo up to page hi. */
    method GrowRange(lo: nat, hi: nat, newsz: nat, e: Pte) returns (r: nat, ghost pages: seq<int>)
      requires Valid() && lo <= hi <= MAXVPN && hi == PagesUp(newsz) && e.v && e.IsLeaf()
      requires forall w :: lo <= w < hi ==> Flat()[w] == Zero
      modifies this`tables, this`place, this`free, this`dropped
      ensures Valid() && |pages| <= hi - lo && r == if |pages| == hi - lo then newsz else 0
      ensures |pages| == hi - lo ==> Grown(old(Flat()), Flat(), lo, pages, e) && dropped == old(dropped)
      ensures |pages| < hi - lo ==> Flat() == old(Flat()) && dropped == old(dropped) + pages && |free| <= 1
      ensures Distinct(pages) && Elems(pages) <= old(Pool()) && Pool() == old(Pool()) - Elems(pages)
    {
      hide FlatMap, Wf;
      pages := [];
      ghost var f, pool := Flat(), Pool();
      FlatDomain(T());
      var a := lo * PGSIZE;
      while a < newsz
        invariant Valid() && a == (lo + |pages|) * PGSIZE && |pages| <= hi - lo && dropped == old(dropped)
        invariant Grown(f, Flat(), lo, pages, e)
        invariant Distinct(pages) && Elems(pages) <= pool && Pool() == pool - Elems(pages)
      {
        var mem := GrowStep(f, lo, pages, a / PGSIZE, e);
        if mem == -1 {
          ShrinkBack(f, lo, pages, a, e);
          return 0, pages;
        }
        assert mem !in pages && Elems(pages + [mem]) == Elems(pages) + {mem};
        pages := pages + [mem];
        a := a + PGSIZE;
      }
      r := newsz;
    }

    /** One entry of freewalk's loop is cleared. */
    method ClearEntry(p: int, i: int)
      requires p in tables && 0 <= i < |tables[p]|
      modifies this`tables
      ensures tables == old(tables)[p := old(tables)[p][i := Zero]]
    {
      tables := tables[p := tables[p][i := Zero]];
    }

    /**
    freewalk on the tree t: the tables at and below p leave the tree, each going to kfree
    exactly once.
    */
    method Freewalk(p: int, ghost t: Tree) returns (ghost freed: seq<int>)
      requires Wf(t) && NoLeaves(t) && p in t.place
      requires forall q :: q in Under(t, p) ==> q in tables && tables[q] == t.tables[q]
      modifies this`tables, this`free
      ensures tables == old(tables) - Under(t, p)
      ensures free == freed + old(free) && Distinct(freed) && forall q :: q in freed <==> q in Under(t, p)
      decreases t.place[p].level
    {
      hide Wf, NoLeaves, Below, Under;
      freed := [];
      ghost var k := tables;
      BelowAll(t, p);
      for i := 0 to ENTRIES
        invariant tables.Keys == k.Keys - Below(t, p, i) && p in tables && |tables[p]| == ENTRIES
        invariant forall q :: q in tables && q != p ==> tables[q] == k[q]
        invariant forall j :: i <= j < ENTRIES ==> tables[p][j] == t.tables[p][j]
        invariant free == freed + old(free) && Distinct(freed) && forall q :: q in freed <==> q in Below(t, p, i)
      {
        var pte := tables[p][i];
        NoLeafEntry(t, p, i);
        if pte.v && !pte.IsLeaf() {
          ghost var more := FreeChild(p, i, t, pte.ppn);
          DistinctConcat(more, freed);
          freed := more + freed;
          ClearEntry(p, i);
        } else if pte.v {
          assert false;
        } else {
          BelowSkip(t, p, i);
        }
      }
      tables := tables - {p};
      free := [p] + free;
      freed := [p] + freed;
      assert tables.Keys == (k - Under(t, p)).Keys;
      assert forall q :: q in tables ==> tables[q] == (k - Under(t, p))[q];
    }

    /** freewalk on the child in entry i. */
    method FreeChild(p: int, i: int, ghost t: Tree, child: int) returns (ghost freed: seq<int>)
      requires Wf(t) && NoLeaves(t) && p in t.place && 0 <= i < ENTRIES && t.tables[p][i].v
      requires t.tables[p][i].ppn == child
      requires forall q :: q in Under(t, p) && q !in Below(t, p, i) && q != p ==>
                 q in tables && tables[q] == t.tables[q]
      modifies this`tables, this`free
      ensures BranchAt(t, p, i) && child in t.place
      ensures tables == old(tables) - Under(t, child)
      ensures free == freed + old(free) && Distinct(freed) && forall q :: q in freed <==> q in Under(t, child)
      ensures Below(t, p, i + 1) == Below(t, p, i) + Under(t, child) && Below(t, p, i) !! Under(t, child)
      ensures p !in Under(t, child)
      decreases t.place[p].level, 0
    {
      assert t.place[p].level > 0;
      ChildPlace(t, p, i);
      BelowStep(t, p, i);
      forall q | q in Under(t, child)
        ensures q in tables && tables[q] == t.tables[q]
      {
        UnderChild(t, p, i, q);
      }
      freed := Freewalk(child, t);
    }

    /** uvmfree: the pages below sz go to kfree, and every table page is freed exactly once. */
    method Uvmfree(sz: nat) returns (ghost freed: seq<int>)
      requires Valid() && PagesUp(sz) <= MAXVPN
      requires forall w :: PagesUp(sz) <= w < MAXVPN ==> !Flat()[w].v
      modifies this`tables, this`free, this`dropped
      ensures tables == map[] && dropped == old(dropped) + PagesIn(old(Flat()), 0, PagesUp(sz))
      ensures free == freed + old(free) && Distinct(free) && forall p :: p in freed <==> p in old(tables)
    {
      ghost var f := Flat();
      if sz > 0 {
        Uvmunmap(0, PagesUp(sz), true);
      }
      UnmappedHasNoLeaves(T());
      UnderRoot(T());
      freed := Freewalk(root, T());
      DistinctConcat(freed, old(free));
    }
  }
}
