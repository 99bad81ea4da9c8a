/**
Physical pages, reference counts and the leaf page table entries of every address space,
as values.  An address space sees `View`: for each of its pages the contents and the
permissions, with "writable" meaning writable now or after a copy-on-write fault.
*/
module CowModel {
  import opened Params

  type Page = seq<int>

  /** A valid leaf entry. */
  datatype Pte = Pte(ppn: int, r: bool, w: bool, x: bool, u: bool, cow: bool)

  /** An address space and a virtual page number in it. */
  type Key = (int, int)

  /**
  `kernel` holds pages with one kernel owner: page-table pages, and pages between kalloc
  and their first mapping.
  */
  datatype Vm = Vm(
    phys: set<int>,
    ptes: map<Key, Pte>,
    pages: map<int, Page>,
    count: map<int, int>,
    free: seq<int>,
    kernel: set<int>)

  // ---------------------------------------------------------------------------------
  // Reference counts

  /** The entries that map page p. */
  function Mappers(ptes: map<Key, Pte>, p: int): set<Key> {
    set k | k in ptes && ptes[k].ppn == p
  }

  function Refs(vm: Vm, p: int): nat {
    |Mappers(vm.ptes, p)| + if p in vm.kernel then 1 else 0
  }

  /** A writable entry is the only entry for its page, and copy-on-write excludes writable. */
  predicate Exclusive(ptes: map<Key, Pte>) {
    && (forall k :: k in ptes ==> !(ptes[k].w && ptes[k].cow))
    && (forall j, k :: j in ptes && k in ptes && ptes[j].ppn == ptes[k].ppn && ptes[j].w ==> j == k)
  }

  /** Free pages are listed once and nobody counts them. */
  predicate FreeOk(vm: Vm) {
    && (forall i :: 0 <= i < |vm.free| ==> vm.free[i] in vm.count && vm.count[vm.free[i]] == 0)
    && (forall i, j :: 0 <= i < j < |vm.free| ==> vm.free[i] != vm.free[j])
  }

  predicate Counted(vm: Vm) {
    && vm.count.Keys == vm.phys
    && (forall p :: p in vm.count ==> vm.count[p] == Refs(vm, p))
  }

  predicate Inv(vm: Vm) {
    && Counted(vm) && FreeOk(vm) && Exclusive(vm.ptes)
    && vm.kernel <= vm.phys && vm.pages.Keys == vm.phys
    && (forall p :: p in vm.pages ==> |vm.pages[p]| == PGSIZE)
    && (forall k :: k in vm.ptes ==> vm.ptes[k].ppn in vm.phys && vm.ptes[k].ppn !in vm.kernel)
  }

  lemma MappersAdd(ptes: map<Key, Pte>, k: Key, pte: Pte)
    requires k !in ptes
    ensures forall p :: |Mappers(ptes[k := pte], p)| == |Mappers(ptes, p)| + if p == pte.ppn then 1 else 0
  {
    forall p
      ensures |Mappers(ptes[k := pte], p)| == |Mappers(ptes, p)| + if p == pte.ppn then 1 else 0
    {
      if p == pte.ppn {
        assert Mappers(ptes[k := pte], p) == Mappers(ptes, p) + {k};
      } else {
        assert Mappers(ptes[k := pte], p) == Mappers(ptes, p);
      }
    }
  }

  lemma MappersRemove(ptes: map<Key, Pte>, k: Key)
    requires k in ptes
    ensures forall p :: |Mappers(ptes - {k}, p)| == |Mappers(ptes, p)| - if p == ptes[k].ppn then 1 else 0
  {
    forall p
      ensures |Mappers(ptes - {k}, p)| == |Mappers(ptes, p)| - if p == ptes[k].ppn then 1 else 0
    {
      if p == ptes[k].ppn {
        assert Mappers(ptes, p) == Mappers(ptes - {k}, p) + {k};
      } else {
        assert Mappers(ptes - {k}, p) == Mappers(ptes, p);
      }
    }
  }

  /** Changing the entry at k moves one reference from its old page to its new one. */
  lemma MappersReplace(ptes: map<Key, Pte>, k: Key, pte: Pte)
    requires k in ptes
    ensures forall p :: |Mappers(ptes[k := pte], p)| + (if p == ptes[k].ppn then 1 else 0)
                     == |Mappers(ptes, p)| + (if p == pte.ppn then 1 else 0)
  {
    MappersRemove(ptes, k);
    MappersAdd(ptes - {k}, k, pte);
    assert (ptes - {k})[k := pte] == ptes[k := pte];
  }

  /** Putting an entry keeps exclusivity when its page is otherwise mapped read-only or not at all. */
  lemma ExclusivePut(ptes: map<Key, Pte>, k: Key, pte: Pte)
    requires Exclusive(ptes) && !(pte.w && pte.cow)
    requires forall j :: j in ptes && j != k && ptes[j].ppn == pte.ppn ==> !ptes[j].w && !pte.w
    ensures Exclusive(ptes[k := pte])
  {
  }

  /** A page with an entry is counted, so krefdec on it cannot panic and it is not free. */
  lemma MappedIsCounted(vm: Vm, k: Key)
    requires Inv(vm) && k in vm.ptes
    ensures vm.ptes[k].ppn in vm.count && vm.count[vm.ptes[k].ppn] >= 1 && vm.ptes[k].ppn !in vm.free
  {
    assert k in Mappers(vm.ptes, vm.ptes[k].ppn);
  }

  lemma SoleMapping(vm: Vm, k: Key)
    requires Inv(vm) && k in vm.ptes && vm.ptes[k].w
    ensures Mappers(vm.ptes, vm.ptes[k].ppn) == {k} && vm.count[vm.ptes[k].ppn] == 1
  {
    assert k in Mappers(vm.ptes, vm.ptes[k].ppn);
    assert Mappers(vm.ptes, vm.ptes[k].ppn) == {k};
  }

  // ---------------------------------------------------------------------------------
  // What an address space sees

  datatype Seen = Seen(data: Page, writable: bool, r: bool, x: bool, u: bool)

  function See(vm: Vm, pte: Pte): Seen
    requires pte.ppn in vm.pages
  {
    Seen(vm.pages[pte.ppn], pte.w || pte.cow, pte.r, pte.x, pte.u)
  }

  function View(vm: Vm): map<Key, Seen>
    requires Inv(vm)
  {
    map k | k in vm.ptes :: See(vm, vm.ptes[k])
  }

  // ---------------------------------------------------------------------------------
  // Pages that leave the allocator

  /** Pages nobody counts that are not on the free list either: kalloc will never hand them out. */
  function Uncounted(count: map<int, int>, free: seq<int>): set<int> {
    set p | p in count && count[p] == 0 && p !in free
  }

  function Lost(vm: Vm): set<int> {
    Uncounted(vm.count, vm.free)
  }

  /** The pages mapped by entries of f and by no others. */
  function Abandoned(vm: Vm, f: set<Key>): set<int> {
    set p | p in vm.phys && Mappers(vm.ptes, p) != {} && Mappers(vm.ptes, p) <= f
  }

  // ---------------------------------------------------------------------------------
  // Steps of the allocator and of one entry

  function Filled(c: int): Page {
    seq(PGSIZE, _ => c)
  }

  /** kalloc with a page on the free list: pop it, fill it with junk, count it once. */
  function Alloc(vm: Vm): Vm
    requires vm.free != []
  {
    var p := vm.free[0];
    vm.(free := vm.free[1..], pages := vm.pages[p := Filled(5)], count := vm.count[p := 1],
        kernel := vm.kernel + {p})
  }

  /** krefdec and, when the count reaches 0, back to the free list filled with junk. */
  function Drop(vm: Vm, p: int): Vm
    requires p in vm.count
  {
    var dec := vm.(count := vm.count[p := vm.count[p] - 1]);
    if vm.count[p] - 1 > 0 then dec
    else dec.(free := [p] + vm.free, pages := vm.pages[p := Filled(1)])
  }

  /** kfree of a page the kernel owns. */
  function FreeKernel(vm: Vm, p: int): Vm
    requires p in vm.count
  {
    Drop(vm, p).(kernel := vm.kernel - {p})
  }

  /** Map a page the kernel owns for the first time. */
  function MapNew(vm: Vm, k: Key, pte: Pte): Vm {
    vm.(ptes := vm.ptes[k := pte], kernel := vm.kernel - {pte.ppn})
  }

  /** kfree the page of an entry and clear the entry. */
  function Unmap(vm: Vm, k: Key): Vm
    requires k in vm.ptes && vm.ptes[k].ppn in vm.count
  {
    Drop(vm, vm.ptes[k].ppn).(ptes := vm.ptes - {k})
  }

  /** The first half of sharing a writable page: the owner's entry turns copy-on-write. */
  function Shared(pte: Pte): Pte {
    if pte.w then pte.(w := false, cow := true) else pte
  }

  function MarkShared(vm: Vm, k: Key): Vm
    requires k in vm.ptes
  {
    vm.(ptes := vm.ptes[k := Shared(vm.ptes[k])])
  }

  /** Give `child` the same page as `parent` has, and count it. */
  function Share(vm: Vm, parent: Key, child: Key): Vm
    requires parent in vm.ptes && vm.ptes[parent].ppn in vm.count
  {
    var p := vm.ptes[parent].ppn;
    vm.(ptes := vm.ptes[child := vm.ptes[parent]], count := vm.count[p := vm.count[p] + 1])
  }

  /** cowfault: the entry moves to a private, writable copy and the old page loses a count. */
  function Privatise(vm: Vm, k: Key, mem: int): Vm
    requires k in vm.ptes && vm.ptes[k].ppn in vm.pages && vm.ptes[k].ppn in vm.count
  {
    var pa := vm.ptes[k].ppn;
    vm.(pages := vm.pages[mem := vm.pages[pa]],
        ptes := vm.ptes[k := vm.ptes[k].(ppn := mem, w := true, cow := false)],
        count := vm.count[pa := vm.count[pa] - 1],
        kernel := vm.kernel - {mem})
  }

  /** All of cowfault: kalloc, then the move. */
  function Fault(vm: Vm, k: Key): Vm
    requires Inv(vm) && k in vm.ptes && vm.free != []
  {
    Privatise(Alloc(vm), k, vm.free[0])
  }

  lemma AllocOk(vm: Vm)
    requires Inv(vm) && vm.free != []
    ensures Inv(Alloc(vm)) && View(Alloc(vm)) == View(vm) && Lost(Alloc(vm)) == Lost(vm)
    ensures var p := vm.free[0]; p in vm.phys && p !in vm.kernel && forall k :: k in vm.ptes ==> vm.ptes[k].ppn != p
  {
    var p := vm.free[0];
    assert Refs(vm, p) == 0;
    assert Mappers(vm.ptes, p) == {};
    assert vm.free == [p] + vm.free[1..];
    forall k | k in vm.ptes
      ensures vm.ptes[k].ppn != p
    {
      assert k !in Mappers(vm.ptes, p);
    }
  }

  lemma FreeKernelOk(vm: Vm, p: int)
    requires Inv(vm) && p in vm.kernel
    ensures vm.count[p] == 1
    ensures Inv(FreeKernel(vm, p)) && View(FreeKernel(vm, p)) == View(vm) && Lost(FreeKernel(vm, p)) == Lost(vm)
  {
    forall k | k in vm.ptes
      ensures vm.ptes[k].ppn != p
    {
    }
    assert Mappers(vm.ptes, p) == {};
    assert p !in vm.free;
  }

  lemma MapNewInv(vm: Vm, k: Key, pte: Pte)
    requires Inv(vm) && k !in vm.ptes && pte.ppn in vm.kernel && !(pte.w && pte.cow)
    ensures Inv(MapNew(vm, k, pte))
  {
    MappersAdd(vm.ptes, k, pte);
    ExclusivePut(vm.ptes, k, pte);
  }

  lemma MapNewOk(vm: Vm, k: Key, pte: Pte)
    requires Inv(vm) && k !in vm.ptes && pte.ppn in vm.kernel && !(pte.w && pte.cow)
    ensures Inv(MapNew(vm, k, pte))
    ensures View(MapNew(vm, k, pte)) == View(vm)[k := See(vm, pte)]
  {
    MapNewInv(vm, k, pte);
  }

  /** A page dropped for the last time has no other entry. */
  lemma LastMapping(vm: Vm, k: Key)
    requires Inv(vm) && k in vm.ptes && vm.count[vm.ptes[k].ppn] == 1
    ensures forall j :: j in vm.ptes && j != k ==> vm.ptes[j].ppn != vm.ptes[k].ppn
  {
    forall j | j in vm.ptes && j != k
      ensures vm.ptes[j].ppn != vm.ptes[k].ppn
    {
      if vm.ptes[j].ppn == vm.ptes[k].ppn {
        assert {j, k} <= Mappers(vm.ptes, vm.ptes[k].ppn);
        CardinalityUp({j, k}, Mappers(vm.ptes, vm.ptes[k].ppn));
      }
    }
  }

  lemma {:induction false} CardinalityUp(a: set<Key>, b: set<Key>)
    requires a <= b
    ensures |a| <= |b|
  {
    if a != {} {
      var x :| x in a;
      CardinalityUp(a - {x}, b - {x});
    }
  }

  lemma UnmapInv(vm: Vm, k: Key)
    requires Inv(vm) && k in vm.ptes
    ensures Inv(Unmap(vm, k))
  {
    MappedIsCounted(vm, k);
    MappersRemove(vm.ptes, k);
  }

  /** The page stays as it was for every other entry, freed or not. */
  lemma UnmapOk(vm: Vm, k: Key)
    requires Inv(vm) && k in vm.ptes
    ensures vm.ptes[k].ppn in vm.count && vm.count[vm.ptes[k].ppn] > 0
    ensures Inv(Unmap(vm, k)) && View(Unmap(vm, k)) == View(vm) - {k}
  {
    UnmapInv(vm, k);
    MappedIsCounted(vm, k);
    if vm.count[vm.ptes[k].ppn] == 1 {
      LastMapping(vm, k);
    }
  }

  lemma UnmapLost(vm: Vm, k: Key)
    requires Inv(vm) && k in vm.ptes
    ensures vm.ptes[k].ppn in vm.count && Lost(Unmap(vm, k)) == Lost(vm)
  {
    MappedIsCounted(vm, k);
  }

  lemma MarkSharedInv(vm: Vm, k: Key)
    requires Inv(vm) && k in vm.ptes
    ensures Inv(MarkShared(vm, k))
  {
    var pte := Shared(vm.ptes[k]);
    MappersReplace(vm.ptes, k, pte);
    ExclusivePut(vm.ptes, k, pte);
  }

  lemma MarkSharedOk(vm: Vm, k: Key)
    requires Inv(vm) && k in vm.ptes
    ensures Inv(MarkShared(vm, k)) && View(MarkShared(vm, k)) == View(vm)
  {
    MarkSharedInv(vm, k);
  }

  lemma ShareInv(vm: Vm, parent: Key, child: Key)
    requires Inv(vm) && parent in vm.ptes && child !in vm.ptes && !vm.ptes[parent].w
    ensures vm.ptes[parent].ppn in vm.count
    ensures Inv(Share(vm, parent, child))
  {
    MappersAdd(vm.ptes, child, vm.ptes[parent]);
    MappedIsCounted(vm, parent);
    forall j | j in vm.ptes && vm.ptes[j].ppn == vm.ptes[parent].ppn
      ensures !vm.ptes[j].w
    {
    }
    ExclusivePut(vm.ptes, child, vm.ptes[parent]);
  }

  /** Once the parent's entry is not writable, the child may have the same page. */
  lemma ShareOk(vm: Vm, parent: Key, child: Key)
    requires Inv(vm) && parent in vm.ptes && child !in vm.ptes && !vm.ptes[parent].w
    ensures vm.ptes[parent].ppn in vm.count
    ensures Inv(Share(vm, parent, child))
    ensures View(Share(vm, parent, child)) == View(vm)[child := View(vm)[parent]]
  {
    ShareInv(vm, parent, child);
  }

  lemma ShareLost(vm: Vm, parent: Key, child: Key)
    requires Inv(vm) && parent in vm.ptes
    ensures vm.ptes[parent].ppn in vm.count && Lost(Share(vm, parent, child)) == Lost(vm)
  {
    MappedIsCounted(vm, parent);
  }

  lemma PrivatiseInv(vm: Vm, k: Key, mem: int)
    requires Inv(vm) && k in vm.ptes && vm.ptes[k].cow && mem in vm.kernel
    ensures vm.ptes[k].ppn in vm.pages && vm.ptes[k].ppn in vm.count
    ensures Inv(Privatise(vm, k, mem))
  {
    var pte := vm.ptes[k].(ppn := mem, w := true, cow := false);
    MappedIsCounted(vm, k);
    MappersReplace(vm.ptes, k, pte);
    NoMapperOfKernel(vm, mem);
    ExclusivePut(vm.ptes, k, pte);
  }

  /** A copy-on-write fault is invisible to every address space, the faulting one included. */
  lemma PrivatiseOk(vm: Vm, k: Key, mem: int)
    requires Inv(vm) && k in vm.ptes && vm.ptes[k].cow && mem in vm.kernel
    ensures vm.ptes[k].ppn in vm.pages && vm.ptes[k].ppn in vm.count && vm.count[vm.ptes[k].ppn] > 0
    ensures Inv(Privatise(vm, k, mem)) && View(Privatise(vm, k, mem)) == View(vm)
  {
    MappedIsCounted(vm, k);
    PrivatiseInv(vm, k, mem);
  }

  lemma NoMapperOfKernel(vm: Vm, p: int)
    requires Inv(vm) && p in vm.kernel
    ensures Mappers(vm.ptes, p) == {} && p !in vm.free
  {
    assert vm.count[p] >= 1;
  }

  /** Put new contents in a page. */
  function SetPage(vm: Vm, p: int, page: Page): Vm {
    vm.(pages := vm.pages[p := page])
  }

  lemma SetPageInv(vm: Vm, p: int, page: Page)
    requires Inv(vm) && p in vm.phys && |page| == PGSIZE
    ensures Inv(SetPage(vm, p, page))
  {
  }

  /** A store through a writable entry is seen through that entry and no other. */
  lemma StoreOk(vm: Vm, k: Key, page: Page)
    requires Inv(vm) && k in vm.ptes && vm.ptes[k].w && |page| == PGSIZE
    ensures Inv(SetPage(vm, vm.ptes[k].ppn, page))
    ensures View(SetPage(vm, vm.ptes[k].ppn, page)) == View(vm)[k := View(vm)[k].(data := page)]
  {
    SetPageInv(vm, vm.ptes[k].ppn, page);
  }

  /** Pages the kernel owns are seen by nobody. */
  lemma SetKernelPageOk(vm: Vm, p: int, page: Page)
    requires Inv(vm) && p in vm.kernel && |page| == PGSIZE
    ensures Inv(SetPage(vm, p, page)) && View(SetPage(vm, p, page)) == View(vm)
  {
  }

  // ---------------------------------------------------------------------------------
  // Write faults

  /**
  From a to b exactly the copy-on-write entries f were given pages of their own, and entries
  that are new have pages that were free.
  */
  ghost predicate Repointed(a: Vm, b: Vm, f: set<Key>) {
    && (forall k :: k in f ==> k in a.ptes && a.ptes[k].cow)
    && (forall k :: k in a.ptes ==> k in b.ptes)
    && (forall k :: k in a.ptes && k !in f ==> b.ptes[k] == a.ptes[k])
    && (forall k :: k in f ==> b.ptes[k] == a.ptes[k].(ppn := b.ptes[k].ppn, w := true, cow := false))
    && (forall k :: k in b.ptes && (k !in a.ptes || k in f) ==> b.ptes[k].ppn in a.free)
    && (forall p :: p in b.free ==> p in a.free)
  }

  /** And the pages lost on the way are those only f had mapped. */
  ghost predicate Moved(a: Vm, b: Vm, f: set<Key>) {
    Repointed(a, b, f) && b.phys == a.phys && Lost(b) == Lost(a) + Abandoned(a, f)
  }

  /** A page mapped before keeps exactly its mappers outside f. */
  lemma RepointedMappers(a: Vm, b: Vm, f: set<Key>, p: int)
    requires Inv(a) && Repointed(a, b, f) && Mappers(a.ptes, p) != {}
    ensures Mappers(b.ptes, p) == Mappers(a.ptes, p) - f
  {
    assert p !in a.free;
  }

  lemma RepointedTwice(a: Vm, b: Vm, c: Vm, f: set<Key>, g: set<Key>)
    requires Repointed(a, b, f) && Repointed(b, c, g)
    requires forall k :: k in g ==> k in a.ptes
    ensures Repointed(a, c, f + g)
  {
    forall k | k in g
      ensures k !in f
    {
      assert b.ptes[k].cow;
    }
  }

  /** Moving f and then g abandons what moving both at once does. */
  lemma AbandonedTwice(a: Vm, b: Vm, f: set<Key>, g: set<Key>, p: int)
    requires Inv(a) && b.phys == a.phys && Repointed(a, b, f)
    requires forall k :: k in g ==> k in a.ptes && k in b.ptes && b.ptes[k].cow
    ensures p in Abandoned(a, f + g) <==> p in Abandoned(a, f) || p in Abandoned(b, g)
  {
    hide Inv;
    var before, after := Mappers(a.ptes, p), Mappers(b.ptes, p);
    if before != {} {
      RepointedMappers(a, b, f, p);
      assert after == before - f;
      assert before <= f + g <==> after <= g;
      assert forall k :: k in before && k !in f ==> k in after;
      assert before <= f <==> after == {};
    } else {
      assert forall k :: k in g && k in after ==> k !in f && k in before;
      assert after <= g ==> after == {};
    }
  }

  lemma MovedTwice(a: Vm, b: Vm, c: Vm, f: set<Key>, g: set<Key>)
    requires Inv(a) && Moved(a, b, f) && Moved(b, c, g)
    requires forall k :: k in g ==> k in a.ptes
    ensures Moved(a, c, f + g)
  {
    RepointedTwice(a, b, c, f, g);
    assert forall k :: k in g ==> k in b.ptes && b.ptes[k].cow;
    hide Inv, Repointed, Lost;
    forall p
      ensures p in Abandoned(a, f + g) <==> p in Abandoned(a, f) || p in Abandoned(b, g)
    {
      AbandonedTwice(a, b, f, g, p);
    }
    hide Abandoned;
    assert Abandoned(a, f + g) == Abandoned(a, f) + Abandoned(b, g);
  }

  /** One fault loses the old page exactly when the entry was its last mapping. */
  lemma AbandonedOne(vm: Vm, k: Key)
    requires Inv(vm) && k in vm.ptes
    ensures vm.ptes[k].ppn in vm.count
    ensures Abandoned(vm, {k}) == if vm.count[vm.ptes[k].ppn] == 1 then {vm.ptes[k].ppn} else {}
  {
    var pa := vm.ptes[k].ppn;
    assert k in Mappers(vm.ptes, pa);
    assert vm.count[pa] == |Mappers(vm.ptes, pa)|;
    if vm.count[pa] == 1 {
      LastMapping(vm, k);
      assert Mappers(vm.ptes, pa) == {k};
    } else {
      assert Mappers(vm.ptes, pa) != {k};
    }
    forall p | p in Abandoned(vm, {k})
      ensures p == pa
    {
      assert k in Mappers(vm.ptes, p);
    }
  }

  lemma FaultRepoints(vm: Vm, k: Key)
    requires Inv(vm) && k in vm.ptes && vm.ptes[k].cow && vm.free != []
    ensures Repointed(vm, Fault(vm, k), {k})
  {
    assert vm.free == [vm.free[0]] + vm.free[1..];
  }

  lemma FaultCounts(count: map<int, int>, free: seq<int>, pa: int)
    requires free != [] && free[0] in count && pa in count && pa !in free && count[pa] >= 1
    ensures Uncounted(count[free[0] := 1][pa := count[pa] - 1], free[1..]) ==
            Uncounted(count, free) + if count[pa] == 1 then {pa} else {}
  {
    assert free == [free[0]] + free[1..];
  }

  /** A copy-on-write fault loses the old page exactly when the entry was its last mapping. */
  lemma FaultMoves(vm: Vm, k: Key)
    requires Inv(vm) && k in vm.ptes && vm.ptes[k].cow && vm.free != []
    ensures Moved(vm, Fault(vm, k), {k})
  {
    hide Repointed, Abandoned, Uncounted, Exclusive;
    FaultRepoints(vm, k);
    MappedIsCounted(vm, k);
    AbandonedOne(vm, k);
    FaultCounts(vm.count, vm.free, vm.ptes[k].ppn);
  }
}
