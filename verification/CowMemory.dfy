/**
kalloc.c and the copy-on-write half of vm.c as an object updated in place.  Each method
says what every address space sees afterwards; the reference is eager copying: fork gives
the child its own copy of every user page at once.
*/
module CowMemory {
  import opened CowModel
  import opened Params

  /** The views when fork copies the first n user pages of `parent` outright. */
  function ForkView(view: map<Key, Seen>, parent: int, child: int, n: nat): map<Key, Seen> {
    var copied := set v | 0 <= v < n && (parent, v) in view && view[(parent, v)].u :: (child, v);
    map k | k in view.Keys + copied :: if k in copied then view[(parent, k.1)] else view[k]
  }

  /** The entries when fork shares them: both sides refer to the same page, neither may write it. */
  function ForkPtes(ptes: map<Key, Pte>, parent: int, child: int, n: nat): map<Key, Pte> {
    var copied := set v | 0 <= v < n && (parent, v) in ptes && ptes[(parent, v)].u :: (child, v);
    map k | k in ptes.Keys + copied ::
      if k in copied then Shared(ptes[(parent, k.1)])
      else if k.0 == parent && 0 <= k.1 < n && ptes[k].u then Shared(ptes[k])
      else ptes[k]
  }

  /** Which entries there are after sharing, and what each is. */
  lemma ForkPtesAt(ptes: map<Key, Pte>, parent: int, child: int, n: nat, k: Key)
    ensures var copied := k.0 == child && 0 <= k.1 < n && (parent, k.1) in ptes && ptes[(parent, k.1)].u;
            && (k in ForkPtes(ptes, parent, child, n) <==> k in ptes || copied)
            && (copied ==> ForkPtes(ptes, parent, child, n)[k] == Shared(ptes[(parent, k.1)]))
            && (k in ptes && !copied ==>
                  ForkPtes(ptes, parent, child, n)[k] ==
                  if k.0 == parent && 0 <= k.1 < n && ptes[k].u then Shared(ptes[k]) else ptes[k])
  {
    assert k == (k.0, k.1);
  }

  lemma ForkPtesNone(ptes: map<Key, Pte>, parent: int, child: int)
    ensures ForkPtes(ptes, parent, child, 0) == ptes
  {
  }

  lemma ForkPtesStep(ptes: map<Key, Pte>, parent: int, child: int, v: nat)
    requires parent != child && (child, v) !in ptes
    ensures ForkPtes(ptes, parent, child, v + 1) ==
            if (parent, v) in ptes && ptes[(parent, v)].u
            then ForkPtes(ptes, parent, child, v)[(parent, v) := Shared(ptes[(parent, v)])]
                   [(child, v) := Shared(ptes[(parent, v)])]
            else ForkPtes(ptes, parent, child, v)
    ensures (parent, v) in ForkPtes(ptes, parent, child, v) <==> (parent, v) in ptes
    ensures (parent, v) in ptes ==> ForkPtes(ptes, parent, child, v)[(parent, v)] == ptes[(parent, v)]
    ensures (child, v) !in ForkPtes(ptes, parent, child, v)
  {
    hide ForkPtes;
    var after, before := ForkPtes(ptes, parent, child, v + 1), ForkPtes(ptes, parent, child, v);
    var stepped := if (parent, v) in ptes && ptes[(parent, v)].u
                   then before[(parent, v) := Shared(ptes[(parent, v)])][(child, v) := Shared(ptes[(parent, v)])]
                   else before;
    ForkPtesAt(ptes, parent, child, v, (parent, v));
    ForkPtesAt(ptes, parent, child, v, (child, v));
    forall k: Key
      ensures k in after <==> k in stepped
      ensures k in after ==> after[k] == stepped[k]
    {
      assert k == (k.0, k.1);
      ForkPtesAt(ptes, parent, child, v, k);
      ForkPtesAt(ptes, parent, child, v + 1, k);
    }
    assert after == stepped;
  }

  /** The page-table pages fork must allocate for the first n pages, given what each one lacks. */
  function TablesNeeded(ptes: map<Key, Pte>, parent: int, missing: seq<nat>, n: nat): nat
    requires n <= |missing|
  {
    if n == 0 then 0
    else
      TablesNeeded(ptes, parent, missing, n - 1) +
      if (parent, n - 1) in ptes && ptes[(parent, n - 1)].u then missing[n - 1] else 0
  }

  lemma {:induction false} TablesNeededGrows(ptes: map<Key, Pte>, parent: int, missing: seq<nat>, m: nat, n: nat)
    requires m <= n <= |missing|
    ensures TablesNeeded(ptes, parent, missing, m) <= TablesNeeded(ptes, parent, missing, n)
    decreases n
  {
    if m < n {
      TablesNeededGrows(ptes, parent, missing, m, n - 1);
    }
  }

  /** The views when pages v0 .. v0 + n of one space are gone. */
  function DropView(view: map<Key, Seen>, space: int, v0: int, n: nat): map<Key, Seen> {
    map k | k in view && !(k.0 == space && v0 <= k.1 < v0 + n) :: view[k]
  }

  const MAXVA: nat := 0x40_0000_0000

  /** The byte a space reads at an address; a page not yet allocated reads as zeros. */
  function Byte(view: map<Key, Seen>, space: int, a: nat): int {
    var k := (space, a / PGSIZE);
    if k in view && a % PGSIZE < |view[k].data| then view[k].data[a % PGSIZE] else 0
  }

  /** Exactly the bytes va .. va + |bytes| of one space changed, to these. */
  ghost predicate Wrote(view: map<Key, Seen>, view': map<Key, Seen>, space: int, va: nat, bytes: seq<int>) {
    forall t, a: nat ::
      Byte(view', t, a) == if t == space && va <= a < va + |bytes| then bytes[a - va] else Byte(view, t, a)
  }

  ghost predicate SameBytes(view: map<Key, Seen>, view': map<Key, Seen>) {
    forall t, a: nat :: Byte(view', t, a) == Byte(view, t, a)
  }

  /** These are the bytes a space reads from va on. */
  predicate Reads(view: map<Key, Seen>, space: int, va: nat, bytes: seq<int>) {
    forall i :: 0 <= i < |bytes| ==> bytes[i] == Byte(view, space, va + i)
  }

  // ---------------------------------------------------------------------------------
  // Ranges of pages

  /** How many pages the n bytes from va on lie in. */
  function PageCount(va: nat, n: nat): nat {
    if n == 0 then 0 else (va + n - 1) / PGSIZE - va / PGSIZE + 1
  }

  predicate Within(k: Key, space: int, v0: nat, n: nat) {
    k.0 == space && v0 <= k.1 < v0 + n
  }

  /** What copyout (write) and copyin accept: a page open to the user, or one vmfault may supply. */
  predicate Lawful(view: map<Key, Seen>, k: Key, sz: nat, write: bool) {
    && k.1 * PGSIZE < MAXVA
    && if k in view then view[k].u && (write ==> view[k].writable) else k.1 * PGSIZE < sz
  }

  /** A page vmfault supplied. */
  predicate Supplied(seen: Seen) {
    |seen.data| == PGSIZE && seen.writable && seen.r && !seen.x && seen.u
  }

  /**
  Pages v0 .. v0 + n of one space, all lawful to touch, are there, supplied if they were not;
  everything else is as it was, and no page changed its permissions.
  */
  ghost predicate Opened(
    view: map<Key, Seen>, view': map<Key, Seen>, space: int, v0: nat, n: nat, sz: nat, write: bool)
  {
    && (forall k :: Within(k, space, v0, n) ==> Lawful(view, k, sz, write))
    && (forall k :: k in view' <==> k in view || Within(k, space, v0, n))
    && (forall k :: k in view && !Within(k, space, v0, n) ==> view'[k] == view[k])
    && (forall k :: k in view && Within(k, space, v0, n) ==>
          view'[k].(data := view[k].data) == view[k] && |view'[k].data| == |view[k].data|)
    && (forall k :: k in view' && k !in view ==> Supplied(view'[k]))
  }

  /** The contents of at most one page have changed. */
  ghost predicate SamePages(view: map<Key, Seen>, view': map<Key, Seen>, k: Key) {
    && view'.Keys == view.Keys
    && (forall j :: j in view && j != k ==> view'[j] == view[j])
    && (k in view ==> view'[k].(data := view[k].data) == view[k] && |view'[k].data| == |view[k].data|)
  }

  /** Page contents with `bytes` stored at `off`. */
  function Patched(page: Page, off: nat, bytes: seq<int>): Page
    requires off + |bytes| <= |page|
  {
    page[..off] + bytes + page[off + |bytes|..]
  }

  // ---------------------------------------------------------------------------------
  // The reference machine

  datatype Op =
    | Fork(parent: int, child: int, n: nat)
    | Grow(k: Key, w: bool, x: bool)
    | Fault(k: Key)
    | UserStore(k: Key, off: nat, bytes: seq<int>)
    | CopyOut(space: int, va: nat, src: seq<int>, sz: nat)
    | Shrink(space: int, v0: int, n: nat)

  /** How often an operation may call walk with alloc set. */
  function Walks(op: Op): nat {
    match op
    case Fork(_, _, n) => n
    case Grow(_, _, _) => 1
    case CopyOut(_, va, src, _) => PageCount(va, |src|)
    case _ => 0
  }

  /**
  What an operation does to the views when every page is private.  A failed operation
  changes nothing, except that copyout may have written the first `done` bytes, which end
  with a page.
  */
  ghost predicate RefStep(view: map<Key, Seen>, op: Op, ok: bool, done: nat, view': map<Key, Seen>) {
    match op
    case Fork(parent, child, n) => view' == if ok then ForkView(view, parent, child, n) else view
    case Grow(k, w, x) => view' == if ok then view[k := Seen(Filled(0), w, true, x, true)] else view
    case Fault(k) => view' == view
    case UserStore(k, off, bytes) =>
      if ok then
        && k in view && view[k].u && view[k].writable && off + |bytes| <= |view[k].data|
        && view' == view[k := view[k].(data := Patched(view[k].data, off, bytes))]
      else view' == view
    case CopyOut(space, va, src, sz) =>
      && done <= |src| && (if ok then done == |src| else done == 0 || (va + done) % PGSIZE == 0)
      && Opened(view, view', space, va / PGSIZE, PageCount(va, done), sz, true)
      && Wrote(view, view', space, va, src[..done])
    case Shrink(space, v0, n) => view' == DropView(view, space, v0, n)
  }

  /** The copy-on-write entries among these pages. */
  function CowKeys(ptes: map<Key, Pte>, space: int, v0: nat, n: nat): set<Key> {
    set k | k in ptes && Within(k, space, v0, n) && ptes[k].cow
  }

  /** The entries an operation takes a write fault on. */
  function Faults(ptes: map<Key, Pte>, op: Op, ok: bool, done: nat): set<Key> {
    match op
    case Fault(k) => if ok then {k} else {}
    case UserStore(k, _, _) => if ok && k in ptes && ptes[k].cow then {k} else {}
    case CopyOut(space, va, _, _) => CowKeys(ptes, space, va / PGSIZE, PageCount(va, done))
    case _ => {}
  }

  /**
  A run: the memories before, between and after the operations.  The views step as in the
  reference machine; the pages lost in a step are those its write faults took the last
  mapping from.
  */
  ghost predicate CowRun(vms: seq<Vm>, ops: seq<Op>, oks: seq<bool>, dones: seq<nat>) {
    && |oks| == |dones| == |ops| && |vms| == |ops| + 1
    && (forall i :: 0 <= i <= |ops| ==> Inv(vms[i]) && vms[i].phys == vms[0].phys)
    && (forall i :: 0 <= i < |ops| ==> CowStep(vms[i], ops[i], oks[i], dones[i], vms[i + 1]))
  }

  ghost predicate CowStep(vm: Vm, op: Op, ok: bool, done: nat, vm': Vm)
    requires Inv(vm) && Inv(vm')
  {
    && RefStep(View(vm), op, ok, done, View(vm'))
    && Lost(vm') == Lost(vm) + Abandoned(vm, Faults(vm.ptes, op, ok, done))
  }

  lemma CowRunSnoc(vms: seq<Vm>, ops: seq<Op>, oks: seq<bool>, dones: seq<nat>, op: Op, ok: bool, done: nat, vm: Vm)
    requires CowRun(vms, ops, oks, dones) && Inv(vm) && vm.phys == vms[0].phys
    requires CowStep(vms[|ops|], op, ok, done, vm)
    ensures CowRun(vms + [vm], ops + [op], oks + [ok], dones + [done])
  {
    hide Inv, CowStep;
    var vms', ops', oks', dones' := vms + [vm], ops + [op], oks + [ok], dones + [done];
    assert forall i :: 0 <= i <= |ops'| ==> Inv(vms'[i]) && vms'[i].phys == vms'[0].phys;
    forall i | 0 <= i < |ops'|
      ensures CowStep(vms'[i], ops'[i], oks'[i], dones'[i], vms'[i + 1])
    {
      if i < |ops| {
        assert CowStep(vms[i], ops[i], oks[i], dones[i], vms[i + 1]);
      }
    }
  }

  /** Step i of a run takes the last mapping from page p by a write fault. */
  ghost predicate LosesAt(vms: seq<Vm>, ops: seq<Op>, oks: seq<bool>, dones: seq<nat>, i: nat, p: int) {
    && i < |ops| && i < |vms| && i < |oks| && i < |dones|
    && p in Abandoned(vms[i], Faults(vms[i].ptes, ops[i], oks[i], dones[i]))
  }

  /** The pages lost by a run are those lost before and those one of its write faults abandoned. */
  lemma {:induction false} LostInRun(vms: seq<Vm>, ops: seq<Op>, oks: seq<bool>, dones: seq<nat>, n: nat, p: int)
    requires CowRun(vms, ops, oks, dones) && n <= |ops|
    ensures p in Lost(vms[n]) <==> p in Lost(vms[0]) || exists i :: 0 <= i < n && LosesAt(vms, ops, oks, dones, i, p)
  {
    hide Inv, RefStep, Lost, Abandoned, Faults;
    if n > 0 {
      LostInRun(vms, ops, oks, dones, n - 1, p);
      assert CowStep(vms[n - 1], ops[n - 1], oks[n - 1], dones[n - 1], vms[n]);
      assert p in Lost(vms[n]) <==> p in Lost(vms[n - 1]) || LosesAt(vms, ops, oks, dones, n - 1, p);
    }
  }

  /**
  Where every page is after a run that began with none lost: on the free list, counted as
  often as it is referred to, or lost to a write fault at its last mapping; never two of these.
  */
  lemma PageAccount(vms: seq<Vm>, ops: seq<Op>, oks: seq<bool>, dones: seq<nat>, p: int)
    requires CowRun(vms, ops, oks, dones) && Lost(vms[0]) == {} && p in vms[0].phys
    ensures var vm := vms[|ops|]; var lost := exists i :: LosesAt(vms, ops, oks, dones, i, p);
            && p in vm.count && vm.count[p] == Refs(vm, p)
            && (vm.count[p] > 0 <==> p !in vm.free && !lost)
            && !(p in vm.free && lost)
  {
    LostInRun(vms, ops, oks, dones, |ops|, p);
    assert Inv(vms[|ops|]);
  }

  /** What one page of copyout (write) or copyin takes from the free list. */
  function PageNeed(ptes: map<Key, Pte>, k: Key, missing: nat, write: bool): nat {
    if k !in ptes then 1 + missing else if write && ptes[k].cow then 1 else 0
  }

  function Need(ptes: map<Key, Pte>, space: int, v0: nat, missing: seq<nat>, n: nat, write: bool): nat
    requires n <= |missing|
  {
    if n == 0 then 0
    else
      Need(ptes, space, v0, missing, n - 1, write) + PageNeed(ptes, (space, v0 + n - 1), missing[n - 1], write)
  }

  lemma {:induction false} NeedGrows(
    ptes: map<Key, Pte>, space: int, v0: nat, missing: seq<nat>, m: nat, n: nat, write: bool)
    requires m <= n <= |missing|
    ensures Need(ptes, space, v0, missing, m, write) <= Need(ptes, space, v0, missing, n, write)
    decreases n
  {
    if m < n {
      NeedGrows(ptes, space, v0, missing, m, n - 1, write);
    }
  }

  /** Every page of the range is lawful, and the free list is long enough. */
  ghost predicate Affordable(
    vm: Vm, space: int, va: nat, len: nat, sz: nat, missing: seq<nat>, write: bool)
    requires Inv(vm) && PageCount(va, len) <= |missing|
  {
    var v0, n := va / PGSIZE, PageCount(va, len);
    && (forall k :: Within(k, space, v0, n) ==> Lawful(View(vm), k, sz, write))
    && |vm.free| >= Need(vm.ptes, space, v0, missing, n, write)
  }

  /** PGROUNDUP. */
  function RoundUp(a: nat): nat {
    (a + PGSIZE - 1) / PGSIZE * PGSIZE
  }

  predicate AllZero(count: map<int, int>, free: seq<int>) {
    forall i :: 0 <= i < |free| ==> free[i] in count && count[free[i]] == 0
  }

  /** The free list after the whole pages from p up to end are pushed on it one by one. */
  function PagesFrom(p: nat, end: nat, free: seq<int>): seq<int>
    decreases end - p
  {
    if p + PGSIZE <= end then PagesFrom(p + PGSIZE, end, [p] + free) else free
  }

  /** Only the kernel took pages: no entry and no page anybody owned has changed. */
  ghost predicate Grew(a: Vm, b: Vm)
    requires Inv(a) && Inv(b)
  {
    && View(b) == View(a) && b.ptes == a.ptes && a.kernel <= b.kernel && Lost(b) == Lost(a)
    && forall p :: p in a.kernel ==> b.pages[p] == a.pages[p]
  }

  class CowMemory {
    const phys: set<int>
    var ptes: map<Key, Pte>
    var pages: map<int, Page>
    var count: map<int, int>
    var free: seq<int>
    var kernel: set<int>

    function State(): Vm
      reads this
    {
      Vm(phys, ptes, pages, count, free, kernel)
    }

    ghost predicate Forked(vm: Vm, parent: int, child: int, v: nat)
      requires Valid() && Inv(vm)
      reads this
    {
      View(State()) == ForkView(View(vm), parent, child, v) && ptes == ForkPtes(vm.ptes, parent, child, v)
    }

    ghost predicate Valid()
      reads this
    {
      Inv(State()) && -1 !in phys
    }

    /** The state kinit is meant to reach: every page free and counted 0. */
    constructor (all: seq<int>)
      requires -1 !in all && forall i, j :: 0 <= i < j < |all| ==> all[i] != all[j]
      ensures Valid() && ptes == map[] && View(State()) == map[] && free == all && Lost(State()) == {}
    {
      phys := set p | p in all;
      ptes, kernel, free := map[], {}, all;
      pages := map p | p in all :: Filled(1);
      count := map p | p in all :: 0;
      new;
      assert forall p :: Mappers(ptes, p) == {};
    }

    /** kalloc; -1 for the null result. */
    method Kalloc() returns (p: int)
      requires Valid()
      modifies this
      ensures Valid()
      ensures old(free) == [] ==> p == -1 && State() == old(State())
      ensures old(free) != [] ==> p == old(free)[0] && State() == Alloc(old(State()))
      ensures View(State()) == old(View(State())) && ptes == old(ptes) && Lost(State()) == old(Lost(State()))
      ensures p == -1 <==> old(free) == []
      ensures p != -1 ==> p in kernel
    {
      if free == [] {
        return -1;
      }
      AllocOk(State());
      p := free[0];
      free := free[1..];
      pages := pages[p := Filled(5)];
      count := count[p := 1];
      kernel := kernel + {p};
    }

    /** krefdec; the panic needs count <= 0. */
    method Krefdec(p: int) returns (c: int)
      requires p in count && count[p] > 0
      modifies this`count
      ensures count == old(count)[p := old(count)[p] - 1] && c == count[p]
    {
      count := count[p := count[p] - 1];
      c := count[p];
    }

    method Krefinc(p: int)
      requires p in count
      modifies this`count
      ensures count == old(count)[p := old(count)[p] + 1]
    {
      count := count[p := count[p] + 1];
    }

    method Kfree(p: int)
      requires p in count && count[p] > 0
      modifies this`count, this`pages, this`free
      ensures State() == Drop(old(State()), p)
    {
      var c := Krefdec(p);
      if c > 0 {
        return;
      }
      pages := pages[p := Filled(1)];
      free := [p] + free;
    }

    /** kfree as boot calls it, where krefdec's panic can be reached. */
    method KfreeOrPanic(p: int) returns (panicked: bool)
      requires p in count
      modifies this`count, this`pages, this`free
      ensures panicked <==> old(count)[p] <= 0
      ensures State() == if panicked then old(State()) else Drop(old(State()), p)
    {
      panicked := count[p] <= 0;
      if !panicked {
        Kfree(p);
      }
    }

    /**
    freerange, with the count each page is given before kfree as a parameter: the code gives
    0, and then boot panics if and only if the range holds a whole page.  With 1 every whole
    page of the range would join the free list.
    */
    method Freerange(start: nat, end: nat, first: int) returns (panicked: bool)
      requires forall p :: RoundUp(start) <= p && p + PGSIZE <= end && p % PGSIZE == 0 ==> p in count
      modifies this
      ensures panicked <==> first <= 0 && RoundUp(start) + PGSIZE <= end
      ensures first == 1 && old(free) == [] ==> free == PagesFrom(RoundUp(start), end, []) && AllZero(count, free)
    {
      var p := RoundUp(start);
      while p + PGSIZE <= end
        invariant p % PGSIZE == 0 && p >= RoundUp(start) && (first <= 0 ==> p == RoundUp(start))
        invariant count.Keys == old(count).Keys
        invariant first == 1 ==> PagesFrom(p, end, free) == PagesFrom(RoundUp(start), end, old(free))
        invariant first == 1 && old(free) == [] ==> AllZero(count, free)
      {
        count := count[p := first];
        panicked := KfreeOrPanic(p);
        if panicked {
          return;
        }
        p := p + PGSIZE;
      }
      panicked := false;
    }

    /** kalloc followed by a memset to 0. */
    method KallocZeroed() returns (p: int)
      requires Valid()
      modifies this
      ensures Valid() && Grew(old(State()), State())
      ensures p == -1 <==> old(free) == []
      ensures free == if p == -1 then [] else old(free)[1..]
      ensures p != -1 ==> p == old(free)[0] && p in kernel && p !in old(kernel) && pages[p] == Filled(0)
    {
      if free != [] {
        AllocOk(State());
      }
      p := Kalloc();
      if p != -1 {
        SetKernelPageOk(State(), p, Filled(0));
        pages := pages[p := Filled(0)];
      }
    }

    /**
    walk with alloc set, as far as memory is concerned: take one page for each of the
    `missing` page-table levels, and fail when kalloc does.  Pages already taken stay in
    the tree.
    */
    method Walk(missing: nat) returns (ok: bool)
      requires Valid()
      modifies this
      ensures Valid() && Grew(old(State()), State())
      ensures ok <==> |old(free)| >= missing
      ensures free == if ok then old(free)[missing..] else []
    {
      for i := 0 to missing
        invariant Valid() && Grew(old(State()), State())
        invariant i <= |old(free)| && free == old(free)[i..]
      {
        var p := KallocZeroed();
        if p == -1 {
          return false;
        }
      }
      return true;
    }

    /** kfree of a page nobody maps. */
    method FreePage(p: int)
      requires Valid() && p in kernel
      modifies this
      ensures Valid() && View(State()) == old(View(State())) && ptes == old(ptes)
      ensures free == [p] + old(free) && Lost(State()) == old(Lost(State()))
    {
      FreeKernelOk(State(), p);
      Kfree(p);
      kernel := kernel - {p};
    }

    /** The store of mappages, for a page just allocated. */
    method SetFirst(k: Key, pte: Pte)
      requires Valid() && k !in ptes && pte.ppn in kernel && !(pte.w && pte.cow)
      modifies this
      ensures Valid() && ptes == old(ptes)[k := pte] && free == old(free) && count == old(count)
      ensures View(State()) == old(View(State()))[k := See(old(State()), pte)]
    {
      MapNewOk(State(), k, pte);
      ptes := ptes[k := pte];
      kernel := kernel - {pte.ppn};
    }

    /** vmfault and one round of uvmalloc: map a zeroed page at k with the given permissions. */
    method MapZeroed(k: Key, w: bool, x: bool, missing: nat) returns (ok: bool)
      requires Valid() && k !in ptes
      modifies this
      ensures Valid()
      ensures ok <==> |old(free)| > missing
      ensures View(State()) ==
              if ok then old(View(State()))[k := Seen(Filled(0), w, true, x, true)] else old(View(State()))
      ensures ok ==> k in ptes && ptes == old(ptes)[k := Pte(ptes[k].ppn, true, w, x, true, false)]
      ensures ok ==> ptes[k].ppn in old(free) && free == old(free)[1 + missing..]
      ensures !ok ==> ptes == old(ptes)
      ensures Moved(old(State()), State(), {})
    {
      hide Inv, View, Uncounted, Moved;
      var mem := KallocZeroed();
      if mem == -1 {
        OnlyNew(old(State()), State());
        return false;
      }
      assert old(free) == [mem] + free;
      ok := Walk(missing);
      if ok {
        assert free == old(free)[1 + missing..];
        SetFirst(k, Pte(mem, true, w, x, true, false));
      } else {
        FreePage(mem);
      }
      OnlyNew(old(State()), State());
    }

    /** The body of uvmunmap for a present entry: kfree, then clear. */
    method UnmapOne(k: Key)
      requires Valid() && k in ptes
      modifies this
      ensures Valid() && ptes == old(ptes) - {k} && View(State()) == old(View(State())) - {k}
      ensures Lost(State()) == old(Lost(State()))
    {
      UnmapOk(State(), k);
      UnmapLost(State(), k);
      Kfree(ptes[k].ppn);
      ptes := ptes - {k};
    }

    /** One round of uvmunmap. */
    method UnmapStep(ghost view: map<Key, Seen>, space: int, v0: int, i: nat)
      requires Valid() && View(State()) == DropView(view, space, v0, i)
      modifies this
      ensures Valid() && View(State()) == DropView(view, space, v0, i + 1) && Lost(State()) == old(Lost(State()))
    {
      var k := (space, v0 + i);
      DropViewStep(view, space, v0, i);
      if k in ptes {
        UnmapOne(k);
      } else {
        assert k !in View(State());
      }
    }

    /** uvmunmap with do_free over n pages. */
    method Uvmunmap(space: int, v0: int, n: nat)
      requires Valid()
      modifies this
      ensures Valid() && View(State()) == DropView(old(View(State())), space, v0, n)
      ensures Lost(State()) == old(Lost(State()))
    {
      ghost var view := View(State());
      DropViewNone(view, space, v0);
      for i := 0 to n
        invariant Valid() && View(State()) == DropView(view, space, v0, i) && Lost(State()) == old(Lost(State()))
      {
        UnmapStep(view, space, v0, i);
      }
    }

    /** Clear PTE_W and set PTE_COW in the parent's entry. */
    method MarkParent(k: Key)
      requires Valid() && k in ptes && ptes[k].w
      modifies this`ptes
      ensures Valid() && View(State()) == old(View(State()))
      ensures ptes == old(ptes)[k := old(ptes)[k].(w := false, cow := true)]
    {
      MarkSharedOk(State(), k);
      ptes := ptes[k := ptes[k].(w := false, cow := true)];
    }

    /** mappages into the child, then krefinc. */
    method ShareWith(parent: Key, child: Key)
      requires Valid() && parent in ptes && child !in ptes && !ptes[parent].w
      modifies this`ptes, this`count
      ensures Valid() && View(State()) == old(View(State()))[child := old(View(State()))[parent]]
      ensures ptes == old(ptes)[child := old(ptes)[parent]] && Lost(State()) == old(Lost(State()))
    {
      hide Inv, View, Uncounted;
      ShareOk(State(), parent, child);
      ShareLost(State(), parent, child);
      ptes := ptes[child := ptes[parent]];
      Krefinc(ptes[parent].ppn);
    }

    /** One page of uvmcopy; false when walk cannot get a page-table page. */
    method CopyPage(parent: Key, child: Key, missing: nat) returns (ok: bool)
      requires Valid() && parent in ptes && child !in ptes
      modifies this
      ensures Valid()
      ensures ok <==> |old(free)| >= missing
      ensures ok ==> |free| == |old(free)| - missing
      ensures View(State()) ==
              if ok then old(View(State()))[child := old(View(State()))[parent]] else old(View(State()))
      ensures ok ==> var pte := Shared(old(ptes)[parent]); ptes == old(ptes)[parent := pte][child := pte]
      ensures Lost(State()) == old(Lost(State()))
    {
      hide Inv, View, Uncounted;
      CowNotWritable(State());
      if !ptes[parent].cow && ptes[parent].w {
        MarkParent(parent);
      }
      ok := Walk(missing);
      if ok {
        ShareWith(parent, child);
      }
    }

    /** One round of uvmcopy: absent and non-user pages are skipped. */
    method CopyStep(ghost vm: Vm, parent: int, child: int, v: nat, missing: nat) returns (ok: bool)
      requires Valid() && Inv(vm) && Forked(vm, parent, child, v)
      requires parent != child && (child, v) !in vm.ptes
      modifies this
      ensures Valid() && View(State()) == ForkView(View(vm), parent, child, if ok then v + 1 else v)
      ensures ok ==> ptes == ForkPtes(vm.ptes, parent, child, v + 1)
      ensures Lost(State()) == old(Lost(State()))
      ensures var need := if (parent, v) in vm.ptes && vm.ptes[(parent, v)].u then missing else 0;
              (ok <==> |old(free)| >= need) && (ok ==> |free| == |old(free)| - need)
    {
      var from, to := (parent, v), (child, v);
      ForkViewStep(View(vm), parent, child, v);
      ForkPtesStep(vm.ptes, parent, child, v);
      if from in ptes && ptes[from].u {
        ok := CopyPage(from, to, missing);
      } else {
        ok := true;
      }
    }

    /** The err: exit of uvmcopy. */
    method UndoCopy(ghost view: map<Key, Seen>, parent: int, child: int, v: nat)
      requires Valid() && View(State()) == ForkView(view, parent, child, v)
      requires parent != child && forall i :: 0 <= i < v ==> (child, i) !in view
      modifies this
      ensures Valid() && View(State()) == view && Lost(State()) == old(Lost(State()))
    {
      Uvmunmap(child, 0, v);
      ForkViewUndo(view, parent, child, v);
    }

    /** The loop of uvmcopy, up to the first page that could not be mapped. */
    method CopyPages(parent: int, child: int, n: nat, missing: seq<nat>) returns (v: nat)
      requires Valid() && parent != child && |missing| == n
      requires forall i :: 0 <= i < n ==> (child, i) !in ptes
      modifies this
      ensures v <= n && Valid() && View(State()) == ForkView(old(View(State())), parent, child, v)
      ensures v == n <==> |old(free)| >= TablesNeeded(old(ptes), parent, missing, n)
      ensures v == n ==> ptes == ForkPtes(old(ptes), parent, child, n)
      ensures v == n ==> |free| == |old(free)| - TablesNeeded(old(ptes), parent, missing, n)
      ensures Lost(State()) == old(Lost(State()))
    {
      hide Inv, View, Lost, ForkView, ForkPtes;
      ghost var vm := State();
      ForkViewNone(View(vm), parent, child);
      ForkPtesNone(vm.ptes, parent, child);
      v := 0;
      var ok := true;
      while v < n && ok
        invariant v <= n && Valid() && View(State()) == ForkView(View(vm), parent, child, v)
        invariant ok ==> ptes == ForkPtes(vm.ptes, parent, child, v)
        invariant Lost(State()) == Lost(vm)
        invariant ok ==> |free| == |vm.free| - TablesNeeded(vm.ptes, parent, missing, v)
        invariant !ok ==> v < n && |vm.free| < TablesNeeded(vm.ptes, parent, missing, v + 1)
        decreases n - v, ok
      {
        ok := CopyStep(vm, parent, child, v, missing[v]);
        if ok {
          v := v + 1;
        }
      }
      if v < n {
        TablesNeededGrows(vm.ptes, parent, missing, v + 1, n);
      }
    }

    /**
    uvmcopy.  On success every space sees what it would see had fork copied each user page
    of the parent, while in fact parent and child share each of them, not writable; on
    failure every space sees what it saw before.
    */
    method Uvmcopy(parent: int, child: int, n: nat, missing: seq<nat>) returns (ok: bool)
      requires Valid() && parent != child && |missing| == n
      requires forall v :: 0 <= v < n ==> (child, v) !in ptes
      modifies this
      ensures Valid()
      ensures ok <==> |old(free)| >= TablesNeeded(old(ptes), parent, missing, n)
      ensures View(State()) == if ok then ForkView(old(View(State())), parent, child, n) else old(View(State()))
      ensures ok ==> ptes == ForkPtes(old(ptes), parent, child, n)
      ensures ok ==> |free| == |old(free)| - TablesNeeded(old(ptes), parent, missing, n)
      ensures Lost(State()) == old(Lost(State()))
    {
      ghost var view := View(State());
      var v := CopyPages(parent, child, n, missing);
      if v < n {
        UndoCopy(view, parent, child, v);
        return false;
      }
      return true;
    }

    /** memmove to the new page, repoint the entry, krefdec the old page. */
    method MoveEntry(k: Key, mem: int)
      requires Valid() && k in ptes && ptes[k].cow && mem in kernel
      modifies this
      ensures Valid() && View(State()) == old(View(State()))
      ensures old(ptes)[k].ppn in old(count) && old(ptes)[k].ppn in old(pages)
      ensures State() == Privatise(old(State()), k, mem)
    {
      PrivatiseOk(State(), k, mem);
      var pa := ptes[k].ppn;
      pages := pages[mem := pages[pa]];
      ptes := ptes[k := ptes[k].(ppn := mem, w := true, cow := false)];
      var c := Krefdec(pa);
      kernel := kernel - {mem};
    }

    /**
    cowfault: nobody sees a difference; on success the entry is writable.  The old page is
    dropped by krefdec and not by kfree, so it is lost exactly when its count was 1.
    */
    method Cowfault(k: Key) returns (ok: bool)
      requires Valid()
      modifies this
      ensures Valid() && View(State()) == old(View(State()))
      ensures ok <==> k in old(ptes) && old(ptes)[k].cow && old(free) != []
      ensures ok ==> old(ptes)[k].ppn in old(count)
      ensures ok ==> var pa := old(ptes)[k].ppn;
                     Lost(State()) == old(Lost(State())) + if old(count)[pa] == 1 then {pa} else {}
      ensures !ok ==> State() == old(State())
      ensures ok ==> free == old(free)[1..]
      ensures ok ==> ptes == old(ptes)[k := old(ptes)[k].(ppn := old(free)[0], w := true, cow := false)]
      ensures Moved(old(State()), State(), if ok then {k} else {})
    {
      AbandonsNothing(State());
      if k !in ptes || !ptes[k].cow {
        return false;
      }
      var mem := Kalloc();
      if mem == -1 {
        return false;
      }
      MoveEntry(k, mem);
      FaultMoves(old(State()), k);
      AbandonedOne(old(State()), k);
      return true;
    }

    /** memmove into the page of a writable entry. */
    method WritePage(k: Key, off: nat, bytes: seq<int>)
      requires Valid() && k in ptes && ptes[k].w && off + |bytes| <= PGSIZE
      modifies this`pages
      ensures Valid()
      ensures |old(View(State()))[k].data| == PGSIZE
      ensures var view := old(View(State()));
              View(State()) == view[k := view[k].(data := Patched(view[k].data, off, bytes))]
    {
      var p := ptes[k].ppn;
      var page := Patched(pages[p], off, bytes);
      StoreOk(State(), k, page);
      pages := pages[p := page];
    }

    /**
    A user store of some bytes within one page: the hardware checks the entry, and a store
    to a copy-on-write page runs cowfault first.  Only the storing space sees it.
    */
    method Store(k: Key, off: nat, bytes: seq<int>) returns (ok: bool)
      requires Valid() && off + |bytes| <= PGSIZE
      modifies this
      ensures Valid()
      ensures ok <==> k in old(ptes) && old(ptes)[k].u && (old(ptes)[k].w || (old(ptes)[k].cow && old(free) != []))
      ensures !ok ==> View(State()) == old(View(State()))
      ensures ok ==> |old(View(State()))[k].data| == PGSIZE
      ensures ok ==> var view := old(View(State()));
                     View(State()) == view[k := view[k].(data := Patched(view[k].data, off, bytes))]
      ensures Moved(old(State()), State(), if ok && old(ptes)[k].cow then {k} else {})
    {
      hide Inv, Lost, Moved;
      OnlyNew(State(), State());
      CowNotWritable(State());
      if k !in ptes || !ptes[k].u {
        return false;
      }
      if ptes[k].cow {
        ok := Cowfault(k);
        if !ok {
          return;
        }
        MovedEntry(old(State()), State(), k);
      }
      if !ptes[k].w {
        return false;
      }
      ghost var now := State();
      WritePage(k, off, bytes);
      MovedThenStored(old(State()), now, State(), if old(ptes)[k].cow then {k} else {});
      return true;
    }

    /** vmfault: a page below sz that is not mapped yet becomes a page of zeros. */
    method Vmfault(space: int, va: nat, sz: nat, missing: nat) returns (ok: bool)
      requires Valid()
      modifies this
      ensures Valid()
      ensures ok <==> va < sz && (space, va / PGSIZE) !in old(ptes) && |old(free)| > missing
      ensures var k := (space, va / PGSIZE);
              View(State()) ==
              if ok then old(View(State()))[k := Seen(Filled(0), true, true, false, true)] else old(View(State()))
      ensures ok ==> (space, va / PGSIZE) in ptes && ptes[(space, va / PGSIZE)].w && !ptes[(space, va / PGSIZE)].cow
      ensures ok ==> |free| == |old(free)| - 1 - missing
      ensures Moved(old(State()), State(), {})
    {
      AbandonsNothing(State());
      var k := (space, va / PGSIZE);
      if va >= sz || k in ptes {
        return false;
      }
      ok := MapZeroed(k, true, false, missing);
    }

    /** The page at va is made present if it lawfully can be, as copyout and copyin begin. */
    method Touch(space: int, va: nat, sz: nat, missing: nat) returns (ok: bool)
      requires Valid()
      modifies this
      ensures Valid() && SameBytes(old(View(State())), View(State()))
      ensures var k := (space, va / PGSIZE);
              && (ok <==>
                    Lawful(old(View(State())), k, sz, false) && |old(free)| >= PageNeed(old(ptes), k, missing, false))
              && (ok ==> k in ptes && ptes[k].u && |free| == |old(free)| - PageNeed(old(ptes), k, missing, false))
              && (ok && k !in old(ptes) ==> ptes[k].w && !ptes[k].cow)
              && (k in old(ptes) ==> State() == old(State()))
      ensures ok ==> Opened(old(View(State())), View(State()), space, va / PGSIZE, 1, sz, false)
      ensures !ok ==> View(State()) == old(View(State()))
      ensures Moved(old(State()), State(), {})
    {
      hide Inv, Lost, Moved, Opened, SameBytes;
      OnlyNew(State(), State());
      ghost var view := View(State());
      BytesOfSelf(view);
      var k := (space, va / PGSIZE);
      if va / PGSIZE * PGSIZE >= MAXVA {
        return false;
      }
      if k in ptes {
        if ptes[k].u {
          OpenAlready(view, k, sz);
        }
        return ptes[k].u;
      }
      ok := Vmfault(space, va / PGSIZE * PGSIZE, sz, missing);
      if ok {
        ZeroPageReadsSame(view, k);
        OpenSupplied(view, k, sz);
        assert View(State())[k].u;
      }
    }

    /** The memmove of copyout. */
    method WriteBytes(space: int, va: nat, bytes: seq<int>)
      requires Valid() && va % PGSIZE + |bytes| <= PGSIZE
      requires (space, va / PGSIZE) in ptes && ptes[(space, va / PGSIZE)].w
      modifies this`pages
      ensures Valid() && SamePages(old(View(State())), View(State()), (space, va / PGSIZE))
      ensures Wrote(old(View(State())), View(State()), space, va, bytes)
    {
      hide Inv, View, Wrote;
      var k := (space, va / PGSIZE);
      SeenAs(State(), k);
      ghost var view := View(State());
      WritePage(k, va % PGSIZE, bytes);
      WrotePage(view, k, va % PGSIZE, bytes);
    }

    /** The rest of a copyout round: cowfault if need be, the PTE_W check, the memmove. */
    method WriteMapped(space: int, va: nat, bytes: seq<int>) returns (ok: bool)
      requires Valid() && va % PGSIZE + |bytes| <= PGSIZE && (space, va / PGSIZE) in ptes
      modifies this
      ensures Valid() && SamePages(old(View(State())), View(State()), (space, va / PGSIZE))
      ensures var k := (space, va / PGSIZE);
              && (ok <==> old(ptes)[k].w || (old(ptes)[k].cow && old(free) != []))
              && (ok ==> |free| == |old(free)| - if old(ptes)[k].cow then 1 else 0)
              && Moved(old(State()), State(), if ok && old(ptes)[k].cow then {k} else {})
      ensures !ok ==> View(State()) == old(View(State()))
      ensures ok ==> Wrote(old(View(State())), View(State()), space, va, bytes)
    {
      hide Inv, View, Lost, Moved, Wrote, SamePages;
      OnlyNew(State(), State());
      CowNotWritable(State());
      SameAsSelf(View(State()), (space, va / PGSIZE));
      var k := (space, va / PGSIZE);
      if ptes[k].cow {
        ok := Cowfault(k);
        if !ok {
          return;
        }
        MovedEntry(old(State()), State(), k);
      }
      if !ptes[k].w {
        return false;
      }
      ghost var now := State();
      WriteBytes(space, va, bytes);
      MovedThenStored(old(State()), now, State(), if old(ptes)[k].cow then {k} else {});
      return true;
    }

    /** One round of copyout: the bytes that fall in one page. */
    method CopyoutPage(space: int, va: nat, bytes: seq<int>, sz: nat, missing: nat) returns (ok: bool)
      requires Valid() && va % PGSIZE + |bytes| <= PGSIZE
      modifies this
      ensures Valid()
      ensures var k := (space, va / PGSIZE);
              && (ok <==>
                    Lawful(old(View(State())), k, sz, true) && |old(free)| >= PageNeed(old(ptes), k, missing, true))
              && (ok ==> |free| == |old(free)| - PageNeed(old(ptes), k, missing, true))
              && Moved(old(State()), State(), if ok && k in old(ptes) && old(ptes)[k].cow then {k} else {})
      ensures ok ==> Opened(old(View(State())), View(State()), space, va / PGSIZE, 1, sz, true)
      ensures ok ==> Wrote(old(View(State())), View(State()), space, va, bytes)
      ensures !ok ==> View(State()) == old(View(State()))
    {
      hide Inv, View, Lost, Moved, Opened, SameBytes, Wrote, SamePages;
      OnlyNew(State(), State());
      ghost var k, vm := (space, va / PGSIZE), State();
      LawfulTo(vm, k, sz);
      if va / PGSIZE * PGSIZE >= MAXVA {
        return false;
      }
      ok := Touch(space, va, sz, missing);
      if ok {
        ghost var mapped := State();
        ok := WriteMapped(space, va, bytes);
        ghost var f := if ok && mapped.ptes[k].cow then {k} else {};
        MovedTwice(vm, mapped, State(), {}, f);
        assert {} + f == f;
        if ok {
          SeenAs(mapped, k);
          WroteAfterNothing(View(vm), View(mapped), View(State()), space, va, bytes);
          OpenedThenWritten(View(vm), View(mapped), View(State()), k, sz);
        }
      }
    }

    /**
    copyout.  It succeeds exactly when every page of the range may be written or supplied
    and memory suffices; whatever happens, the pages of the first `done` bytes are there and
    hold them, and no other page of any space has come, gone or changed.
    */
    method Copyout(space: int, dstva: nat, src: seq<int>, sz: nat, missing: seq<nat>)
      returns (ok: bool, ghost done: nat)
      requires Valid() && |missing| >= PageCount(dstva, |src|)
      modifies this
      ensures Valid()
      ensures ok <==> Affordable(old(State()), space, dstva, |src|, sz, missing, true)
      ensures RefStep(old(View(State())), CopyOut(space, dstva, src, sz), ok, done, View(State()))
      ensures Moved(old(State()), State(), CowKeys(old(ptes), space, dstva / PGSIZE, PageCount(dstva, done)))
    {
      hide Inv, View, Lost, Moved, Opened, Wrote, CowKeys, PageNeed, Lawful, PageCount, Affordable;
      ghost var vm, v0 := State(), dstva / PGSIZE;
      CopyStarts(vm, space, v0, sz, true);
      NoPages(dstva);
      WroteNothing(View(vm), space, dstva);
      var i, j := 0, 0;
      while i < |src|
        invariant Valid() && i <= |src| && AtPage(dstva, |src|, i, j)
        invariant Wrote(View(vm), View(State()), space, dstva, src[..i])
        invariant Opened(View(vm), View(State()), space, v0, j, sz, true)
        invariant Moved(vm, State(), CowKeys(vm.ptes, space, v0, j))
        invariant |free| == |vm.free| - Need(vm.ptes, space, v0, missing, j, true)
      {
        var va := dstva + i;
        var n := PGSIZE - va % PGSIZE;
        if n > |src| - i {
          n := |src| - i;
        }
        NextPage(dstva, |src|, i, j, n);
        ghost var now := State();
        SameBefore(vm, now, CowKeys(vm.ptes, space, v0, j), space, v0, j, sz, true, missing[j]);
        ok := CopyoutPage(space, va, src[i..i + n], sz, missing[j]);
        if !ok {
          MovedTwice(vm, now, State(), CowKeys(vm.ptes, space, v0, j), {});
          assert CowKeys(vm.ptes, space, v0, j) + {} == CowKeys(vm.ptes, space, v0, j);
          NotAffordable(vm, space, dstva, |src|, sz, missing, j, true);
          return false, i;
        }
        OpenedMore(View(vm), View(now), View(State()), space, v0, j, sz, true);
        MovedMore(vm, now, State(), space, v0, j);
        WroteMore(View(vm), View(now), View(State()), space, dstva, src[..i], src[i..i + n]);
        assert src[..i] + src[i..i + n] == src[..i + n];
        i, j := i + n, j + 1;
      }
      assert src[..i] == src;
      CopyEnds(vm, State(), space, dstva, |src|, sz, missing, true);
      return true, |src|;
    }

    /** memmove out of a mapped page. */
    method ReadChunk(space: int, va: nat, n: nat) returns (chunk: seq<int>)
      requires Valid() && va % PGSIZE + n <= PGSIZE && (space, va / PGSIZE) in ptes
      ensures |chunk| == n && Reads(View(State()), space, va, chunk)
    {
      var k, off := (space, va / PGSIZE), va % PGSIZE;
      chunk := pages[ptes[k].ppn][off..off + n];
      ReadPage(View(State()), k, off, n);
    }

    /**
    copyin.  It succeeds exactly when every page of the range may be read or supplied and
    memory suffices, and then returns the bytes the space reads there; no byte any space
    reads has changed, and no other page has come or gone.
    */
    method Copyin(space: int, srcva: nat, len: nat, sz: nat, missing: seq<nat>)
      returns (ok: bool, dst: seq<int>)
      requires Valid() && |missing| >= PageCount(srcva, len)
      modifies this
      ensures Valid() && |dst| <= len && SameBytes(old(View(State())), View(State()))
      ensures ok <==> Affordable(old(State()), space, srcva, len, sz, missing, false)
      ensures Opened(old(View(State())), View(State()), space, srcva / PGSIZE, PageCount(srcva, |dst|), sz, false)
      ensures Reads(old(View(State())), space, srcva, dst) && (ok ==> |dst| == len)
      ensures Moved(old(State()), State(), {})
    {
      hide Inv, View, Lost, Moved, Opened, PageNeed, Lawful, PageCount, Affordable;
      ghost var vm, v0 := State(), srcva / PGSIZE;
      CopyStarts(vm, space, v0, sz, false);
      NoPages(srcva);
      dst := [];
      var i, j := 0, 0;
      while i < len
        invariant Valid() && i <= len && AtPage(srcva, len, i, j) && |dst| == i
        invariant SameBytes(View(vm), View(State())) && Reads(View(vm), space, srcva, dst)
        invariant Opened(View(vm), View(State()), space, v0, j, sz, false)
        invariant Moved(vm, State(), {})
        invariant |free| == |vm.free| - Need(vm.ptes, space, v0, missing, j, false)
      {
        var va := srcva + i;
        var n := PGSIZE - va % PGSIZE;
        if n > len - i {
          n := len - i;
        }
        NextPage(srcva, len, i, j, n);
        ghost var now := State();
        SameBefore(vm, now, {}, space, v0, j, sz, false, missing[j]);
        ok := Touch(space, va, sz, missing[j]);
        ghost var none: set<Key> := {};
        MovedTwice(vm, now, State(), none, none);
        assert none + none == none;
        assert SameBytes(View(vm), View(State()));
        if !ok {
          NotAffordable(vm, space, srcva, len, sz, missing, j, false);
          return;
        }
        OpenedMore(View(vm), View(now), View(State()), space, v0, j, sz, false);
        var chunk := ReadChunk(space, va, n);
        ReadsMore(View(vm), View(State()), space, srcva, dst, va, chunk);
        dst := dst + chunk;
        i, j := i + n, j + 1;
      }
      CopyEnds(vm, State(), space, srcva, len, sz, missing, false);
      ok := true;
    }

    /** One operation on behalf of some process; kfork and mappages insist on unmapped targets. */
    method Do(op: Op, missing: seq<nat>) returns (ok: bool, ghost done: nat)
      requires Valid() && |missing| == Walks(op)
      modifies this
      ensures Valid() && CowStep(old(State()), op, ok, done, State())
    {
      hide Inv, View, Uncounted, Abandoned, Repointed, Opened, Wrote, ForkView, ForkPtes, DropView;
      AbandonsNothing(State());
      done := 0;
      match op {
        case Fork(parent, child, n) =>
          if parent == child || exists v :: 0 <= v < n && (child, v) in ptes {
            return false, 0;
          }
          ok := Uvmcopy(parent, child, n, missing);
        case Grow(k, w, x) =>
          if k in ptes {
            return false, 0;
          }
          ok := MapZeroed(k, w, x, missing[0]);
        case Fault(k) =>
          ok := Cowfault(k);
        case UserStore(k, off, bytes) =>
          if off + |bytes| > PGSIZE {
            return false, 0;
          }
          if k in ptes {
            SeenAs(State(), k);
          }
          ok := Store(k, off, bytes);
        case CopyOut(space, va, src, sz) =>
          ok, done := Copyout(space, va, src, sz, missing);
        case Shrink(space, v0, n) =>
          Uvmunmap(space, v0, n);
          ok := true;
      }
    }

    /**
    Copy-on-write refines eager copying over whole runs: any list of operations, on any
    number of address spaces and with any failures, moves the views as the reference
    machine says, the reference counts stay exact throughout, and every page lost is lost to
    a write fault at its last mapping.
    */
    method Execute(ops: seq<Op>, missing: seq<seq<nat>>)
      returns (oks: seq<bool>, ghost dones: seq<nat>, ghost vms: seq<Vm>)
      requires Valid() && |missing| == |ops|
      requires forall i :: 0 <= i < |ops| ==> |missing[i]| == Walks(ops[i])
      modifies this
      ensures Valid() && CowRun(vms, ops, oks, dones)
      ensures vms[0] == old(State()) && vms[|ops|] == State()
    {
      oks, dones, vms := [], [], [State()];
      for i := 0 to |ops|
        invariant Valid() && CowRun(vms, ops[..i], oks, dones)
        invariant vms[0] == old(State()) && vms[i] == State()
      {
        ghost var done;
        var ok;
        ok, done := Do(ops[i], missing[i]);
        CowRunSnoc(vms, ops[..i], oks, dones, ops[i], ok, done, State());
        assert ops[..i + 1] == ops[..i] + [ops[i]];
        oks, dones, vms := oks + [ok], dones + [done], vms + [State()];
      }
      assert ops[..|ops|] == ops;
    }
  }

  // ---------------------------------------------------------------------------------
  // Bytes and pages

  lemma ZeroPageReadsSame(view: map<Key, Seen>, k: Key)
    requires k !in view
    ensures SameBytes(view, view[k := Seen(Filled(0), true, true, false, true)])
  {
  }

  lemma WrotePage(view: map<Key, Seen>, k: Key, off: nat, bytes: seq<int>)
    requires k in view && |view[k].data| == PGSIZE && off + |bytes| <= PGSIZE && k.1 >= 0
    ensures Wrote(view, view[k := view[k].(data := Patched(view[k].data, off, bytes))], k.0, k.1 * PGSIZE + off, bytes)
  {
    var view' := view[k := view[k].(data := Patched(view[k].data, off, bytes))];
    forall t, a: nat
      ensures Byte(view', t, a) ==
              if t == k.0 && k.1 * PGSIZE + off <= a < k.1 * PGSIZE + off + |bytes|
              then bytes[a - (k.1 * PGSIZE + off)] else Byte(view, t, a)
    {
      assert a == a / PGSIZE * PGSIZE + a % PGSIZE;
    }
  }

  lemma WroteNothing(view: map<Key, Seen>, space: int, va: nat)
    ensures Wrote(view, view, space, va, [])
  {
  }

  lemma WroteAfterNothing(a: map<Key, Seen>, b: map<Key, Seen>, c: map<Key, Seen>, space: int, va: nat, bytes: seq<int>)
    requires SameBytes(a, b) && Wrote(b, c, space, va, bytes)
    ensures Wrote(a, c, space, va, bytes)
  {
  }

  lemma WroteMore(a: map<Key, Seen>, b: map<Key, Seen>, c: map<Key, Seen>, space: int, va: nat, xs: seq<int>,
      ys: seq<int>)
    requires Wrote(a, b, space, va, xs) && Wrote(b, c, space, va + |xs|, ys)
    ensures Wrote(a, c, space, va, xs + ys)
  {
  }

  lemma ByteInPage(view: map<Key, Seen>, k: Key, off: nat)
    requires k in view && |view[k].data| == PGSIZE && off < PGSIZE && k.1 >= 0
    ensures Byte(view, k.0, k.1 * PGSIZE + off) == view[k].data[off]
  {
    var a := k.1 * PGSIZE + off;
    assert a / PGSIZE == k.1 && a % PGSIZE == off;
    assert (k.0, a / PGSIZE) == k;
  }

  lemma ReadPage(view: map<Key, Seen>, k: Key, off: nat, n: nat)
    requires k in view && |view[k].data| == PGSIZE && off + n <= PGSIZE && k.1 >= 0
    ensures Reads(view, k.0, k.1 * PGSIZE + off, view[k].data[off..off + n])
  {
    var there := view[k].data[off..off + n];
    forall i | 0 <= i < |there|
      ensures there[i] == Byte(view, k.0, k.1 * PGSIZE + off + i)
    {
      ByteInPage(view, k, off + i);
    }
  }

  lemma ReadsMore(view: map<Key, Seen>, view': map<Key, Seen>, space: int, va: nat, xs: seq<int>, at: nat, ys: seq<int>)
    requires SameBytes(view, view') && at == va + |xs| && Reads(view, space, va, xs) && Reads(view', space, at, ys)
    ensures Reads(view, space, va, xs + ys)
  {
    forall i | 0 <= i < |xs + ys|
      ensures (xs + ys)[i] == Byte(view, space, va + i)
    {
      if i >= |xs| {
        assert ys[i - |xs|] == Byte(view', space, at + (i - |xs|));
      }
    }
  }

  // ---------------------------------------------------------------------------------
  // Page by page

  /** A copy of len bytes from va on has done i of them, filling j pages. */
  predicate AtPage(va: nat, len: nat, i: nat, j: nat) {
    i <= len && j == PageCount(va, i) <= PageCount(va, len) && (i == 0 || i == len || (va + i) % PGSIZE == 0)
  }

  lemma NextPage(va: nat, len: nat, i: nat, j: nat, n: nat)
    requires AtPage(va, len, i, j) && i < len
    requires n == if PGSIZE - (va + i) % PGSIZE > len - i then len - i else PGSIZE - (va + i) % PGSIZE
    ensures n > 0 && (va + i) / PGSIZE == va / PGSIZE + j && AtPage(va, len, i + n, j + 1) && j < PageCount(va, len)
  {
  }

  lemma AbandonsNothing(vm: Vm)
    ensures Abandoned(vm, {}) == {}
  {
  }

  /** Nothing moved: entries are kept or new, and pages come off the free list. */
  lemma OnlyNew(a: Vm, b: Vm)
    requires b.phys == a.phys && Lost(b) == Lost(a)
    requires forall k :: k in a.ptes ==> k in b.ptes && b.ptes[k] == a.ptes[k]
    requires forall k :: k in b.ptes && k !in a.ptes ==> b.ptes[k].ppn in a.free
    requires forall p :: p in b.free ==> p in a.free
    ensures Moved(a, b, {})
  {
    AbandonsNothing(a);
  }

  lemma MovedEntry(a: Vm, b: Vm, k: Key)
    requires Moved(a, b, {k})
    ensures k in b.ptes && b.ptes[k].w && !b.ptes[k].cow && k in a.ptes && b.ptes[k].u == a.ptes[k].u
  {
  }

  lemma MovedThenStored(a: Vm, b: Vm, c: Vm, f: set<Key>)
    requires Moved(a, b, f) && c == b.(pages := c.pages)
    ensures Moved(a, c, f)
  {
  }

  lemma CowNotWritable(vm: Vm)
    requires Inv(vm)
    ensures forall k :: k in vm.ptes ==> !(vm.ptes[k].w && vm.ptes[k].cow)
  {
  }

  /** What the view says of a page, in terms of its entry. */
  lemma LawfulTo(vm: Vm, k: Key, sz: nat)
    requires Inv(vm)
    ensures Lawful(View(vm), k, sz, true) <==>
            Lawful(View(vm), k, sz, false) && (k in vm.ptes ==> vm.ptes[k].w || vm.ptes[k].cow)
    ensures Lawful(View(vm), k, sz, false) && k in vm.ptes ==> vm.ptes[k].u
    ensures k in vm.ptes <==> k in View(vm)
    ensures k in vm.ptes ==> !(vm.ptes[k].w && vm.ptes[k].cow)
  {
  }

  lemma SeenAs(vm: Vm, k: Key)
    requires Inv(vm) && k in vm.ptes
    ensures k in View(vm) && View(vm)[k].u == vm.ptes[k].u && View(vm)[k].writable == (vm.ptes[k].w || vm.ptes[k].cow)
  {
  }

  lemma SameAsSelf(view: map<Key, Seen>, k: Key)
    ensures SamePages(view, view, k)
  {
  }

  lemma NoPages(va: nat)
    ensures PageCount(va, 0) == 0
  {
  }

  lemma CopyStarts(vm: Vm, space: int, v0: nat, sz: nat, write: bool)
    requires Inv(vm)
    ensures CowKeys(vm.ptes, space, v0, 0) == {} && Moved(vm, vm, {})
    ensures Opened(View(vm), View(vm), space, v0, 0, sz, write)
    ensures SameBytes(View(vm), View(vm))
  {
    AbandonsNothing(vm);
  }

  lemma CopyEnds(
    vm: Vm, now: Vm, space: int, va: nat, len: nat, sz: nat, missing: seq<nat>, write: bool)
    requires Inv(vm) && Inv(now) && PageCount(va, len) <= |missing|
    requires Opened(View(vm), View(now), space, va / PGSIZE, PageCount(va, len), sz, write)
    requires |now.free| == |vm.free| - Need(vm.ptes, space, va / PGSIZE, missing, PageCount(va, len), write)
    ensures Affordable(vm, space, va, len, sz, missing, write)
  {
  }

  /** The pages not reached yet are as they were when the copy began. */
  lemma SameBefore(
    vm: Vm, now: Vm, f: set<Key>, space: int, v0: nat, j: nat, sz: nat, write: bool, missing: nat)
    requires Inv(vm) && Inv(now) && Opened(View(vm), View(now), space, v0, j, sz, write)
    requires f <= CowKeys(vm.ptes, space, v0, j) && Moved(vm, now, f)
    ensures var k := (space, v0 + j);
            && (Lawful(View(now), k, sz, write) <==> Lawful(View(vm), k, sz, write))
            && PageNeed(now.ptes, k, missing, write) == PageNeed(vm.ptes, k, missing, write)
            && (k in now.ptes <==> k in vm.ptes) && (k in vm.ptes ==> now.ptes[k] == vm.ptes[k])
  {
    var k := (space, v0 + j);
    assert k in now.ptes <==> k in View(now);
    assert k in vm.ptes <==> k in View(vm);
  }

  lemma NotAffordable(vm: Vm, space: int, va: nat, len: nat, sz: nat, missing: seq<nat>, j: nat, write: bool)
    requires Inv(vm) && j < PageCount(va, len) <= |missing|
    requires var k := (space, va / PGSIZE + j);
             !Lawful(View(vm), k, sz, write) ||
             |vm.free| < Need(vm.ptes, space, va / PGSIZE, missing, j, write) + PageNeed(vm.ptes, k, missing[j], write)
    ensures !Affordable(vm, space, va, len, sz, missing, write)
  {
    var k := (space, va / PGSIZE + j);
    assert Within(k, space, va / PGSIZE, PageCount(va, len));
    NeedGrows(vm.ptes, space, va / PGSIZE, missing, j + 1, PageCount(va, len), write);
  }

  lemma OpenedMore(
    a: map<Key, Seen>, b: map<Key, Seen>, c: map<Key, Seen>, space: int, v0: nat, j: nat, sz: nat, write: bool)
    requires Opened(a, b, space, v0, j, sz, write) && Opened(b, c, space, v0 + j, 1, sz, write)
    ensures Opened(a, c, space, v0, j + 1, sz, write)
  {
    assert forall k :: Within(k, space, v0, j + 1) <==> Within(k, space, v0, j) || Within(k, space, v0 + j, 1);
    assert forall k :: !(Within(k, space, v0, j) && Within(k, space, v0 + j, 1));
  }

  lemma BytesOfSelf(view: map<Key, Seen>)
    ensures SameBytes(view, view)
  {
  }

  lemma OnePage(k: Key)
    requires k.1 >= 0
    ensures forall j :: Within(j, k.0, k.1, 1) <==> j == k
  {
    forall j
      ensures Within(j, k.0, k.1, 1) <==> j == k
    {
      assert j == (j.0, j.1);
    }
  }

  lemma OpenAlready(view: map<Key, Seen>, k: Key, sz: nat)
    requires k.1 >= 0 && k in view && Lawful(view, k, sz, false)
    ensures Opened(view, view, k.0, k.1, 1, sz, false)
  {
    OnePage(k);
  }

  lemma OpenSupplied(view: map<Key, Seen>, k: Key, sz: nat)
    requires k.1 >= 0 && k !in view && Lawful(view, k, sz, false)
    ensures Opened(view, view[k := Seen(Filled(0), true, true, false, true)], k.0, k.1, 1, sz, false)
  {
    OnePage(k);
  }

  lemma OpenedThenWritten(a: map<Key, Seen>, b: map<Key, Seen>, c: map<Key, Seen>, k: Key, sz: nat)
    requires k.1 >= 0 && Opened(a, b, k.0, k.1, 1, sz, false) && SamePages(b, c, k) && b[k].writable
    ensures Opened(a, c, k.0, k.1, 1, sz, true)
  {
    OnePage(k);
  }

  lemma MovedMore(vm: Vm, now: Vm, next: Vm, space: int, v0: nat, j: nat)
    requires Inv(vm) && Moved(vm, now, CowKeys(vm.ptes, space, v0, j))
    requires var k := (space, v0 + j);
             && Moved(now, next, if k in vm.ptes && vm.ptes[k].cow then {k} else {})
    ensures Moved(vm, next, CowKeys(vm.ptes, space, v0, j + 1))
  {
    hide Inv, Moved;
    var k := (space, v0 + j);
    var f, g := CowKeys(vm.ptes, space, v0, j), if k in vm.ptes && vm.ptes[k].cow then {k} else {};
    MovedTwice(vm, now, next, f, g);
    forall i
      ensures Within(i, space, v0, j + 1) <==> Within(i, space, v0, j) || i == k
    {
      assert i == (i.0, i.1);
    }
    assert CowKeys(vm.ptes, space, v0, j + 1) == f + g;
  }

  /** The reference step of copyout leaves nothing open: two outcomes with the same `done` agree. */
  lemma CopyOutDetermined(view: map<Key, Seen>, op: Op, ok: bool, done: nat, a: map<Key, Seen>, b: map<Key, Seen>)
    requires op.CopyOut? && RefStep(view, op, ok, done, a) && RefStep(view, op, ok, done, b)
    requires forall k :: k in view ==> |view[k].data| == PGSIZE
    ensures a == b
  {
    var v0, n := op.va / PGSIZE, PageCount(op.va, done);
    forall k | k in a
      ensures a[k] == b[k]
    {
      if Within(k, op.space, v0, n) {
        forall off: nat | off < PGSIZE
          ensures a[k].data[off] == b[k].data[off]
        {
          ByteInPage(a, k, off);
          ByteInPage(b, k, off);
        }
        assert a[k].data == b[k].data;
      }
    }
  }

  // ---------------------------------------------------------------------------------
  // Views

  lemma DropViewNone(view: map<Key, Seen>, space: int, v0: int)
    ensures DropView(view, space, v0, 0) == view
  {
  }

  lemma DropViewStep(view: map<Key, Seen>, space: int, v0: int, n: nat)
    ensures DropView(view, space, v0, n + 1) == DropView(view, space, v0, n) - {(space, v0 + n)}
  {
  }

  lemma ForkViewNone(view: map<Key, Seen>, parent: int, child: int)
    ensures ForkView(view, parent, child, 0) == view
  {
  }

  lemma ForkViewStep(view: map<Key, Seen>, parent: int, child: int, v: nat)
    requires parent != child && (child, v) !in view
    ensures ForkView(view, parent, child, v + 1) ==
            if (parent, v) in view && view[(parent, v)].u
            then ForkView(view, parent, child, v)[(child, v) := view[(parent, v)]]
            else ForkView(view, parent, child, v)
    ensures (parent, v) in ForkView(view, parent, child, v) <==> (parent, v) in view
    ensures (parent, v) in view ==> ForkView(view, parent, child, v)[(parent, v)] == view[(parent, v)]
    ensures (child, v) !in ForkView(view, parent, child, v)
  {
  }

  /** Dropping the child's first n pages takes a fork back. */
  lemma ForkViewUndo(view: map<Key, Seen>, parent: int, child: int, n: nat)
    requires parent != child && forall v :: 0 <= v < n ==> (child, v) !in view
    ensures DropView(ForkView(view, parent, child, n), child, 0, n) == view
  {
  }
}
