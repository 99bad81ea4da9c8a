/**
A run in which copy-on-write loses a page: two spaces share it, both take their write fault,
and the second fault finds the count at 1.
*/
module CowLeak {
  import opened CowModel
  import opened CowMemory

  function SharedThenWritten(): seq<Op> {
    [Grow((1, 0), true, false), Fork(1, 2, 1), Fault((2, 0)), Fault((1, 0))]
  }

  /** The entry both spaces have after the fork. */
  function Both(p: int): map<Key, Pte> {
    var pte := Pte(p, true, false, false, true, true);
    map[(1, 0) := pte, (2, 0) := pte]
  }

  /** A page two spaces map is counted twice. */
  lemma CountedTwice(vm: Vm, p: int)
    requires Inv(vm) && vm.ptes == Both(p)
    ensures p in vm.count && vm.count[p] == 2 && p !in vm.free
  {
    var j, k: Key := (1, 0), (2, 0);
    assert Mappers(vm.ptes, p) == {j, k};
    assert p !in vm.kernel;
  }

  /** Once the second space has its own, it is counted once. */
  lemma CountedOnce(vm: Vm, p: int, q: int)
    requires Inv(vm) && q != p && vm.ptes == Both(p)[(2, 0) := Pte(q, true, true, false, true, false)]
    ensures p in vm.count && vm.count[p] == 1
  {
    var j: Key := (1, 0);
    assert Mappers(vm.ptes, p) == {j};
    assert p !in vm.kernel;
  }

  method SharePage() returns (m: CowMemory, p: int, ghost vm0: Vm, ghost vm1: Vm)
    ensures fresh(m) && m.Valid() && m.ptes == Both(p) && |m.free| == 2
    ensures Inv(vm0) && Inv(vm1) && vm0.phys == vm1.phys == m.phys && Lost(vm0) == Lost(m.State()) == {}
    ensures CowStep(vm0, Grow((1, 0), true, false), true, 0, vm1)
    ensures CowStep(vm1, Fork(1, 2, 1), true, 0, m.State())
  {
    hide Inv, Uncounted, View, CowStep, ForkPtes, ForkView, Moved;
    m := new CowMemory([10, 11, 12]);
    vm0 := m.State();
    var ok := m.MapZeroed((1, 0), true, false, 0);
    vm1 := m.State();
    p := m.ptes[(1, 0)].ppn;
    GrowStep(vm0, vm1);
    ok := m.Uvmcopy(1, 2, 1, [0]);
    ForkStep(vm1, m.State(), p);
  }

  lemma GrowStep(vm: Vm, vm': Vm)
    requires Inv(vm) && Inv(vm') && Moved(vm, vm', {})
    requires View(vm') == View(vm)[(1, 0) := Seen(Filled(0), true, true, false, true)]
    ensures CowStep(vm, Grow((1, 0), true, false), true, 0, vm') && Lost(vm') == Lost(vm)
  {
    AbandonsNothing(vm);
  }

  lemma ForkStep(vm: Vm, vm': Vm, p: int)
    requires Inv(vm) && Inv(vm') && Lost(vm') == Lost(vm) && View(vm') == ForkView(View(vm), 1, 2, 1)
    requires vm.ptes == map[(1, 0) := Pte(p, true, true, false, true, false)]
    requires vm'.ptes == ForkPtes(vm.ptes, 1, 2, 1)
    ensures CowStep(vm, Fork(1, 2, 1), true, 0, vm') && vm'.ptes == Both(p)
  {
    hide Inv, View, ForkView, ForkPtes, Lost, Abandoned;
    AbandonsNothing(vm);
    ForkBoth(p);
  }

  lemma ForkBoth(p: int)
    ensures ForkPtes(map[(1, 0) := Pte(p, true, true, false, true, false)], 1, 2, 1) == Both(p)
  {
  }

  /** The first write fault leaves the page with one mapper, the second with none and off the free list. */
  method LastSharerLoses() returns (m: CowMemory, p: int, ghost vms: seq<Vm>)
    ensures m.Valid() && |vms| == 5 && vms[4] == m.State()
    ensures CowRun(vms, SharedThenWritten(), [true, true, true, true], [0, 0, 0, 0])
    ensures Lost(vms[0]) == {} && Lost(m.State()) == {p}
  {
    hide Inv, Lost, Abandoned, View, CowStep, CowRun, Moved;
    ghost var vm0, vm1;
    m, p, vm0, vm1 := SharePage();
    ghost var vm2 := m.State();
    CountedTwice(vm2, p);
    var ok := m.Cowfault((2, 0));
    FaultStep(vm2, (2, 0), m.State());
    ghost var vm3 := m.State();
    assert vm3.ptes == Both(p)[(2, 0) := Pte(vm3.ptes[(2, 0)].ppn, true, true, false, true, false)];
    CountedOnce(vm3, p, vm3.ptes[(2, 0)].ppn);
    ok := m.Cowfault((1, 0));
    FaultStep(vm3, (1, 0), m.State());
    vms := [vm0, vm1, vm2, vm3, m.State()];
    FourSteps(vms);
  }

  lemma FourSteps(vms: seq<Vm>)
    requires |vms| == 5 && forall i :: 0 <= i < 5 ==> Inv(vms[i]) && vms[i].phys == vms[0].phys
    requires CowStep(vms[0], Grow((1, 0), true, false), true, 0, vms[1])
    requires CowStep(vms[1], Fork(1, 2, 1), true, 0, vms[2])
    requires CowStep(vms[2], Fault((2, 0)), true, 0, vms[3])
    requires CowStep(vms[3], Fault((1, 0)), true, 0, vms[4])
    ensures CowRun(vms, SharedThenWritten(), [true, true, true, true], [0, 0, 0, 0])
  {
    hide Inv, CowStep;
  }

  lemma FaultStep(vm: Vm, k: Key, vm': Vm)
    requires Inv(vm) && Inv(vm') && View(vm') == View(vm) && Moved(vm, vm', {k})
    ensures CowStep(vm, Fault(k), true, 0, vm')
  {
  }
}
