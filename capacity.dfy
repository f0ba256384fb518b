/**
  The admission test (`is_feasible`) and the capacity invariant it protects.

  `Optimisation_TB.py` decides whether a VM may join a host by subtracting from the
  host's capacity the demand of every VM already on the host whose window
  overlaps the candidate's window at all, and comparing what remains with the
  candidate's demand. The invariant a placement must keep is stated per
  instant: at every minute, the VMs active then fit within the capacity.
 */
module Capacity {
  import opened Machines

  /** The overlap test of `Optimisation_TB.py`, strict on both sides: windows that only touch do not overlap. */
  predicate Overlaps(vm: VM, other: VM)
  {
    vm.arrival < other.departure && vm.departure > other.arrival
  }

  /** Total demand on `r` of the VMs in `hosted` whose window overlaps `vm`'s. */
  function OverlapDemand(vm: VM, hosted: seq<VM>, r: Resource): nat
  {
    if hosted == [] then 0
    else
      var other := hosted[|hosted| - 1];
      OverlapDemand(vm, hosted[..|hosted| - 1], r) + (if Overlaps(vm, other) then other.Demand(r) else 0)
  }

  /** What the host has left on `r` for `vm` once the overlapping VMs are taken out. */
  function Remaining(pm: PM, vm: VM, hosted: seq<VM>, r: Resource): int
  {
    pm.Capacity(r) - OverlapDemand(vm, hosted, r)
  }

  /** The admission condition: what remains covers the demand on all three resources. */
  predicate Fits(pm: PM, vm: VM, hosted: seq<VM>)
  {
    && vm.cpu <= Remaining(pm, vm, hosted, Cpu)
    && vm.ram <= Remaining(pm, vm, hosted, Ram)
    && vm.storage <= Remaining(pm, vm, hosted, Storage)
  }

  /**
    `is_feasible`: one pass over the VMs already on the host, subtracting the
    demand of each overlapping one from running remainders.
   */
  method IsFeasible(pm: PM, vm: VM, hosted: seq<VM>) returns (ok: bool)
    ensures ok <==> Fits(pm, vm, hosted)
  {
    var remainingCpu: int := pm.cpu;
    var remainingRam: int := pm.ram;
    var remainingStorage: int := pm.storage;
    for i := 0 to |hosted|
      invariant remainingCpu == Remaining(pm, vm, hosted[..i], Cpu)
      invariant remainingRam == Remaining(pm, vm, hosted[..i], Ram)
      invariant remainingStorage == Remaining(pm, vm, hosted[..i], Storage)
    {
      var other := hosted[i];
      assert hosted[..i + 1][..i] == hosted[..i];
      if vm.arrival < other.departure && vm.departure > other.arrival {
        remainingCpu := remainingCpu - other.cpu;
        remainingRam := remainingRam - other.ram;
        remainingStorage := remainingStorage - other.storage;
      }
    }
    assert hosted[..|hosted|] == hosted;
    ok := remainingCpu >= vm.cpu && remainingRam >= vm.ram && remainingStorage >= vm.storage;
  }

  /** `v` holds its resources at minute `t`: its window is half-open, `[arrival, departure)`. */
  predicate ActiveAt(v: VM, t: int)
  {
    v.arrival <= t < v.departure
  }

  /** Total demand on `r` of the VMs of `s` active at minute `t`. */
  function LoadAt(s: seq<VM>, t: int, r: Resource): nat
  {
    if s == [] then 0
    else LoadAt(s[..|s| - 1], t, r) + (if ActiveAt(s[|s| - 1], t) then s[|s| - 1].Demand(r) else 0)
  }

  /** The feasibility invariant of a host's list: at every minute, on every resource, the load fits. */
  ghost predicate Safe(pm: PM, s: seq<VM>)
  {
    forall t: int, r: Resource :: LoadAt(s, t, r) <= pm.Capacity(r)
  }

  lemma LoadAtAppend(s: seq<VM>, v: VM, t: int, r: Resource)
    ensures LoadAt(s + [v], t, r) == LoadAt(s, t, r) + (if ActiveAt(v, t) then v.Demand(r) else 0)
  {
    assert (s + [v])[..|s|] == s;
  }

  /**
    At a minute where `vm` is active, every VM active then overlaps `vm`'s
    window, so the load then is at most what the admission test subtracts.
   */
  lemma {:induction false} LoadWithinOverlap(vm: VM, s: seq<VM>, t: int, r: Resource)
    requires ActiveAt(vm, t)
    ensures LoadAt(s, t, r) <= OverlapDemand(vm, s, r)
  {
    if s != [] {
      LoadWithinOverlap(vm, s[..|s| - 1], t, r);
    }
  }

  /** `Fits`, on one resource at a time. */
  lemma FitsOn(pm: PM, vm: VM, hosted: seq<VM>, r: Resource)
    requires Fits(pm, vm, hosted)
    ensures vm.Demand(r) + OverlapDemand(vm, hosted, r) <= pm.Capacity(r)
  {
  }

  /**
    The admission test is sound: a VM it accepts onto a host whose list keeps
    the feasibility invariant leaves the invariant intact.
   */
  lemma AdmitKeepsSafe(pm: PM, s: seq<VM>, vm: VM)
    requires Safe(pm, s)
    requires Fits(pm, vm, s)
    ensures Safe(pm, s + [vm])
  {
    forall t: int, r: Resource
      ensures LoadAt(s + [vm], t, r) <= pm.Capacity(r)
    {
      LoadAtAppend(s, vm, t, r);
      if ActiveAt(vm, t) {
        LoadWithinOverlap(vm, s, t, r);
        FitsOn(pm, vm, s, r);
      }
    }
  }

  /**
    The admission test is stricter than the invariant: it sums every VM that
    overlaps the candidate's window anywhere, even VMs that are never active
    at the same minute. Here two VMs `[0,10)` and `[20,30)` of 5 CPU each
    leave no room for a third `[0,30)` of 5 CPU on a 10-CPU host, although
    the three together never use more than 10 CPU at any minute.
   */
  lemma AdmissionIsConservative()
    ensures var pm := PM("PM_1", 10, 10, 10);
      var a := VM("VM_a", 5, 0, 0, 0, 10);
      var b := VM("VM_b", 5, 0, 0, 20, 30);
      var c := VM("VM_c", 5, 0, 0, 0, 30);
      !Fits(pm, c, [a, b]) && Safe(pm, [a, b, c])
  {
    var pm := PM("PM_1", 10, 10, 10);
    var a := VM("VM_a", 5, 0, 0, 0, 10);
    var b := VM("VM_b", 5, 0, 0, 20, 30);
    var c := VM("VM_c", 5, 0, 0, 0, 30);
    assert [a, b][..1] == [a];
    assert [a][..0] == [];
    assert OverlapDemand(c, [a], Cpu) == 5;
    assert OverlapDemand(c, [a, b], Cpu) == 10;
    assert [a, b, c][..2] == [a, b];
    forall t: int, r: Resource
      ensures LoadAt([a, b, c], t, r) <= pm.Capacity(r)
    {
      assert LoadAt([a], t, r) == (if ActiveAt(a, t) then a.Demand(r) else 0);
    }
  }

  /** VMs that only touch the candidate's window at an endpoint subtract nothing. */
  lemma {:induction false} TouchingSubtractsNothing(vm: VM, hosted: seq<VM>, r: Resource)
    requires forall i :: 0 <= i < |hosted| ==>
      hosted[i].departure <= vm.arrival || vm.departure <= hosted[i].arrival
    ensures OverlapDemand(vm, hosted, r) == 0
    ensures Fits(PM("", vm.cpu, vm.ram, vm.storage), vm, hosted)
  {
    if hosted != [] {
      TouchingSubtractsNothing(vm, hosted[..|hosted| - 1], r);
      TouchingSubtractsNothing(vm, hosted[..|hosted| - 1], Cpu);
      TouchingSubtractsNothing(vm, hosted[..|hosted| - 1], Ram);
      TouchingSubtractsNothing(vm, hosted[..|hosted| - 1], Storage);
    }
  }
}
