/**
  The greedy first-fit builder (`initial_placement`). It sorts the VM list in
  place by arrival (stably), then gives each VM, in that order, to the first
  host in list order that admits it, or files it as unplaced.
 */
module Greedy {
  import opened Machines
  import opened Capacity
  import opened Scoring
  import Sorting

  /** The sort key of the VM list: the arrival minute. */
  function Arrival(v: VM): int
  {
    v.arrival
  }

  /** A placement together with the VMs no host took. */
  datatype Allocation = Allocation(placement: Placement, unplaced: seq<VM>)

  /** The placement the builder starts from: one empty list per host. */
  function EmptyPlacement(n: nat): (p: Placement)
    ensures |p| == n && forall k :: 0 <= k < n ==> p[k] == []
  {
    seq(n, _ => [])
  }

  /**
    The first host at position `from` or later that admits `vm` next to the
    VMs it holds in `p`, or `None` when no such host exists.
   */
  function FirstHost(pms: seq<PM>, p: Placement, vm: VM, from: nat): (k: Option<nat>)
    requires |p| == |pms| && from <= |pms|
    decreases |pms| - from
    ensures k.Some? ==> from <= k.value < |pms| && Fits(pms[k.value], vm, p[k.value])
    ensures k.Some? ==> forall j :: from <= j < k.value ==> !Fits(pms[j], vm, p[j])
    ensures k.None? ==> forall j :: from <= j < |pms| ==> !Fits(pms[j], vm, p[j])
  {
    if from == |pms| then None
    else if Fits(pms[from], vm, p[from]) then Some(from)
    else FirstHost(pms, p, vm, from + 1)
  }

  /** One round of the builder: `vm` goes to the first host that admits it, or to the unplaced list. */
  function Assign(pms: seq<PM>, a: Allocation, vm: VM): (r: Allocation)
    requires |a.placement| == |pms|
    ensures |r.placement| == |pms|
  {
    match FirstHost(pms, a.placement, vm, 0)
    case Some(k) => Allocation(a.placement[k := a.placement[k] + [vm]], a.unplaced)
    case None => Allocation(a.placement, a.unplaced + [vm])
  }

  /** The builder's result for the VMs in the order given. */
  function FirstFit(vms: seq<VM>, pms: seq<PM>): (a: Allocation)
    ensures |a.placement| == |pms|
  {
    if vms == [] then Allocation(EmptyPlacement(|pms|), [])
    else Assign(pms, FirstFit(vms[..|vms| - 1], pms), vms[|vms| - 1])
  }

  /** The nested loops of `initial_placement`, over VMs already in arrival order. */
  method FirstFitPlace(vms: seq<VM>, pms: seq<PM>) returns (placement: Placement, unplaced: seq<VM>)
    ensures Allocation(placement, unplaced) == FirstFit(vms, pms)
  {
    placement := seq(|pms|, _ => []);
    unplaced := [];
    for i := 0 to |vms|
      invariant Allocation(placement, unplaced) == FirstFit(vms[..i], pms)
    {
      var vm := vms[i];
      assert vms[..i + 1][..i] == vms[..i];
      ghost var before := placement;
      var placed := false;
      for k := 0 to |pms|
        invariant !placed && placement == before
        invariant FirstHost(pms, before, vm, 0) == FirstHost(pms, before, vm, k)
      {
        var ok := IsFeasible(pms[k], vm, placement[k]);
        if ok {
          placement := placement[k := placement[k] + [vm]];
          placed := true;
          assert Allocation(placement, unplaced) == FirstFit(vms[..i + 1], pms);
          break;
        }
      }
      if !placed {
        unplaced := unplaced + [vm];
      }
    }
    assert vms[..|vms|] == vms;
  }

  /** `initial_placement`: sorts the caller's list in place by arrival, then places greedily. */
  method InitialPlacement(vms: array<VM>, pms: seq<PM>) returns (placement: Placement, unplaced: seq<VM>)
    modifies vms
    ensures vms[..] == Sorting.InsertionSort(old(vms[..]), Arrival)
    ensures Allocation(placement, unplaced) == FirstFit(vms[..], pms)
  {
    Sorting.SortBy(vms, Arrival);
    placement, unplaced := FirstFitPlace(vms[..], pms);
  }

  /** The builder partitions the VMs: each one ends on exactly one host's list or in the unplaced list. */
  lemma {:induction false} FirstFitPartition(vms: seq<VM>, pms: seq<PM>)
    ensures var a := FirstFit(vms, pms);
      multiset(Flatten(a.placement)) + multiset(a.unplaced) == multiset(vms)
  {
    if vms == [] {
      var p := EmptyPlacement(|pms|);
      assert Flatten(p) == [] by {
        ScoreCountsAll(p);
      }
    } else {
      var rest := vms[..|vms| - 1];
      var vm := vms[|vms| - 1];
      assert vms == rest + [vm];
      FirstFitPartition(rest, pms);
      var a := FirstFit(rest, pms);
      match FirstHost(pms, a.placement, vm, 0)
      case Some(k) => FlattenAppend(a.placement, k, vm);
      case None =>
    }
  }

  /** Right after the builder, the score is the number of VMs minus the unplaced ones. */
  lemma FirstFitScore(vms: seq<VM>, pms: seq<PM>)
    ensures var a := FirstFit(vms, pms);
      Score(a.placement) + |a.unplaced| == |vms|
  {
    var a := FirstFit(vms, pms);
    FirstFitPartition(vms, pms);
    ScoreCountsAll(a.placement);
    assert |multiset(Flatten(a.placement)) + multiset(a.unplaced)| == |multiset(vms)|;
  }

  /** Every host's list built by the builder keeps the feasibility invariant. */
  lemma {:induction false} FirstFitSafe(vms: seq<VM>, pms: seq<PM>)
    ensures forall k :: 0 <= k < |pms| ==> Safe(pms[k], FirstFit(vms, pms).placement[k])
  {
    if vms != [] {
      var rest := vms[..|vms| - 1];
      var vm := vms[|vms| - 1];
      FirstFitSafe(rest, pms);
      var a := FirstFit(rest, pms);
      match FirstHost(pms, a.placement, vm, 0)
      case Some(k) => AdmitKeepsSafe(pms[k], a.placement[k], vm);
      case None =>
    }
  }

  /** Growing a host's list never turns a rejection into an admission (demands are non-negative). */
  lemma FitsShrinks(pm: PM, vm: VM, s: seq<VM>, x: VM)
    requires Fits(pm, vm, s + [x])
    ensures Fits(pm, vm, s)
  {
    assert (s + [x])[..|s|] == s;
  }

  /**
    No unplaced VM fits on any host of the final placement: it was rejected
    when its turn came, and the lists only grew after that.
   */
  lemma {:induction false} FirstFitRejectsUnplaced(vms: seq<VM>, pms: seq<PM>)
    ensures forall v, k :: v in FirstFit(vms, pms).unplaced && 0 <= k < |pms| ==>
      !Fits(pms[k], v, FirstFit(vms, pms).placement[k])
  {
    if vms != [] {
      var rest := vms[..|vms| - 1];
      var vm := vms[|vms| - 1];
      FirstFitRejectsUnplaced(rest, pms);
      var a := FirstFit(rest, pms);
      match FirstHost(pms, a.placement, vm, 0)
      case Some(h) =>
        var p := a.placement[h := a.placement[h] + [vm]];
        forall v, k | v in a.unplaced && 0 <= k < |pms|
          ensures !Fits(pms[k], v, p[k])
        {
          if k == h {
            if Fits(pms[k], v, p[k]) {
              FitsShrinks(pms[k], v, a.placement[k], vm);
            }
          } else {
            assert !Fits(pms[k], v, a.placement[k]);
          }
        }
      case None =>
        forall v, k | v in a.unplaced + [vm] && 0 <= k < |pms|
          ensures !Fits(pms[k], v, a.placement[k])
        {
          if v != vm {
            assert v in a.unplaced;
          }
        }
    }
  }

  /** Fed a list in arrival order, the builder fills every host's list in arrival order. */
  lemma {:induction false} FirstFitKeepsArrivalOrder(vms: seq<VM>, pms: seq<PM>)
    requires Sorting.SortedBy(vms, Arrival)
    ensures forall k :: 0 <= k < |pms| ==> Sorting.SortedBy(FirstFit(vms, pms).placement[k], Arrival)
  {
    if vms != [] {
      var rest := vms[..|vms| - 1];
      var vm := vms[|vms| - 1];
      FirstFitKeepsArrivalOrder(rest, pms);
      var a := FirstFit(rest, pms);
      match FirstHost(pms, a.placement, vm, 0)
      case Some(h) =>
        var s := a.placement[h];
        forall v | v in s ensures v.arrival <= vm.arrival {
          InFlatten(a.placement, v);
          FirstFitPartition(rest, pms);
          assert v in multiset(Flatten(a.placement));
          assert v in multiset(rest);
          var i :| 0 <= i < |rest| && rest[i] == v;
          assert vms[i] == v;
        }
        forall i, j | 0 <= i < j < |s + [vm]|
          ensures (s + [vm])[i].arrival <= (s + [vm])[j].arrival
        {
          if j == |s| {
            assert s[i] in s;
          }
        }
        assert forall k :: 0 <= k < |pms| && k != h ==> Sorting.SortedBy(a.placement[k], Arrival);
      case None =>
        assert forall k :: 0 <= k < |pms| ==> Sorting.SortedBy(a.placement[k], Arrival);
    }
  }
}
