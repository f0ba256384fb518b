/**
  The tabu hill-climb (`tabu_search`). Starting from the greedy placement, each
  round builds every neighbour obtained by appending one VM whose name is not
  yet placed to one host that admits it, skipping neighbours already in the
  tabu list; it takes the first neighbour of maximal score and accepts it
  only when it beats the incumbent's score, remembering accepted placements
  in a bounded first-in first-out tabu list.

  Besides the round-by-round invariants, the module proves that the search
  never moves away from the greedy placement it starts from: every VM the
  greedy pass left out was rejected by every host, the hosts' lists only grew
  afterwards, and a longer list never admits what a shorter one refused, so
  the first round finds no neighbour and the search stays where it began.
 */
module Tabu {
  import opened Machines
  import opened Capacity
  import opened Scoring
  import opened Greedy
  import Sorting

  /** A candidate placement with its score, as the Python engine pairs them. */
  datatype Neighbour = Neighbour(solution: Placement, score: nat)

  /** The state the search carries from round to round. */
  datatype Search = Search(best: Placement, score: nat, tabu: seq<Placement>)

  /**
    The neighbours obtained by appending `vm` to each of the hosts `pms[..n]`
    that admits it, in host order, leaving out those in the tabu list.
   */
  function HostMoves(pms: seq<PM>, best: Placement, tabu: seq<Placement>, vm: VM, n: nat): (ns: seq<Neighbour>)
    requires |best| == |pms| && n <= |pms|
    ensures forall j :: 0 <= j < |ns| ==> |ns[j].solution| == |pms|
  {
    if n == 0 then []
    else
      var k := n - 1;
      var rest := HostMoves(pms, best, tabu, vm, k);
      var candidate := best[k := best[k] + [vm]];
      if Fits(pms[k], vm, best[k]) && candidate !in tabu
      then rest + [Neighbour(candidate, Score(candidate))]
      else rest
  }

  /** All neighbours of `best`, in VM order and, for each VM, in host order. */
  function Neighbours(vms: seq<VM>, pms: seq<PM>, best: Placement, tabu: seq<Placement>): (ns: seq<Neighbour>)
    requires |best| == |pms|
    ensures forall j :: 0 <= j < |ns| ==> |ns[j].solution| == |pms|
  {
    if vms == [] then []
    else
      var vm := vms[|vms| - 1];
      Neighbours(vms[..|vms| - 1], pms, best, tabu)
        + (if Placed(best, vm.name) then [] else HostMoves(pms, best, tabu, vm, |pms|))
  }

  /** The position Python's `max` picks: the first entry of maximal score. */
  function FirstBest(ns: seq<Neighbour>): (i: nat)
    requires ns != []
    ensures i < |ns|
    ensures forall j :: 0 <= j < |ns| ==> ns[j].score <= ns[i].score
    ensures forall j :: 0 <= j < i ==> ns[j].score < ns[i].score
  {
    if |ns| == 1 then 0
    else
      var i := FirstBest(ns[..|ns| - 1]);
      if ns[|ns| - 1].score > ns[i].score then |ns| - 1 else i
  }

  /** The most entries the tabu list keeps. */
  function TabuBound(tabuSize: int): nat
  {
    if tabuSize < 0 then 0 else tabuSize
  }

  /** Appends an accepted placement to the tabu list, evicting the oldest entry on overflow. */
  function Remember(tabu: seq<Placement>, accepted: Placement, tabuSize: int): (r: seq<Placement>)
    ensures |r| <= |tabu| + 1
    ensures r != [] ==> r[|r| - 1] == accepted
    ensures forall j :: 0 <= j < |r| - 1 ==> r[j] in tabu
  {
    var grown := tabu + [accepted];
    if |grown| > tabuSize then grown[1..] else grown
  }

  /** One round of the search. */
  function Iterate(vms: seq<VM>, pms: seq<PM>, tabuSize: int, st: Search): (r: Search)
    requires |st.best| == |pms|
    ensures |r.best| == |pms|
  {
    var ns := Neighbours(vms, pms, st.best, st.tabu);
    if ns == [] then st
    else
      var chosen := ns[FirstBest(ns)];
      if chosen.score > st.score
      then Search(chosen.solution, chosen.score, Remember(st.tabu, chosen.solution, tabuSize))
      else st
  }

  /** The state after `n` rounds. */
  function Run(vms: seq<VM>, pms: seq<PM>, tabuSize: int, st: Search, n: nat): (r: Search)
    requires |st.best| == |pms|
    ensures |r.best| == |pms|
  {
    if n == 0 then st else Iterate(vms, pms, tabuSize, Run(vms, pms, tabuSize, st, n - 1))
  }

  /** The state before the first round: the greedy placement, its score and an empty tabu list. */
  function Start(vms: seq<VM>, pms: seq<PM>): (st: Search)
    ensures |st.best| == |pms|
  {
    var a := FirstFit(vms, pms);
    Search(a.placement, Score(a.placement), [])
  }

  /** How many rounds `range(iterations)` runs. */
  function Rounds(iterations: int): nat
  {
    if iterations < 0 then 0 else iterations
  }

  /** `final_unplaced_vms`: the VMs, in list order, whose name no host's list carries. */
  function Unplaced(vms: seq<VM>, p: Placement): (r: seq<VM>)
    ensures |r| <= |vms|
    ensures forall i :: 0 <= i < |r| ==> r[i] in vms && !Placed(p, r[i].name)
  {
    if vms == [] then []
    else
      var v := vms[|vms| - 1];
      Unplaced(vms[..|vms| - 1], p) + (if Placed(p, v.name) then [] else [v])
  }

  /** The inner loop of a round: `vm` tried against every host, on a copy of the incumbent. */
  method HostNeighbours(pms: seq<PM>, best: Placement, tabu: seq<Placement>, vm: VM)
    returns (moves: seq<Neighbour>)
    requires |best| == |pms|
    ensures moves == HostMoves(pms, best, tabu, vm, |pms|)
  {
    moves := [];
    for k := 0 to |pms|
      invariant moves == HostMoves(pms, best, tabu, vm, k)
    {
      // The Python engine copies every host's list; placements are values here, so `candidate` is that copy.
      var candidate := best;
      var ok := IsFeasible(pms[k], vm, candidate[k]);
      if ok {
        candidate := candidate[k := candidate[k] + [vm]];
        if candidate !in tabu {
          moves := moves + [Neighbour(candidate, Score(candidate))];
        }
      }
    }
  }

  /** The neighbour loops of one round: every VM whose name is not placed, against every host. */
  method CollectNeighbours(vms: seq<VM>, pms: seq<PM>, best: Placement, tabu: seq<Placement>)
    returns (ns: seq<Neighbour>)
    requires |best| == |pms|
    ensures ns == Neighbours(vms, pms, best, tabu)
  {
    ns := [];
    for i := 0 to |vms|
      invariant ns == Neighbours(vms[..i], pms, best, tabu)
    {
      var vm := vms[i];
      NeighboursStep(vms, pms, best, tabu, i);
      if Placed(best, vm.name) {
        continue;
      }
      var moves := HostNeighbours(pms, best, tabu, vm);
      ns := ns + moves;
    }
    assert vms[..|vms|] == vms;
  }

  /** One round of `tabu_search`: the neighbours, the first best of them, and the acceptance test. */
  method Round(vms: seq<VM>, pms: seq<PM>, tabuSize: int, best: Placement, bestScore: nat, tabuList: seq<Placement>)
    returns (best': Placement, bestScore': nat, tabuList': seq<Placement>)
    requires |best| == |pms|
    ensures Search(best', bestScore', tabuList') == Iterate(vms, pms, tabuSize, Search(best, bestScore, tabuList))
  {
    best', bestScore', tabuList' := best, bestScore, tabuList;
    var neighbours := CollectNeighbours(vms, pms, best, tabuList);
    if neighbours == [] {
      return;
    }
    var chosen := neighbours[FirstBest(neighbours)];
    if chosen.score > bestScore {
      best', bestScore' := chosen.solution, chosen.score;
      tabuList' := tabuList + [best'];
      if |tabuList'| > tabuSize {
        tabuList' := tabuList'[1..];
      }
    }
  }

  /** The rounds of `tabu_search`, from a given incumbent and an empty tabu list. */
  method SearchFrom(vms: seq<VM>, pms: seq<PM>, start: Placement, iterations: int, tabuSize: int)
    returns (best: Placement, bestScore: nat)
    requires |start| == |pms|
    ensures Search(best, bestScore, Run(vms, pms, tabuSize, Search(start, Score(start), []), Rounds(iterations)).tabu)
         == Run(vms, pms, tabuSize, Search(start, Score(start), []), Rounds(iterations))
  {
    best, bestScore := start, Score(start);
    var tabuList: seq<Placement> := [];
    for round := 0 to Rounds(iterations)
      invariant |best| == |pms|
      invariant Search(best, bestScore, tabuList) == Run(vms, pms, tabuSize, Search(start, Score(start), []), round)
    {
      RunStep(vms, pms, tabuSize, Search(start, Score(start), []), round + 1);
      best, bestScore, tabuList := Round(vms, pms, tabuSize, best, bestScore, tabuList);
    }
  }

  /** The neighbours from the first `i + 1` VMs extend those from the first `i`. */
  lemma NeighboursStep(vms: seq<VM>, pms: seq<PM>, best: Placement, tabu: seq<Placement>, i: nat)
    requires |best| == |pms| && i < |vms|
    ensures Neighbours(vms[..i + 1], pms, best, tabu) == Neighbours(vms[..i], pms, best, tabu)
      + (if Placed(best, vms[i].name) then [] else HostMoves(pms, best, tabu, vms[i], |pms|))
  {
    assert vms[..i + 1][..i] == vms[..i];
  }

  /** The state after `n` rounds is the state after `n - 1` rounds, advanced by one round. */
  lemma RunStep(vms: seq<VM>, pms: seq<PM>, tabuSize: int, st: Search, n: nat)
    requires |st.best| == |pms| && n > 0
    ensures Run(vms, pms, tabuSize, st, n) == Iterate(vms, pms, tabuSize, Run(vms, pms, tabuSize, st, n - 1))
  {
  }

  /**
    `tabu_search`: the greedy placement (which sorts the caller's list in
    place), the rounds, then the VMs left unplaced, by name.
   */
  method TabuSearch(vms: array<VM>, pms: seq<PM>, iterations: int, tabuSize: int)
    returns (best: Placement, unplaced: seq<VM>, bestScore: nat)
    modifies vms
    ensures vms[..] == Sorting.InsertionSort(old(vms[..]), Arrival)
    ensures Search(best, bestScore, Run(vms[..], pms, tabuSize, Start(vms[..], pms), Rounds(iterations)).tabu)
         == Run(vms[..], pms, tabuSize, Start(vms[..], pms), Rounds(iterations))
    ensures unplaced == Unplaced(vms[..], best)
  {
    var initial, _ := InitialPlacement(vms, pms);
    best, bestScore := SearchFrom(vms[..], pms, initial, iterations, tabuSize);
    unplaced := Unplaced(vms[..], best);
  }

  // ---------------------------------------------------------------------------
  // What one round does

  /** The candidate obtained by appending the VM `vms[i]` to host `k`, when the search would build it. */
  ghost predicate Admits(vms: seq<VM>, pms: seq<PM>, best: Placement, sol: Placement)
  {
    exists i, k :: 0 <= i < |vms| && 0 <= k < |pms| == |best|
      && !Placed(best, vms[i].name)
      && Fits(pms[k], vms[i], best[k])
      && sol == best[k := best[k] + [vms[i]]]
  }

  lemma {:induction false} HostMovesShape(pms: seq<PM>, best: Placement, tabu: seq<Placement>, vm: VM, n: nat)
    requires |best| == |pms| && n <= |pms|
    ensures forall j :: 0 <= j < |HostMoves(pms, best, tabu, vm, n)| ==>
      var nb := HostMoves(pms, best, tabu, vm, n)[j];
      && nb.score == Score(nb.solution) == Score(best) + 1
      && nb.solution !in tabu
      && exists k :: 0 <= k < n && Fits(pms[k], vm, best[k]) && nb.solution == best[k := best[k] + [vm]]
  {
    if n > 0 {
      HostMovesShape(pms, best, tabu, vm, n - 1);
      ScoreAppend(best, n - 1, vm);
    }
  }

  /**
    Every neighbour is the incumbent with one more VM, one whose name is not
    placed, appended to a host that admits it; it is not in the tabu list, and
    its score is the incumbent's plus one.
   */
  lemma {:induction false} NeighboursShape(vms: seq<VM>, pms: seq<PM>, best: Placement, tabu: seq<Placement>)
    requires |best| == |pms|
    ensures forall j :: 0 <= j < |Neighbours(vms, pms, best, tabu)| ==>
      var nb := Neighbours(vms, pms, best, tabu)[j];
      && nb.score == Score(nb.solution) == Score(best) + 1
      && nb.solution !in tabu
      && Admits(vms, pms, best, nb.solution)
  {
    if vms != [] {
      var rest := vms[..|vms| - 1];
      var vm := vms[|vms| - 1];
      NeighboursShape(rest, pms, best, tabu);
      HostMovesShape(pms, best, tabu, vm, |pms|);
      var front := Neighbours(rest, pms, best, tabu);
      var back: seq<Neighbour> := if Placed(best, vm.name) then [] else HostMoves(pms, best, tabu, vm, |pms|);
      forall j | 0 <= j < |front + back|
        ensures Admits(vms, pms, best, (front + back)[j].solution)
      {
        assert vms == rest + [vm];
        if j < |front| {
          AdmitsGrow(rest, vm, pms, best, front[j].solution);
        } else {
          var sol := back[j - |front|].solution;
          var k :| 0 <= k < |pms| && Fits(pms[k], vm, best[k]) && sol == best[k := best[k] + [vm]];
          AdmitsLast(rest, vm, pms, best, k);
        }
      }
    }
  }

  lemma AdmitsGrow(rest: seq<VM>, vm: VM, pms: seq<PM>, best: Placement, sol: Placement)
    requires Admits(rest, pms, best, sol)
    ensures Admits(rest + [vm], pms, best, sol)
  {
    var i, k :| 0 <= i < |rest| && 0 <= k < |pms| == |best|
      && !Placed(best, rest[i].name) && Fits(pms[k], rest[i], best[k])
      && sol == best[k := best[k] + [rest[i]]];
    assert (rest + [vm])[i] == rest[i];
  }

  lemma AdmitsLast(rest: seq<VM>, vm: VM, pms: seq<PM>, best: Placement, k: nat)
    requires k < |pms| == |best| && !Placed(best, vm.name) && Fits(pms[k], vm, best[k])
    ensures Admits(rest + [vm], pms, best, best[k := best[k] + [vm]])
  {
    assert (rest + [vm])[|rest|] == vm;
  }

  /** The round would build a neighbour by appending `vms[i]` to host `k`. */
  predicate Admissible(vms: seq<VM>, pms: seq<PM>, best: Placement, tabu: seq<Placement>, i: nat, k: nat)
    requires |best| == |pms|
  {
    && i < |vms| && k < |pms|
    && !Placed(best, vms[i].name)
    && Fits(pms[k], vms[i], best[k])
    && best[k := best[k] + [vms[i]]] !in tabu
  }

  /** Every host that admits `vm`, with the candidate not tabu, yields a neighbour. */
  lemma {:induction false} HostMovesComplete(pms: seq<PM>, best: Placement, tabu: seq<Placement>, vm: VM, n: nat, k: nat)
    requires |best| == |pms| && k < n <= |pms|
    requires Fits(pms[k], vm, best[k]) && best[k := best[k] + [vm]] !in tabu
    ensures exists j :: (0 <= j < |HostMoves(pms, best, tabu, vm, n)|
      && HostMoves(pms, best, tabu, vm, n)[j].solution == best[k := best[k] + [vm]])
  {
    var ns := HostMoves(pms, best, tabu, vm, n);
    if k == n - 1 {
      assert ns[|ns| - 1].solution == best[k := best[k] + [vm]];
    } else {
      HostMovesComplete(pms, best, tabu, vm, n - 1, k);
      var prev := HostMoves(pms, best, tabu, vm, n - 1);
      var j :| 0 <= j < |prev| && prev[j].solution == best[k := best[k] + [vm]];
      assert ns[j] == prev[j];
    }
  }

  /**
    Every VM whose name is not placed, on every host that admits it, yields a
    neighbour unless that candidate is tabu: the converse of `NeighboursShape`.
   */
  lemma {:induction false} NeighboursComplete(vms: seq<VM>, pms: seq<PM>, best: Placement, tabu: seq<Placement>, i: nat, k: nat)
    requires |best| == |pms|
    requires Admissible(vms, pms, best, tabu, i, k)
    ensures exists j :: (0 <= j < |Neighbours(vms, pms, best, tabu)|
      && Neighbours(vms, pms, best, tabu)[j].solution == best[k := best[k] + [vms[i]]])
  {
    var n := |vms| - 1;
    var rest := vms[..n];
    var ns := Neighbours(vms, pms, best, tabu);
    var front := Neighbours(rest, pms, best, tabu);
    var cand := best[k := best[k] + [vms[i]]];
    if i == n {
      HostMovesComplete(pms, best, tabu, vms[n], |pms|, k);
      var moves := HostMoves(pms, best, tabu, vms[n], |pms|);
      assert ns == front + moves;
      var j :| 0 <= j < |moves| && moves[j].solution == cand;
      assert ns[|front| + j] == moves[j];
    } else {
      assert rest[i] == vms[i];
      assert Admissible(rest, pms, best, tabu, i, k);
      NeighboursComplete(rest, pms, best, tabu, i, k);
      assert ns[..|front|] == front;
      var j :| 0 <= j < |front| && front[j].solution == cand;
      assert ns[j] == front[j];
    }
  }

  /** With no admitting host before `k` (or only tabu candidates), host `k` gives the first move. */
  lemma {:induction false} HostMovesFirst(pms: seq<PM>, best: Placement, tabu: seq<Placement>, vm: VM, n: nat, k: nat)
    requires |best| == |pms| && k < n <= |pms|
    requires Fits(pms[k], vm, best[k]) && best[k := best[k] + [vm]] !in tabu
    requires forall h :: 0 <= h < k ==> !Fits(pms[h], vm, best[h]) || best[h := best[h] + [vm]] in tabu
    ensures HostMoves(pms, best, tabu, vm, n) != []
    ensures HostMoves(pms, best, tabu, vm, n)[0].solution == best[k := best[k] + [vm]]
  {
    if k == n - 1 {
      HostMovesNone(pms, best, tabu, vm, k);
    } else {
      HostMovesFirst(pms, best, tabu, vm, n - 1, k);
    }
  }

  /** Hosts none of which admits `vm` with a non-tabu candidate give no move. */
  lemma {:induction false} HostMovesNone(pms: seq<PM>, best: Placement, tabu: seq<Placement>, vm: VM, n: nat)
    requires |best| == |pms| && n <= |pms|
    requires forall h :: 0 <= h < n ==> !Fits(pms[h], vm, best[h]) || best[h := best[h] + [vm]] in tabu
    ensures HostMoves(pms, best, tabu, vm, n) == []
  {
    if n > 0 {
      HostMovesNone(pms, best, tabu, vm, n - 1);
    }
  }

  /** A list of VMs with no admissible pair has no neighbour. */
  lemma NoAdmissibleNoNeighbour(vms: seq<VM>, pms: seq<PM>, best: Placement, tabu: seq<Placement>)
    requires |best| == |pms|
    requires forall i, k :: !Admissible(vms, pms, best, tabu, i, k)
    ensures Neighbours(vms, pms, best, tabu) == []
  {
    var ns := Neighbours(vms, pms, best, tabu);
    if ns != [] {
      NeighboursShape(vms, pms, best, tabu);
      var i, k :| 0 <= i < |vms| && 0 <= k < |pms| == |best|
        && !Placed(best, vms[i].name) && Fits(pms[k], vms[i], best[k])
        && ns[0].solution == best[k := best[k] + [vms[i]]];
      assert Admissible(vms, pms, best, tabu, i, k);
    }
  }

  /**
    The first neighbour, the one the round accepts, is the candidate of the
    first admissible VM in list order and, for that VM, the first admissible host.
   */
  lemma {:induction false} NeighboursFirst(vms: seq<VM>, pms: seq<PM>, best: Placement, tabu: seq<Placement>, i: nat, k: nat)
    requires |best| == |pms|
    requires Admissible(vms, pms, best, tabu, i, k)
    requires forall i2, k2 :: Admissible(vms, pms, best, tabu, i2, k2) ==> i < i2 || (i == i2 && k <= k2)
    ensures Neighbours(vms, pms, best, tabu) != []
    ensures Neighbours(vms, pms, best, tabu)[0].solution == best[k := best[k] + [vms[i]]]
  {
    var n := |vms| - 1;
    var rest := vms[..n];
    assert forall i2 :: 0 <= i2 < n ==> rest[i2] == vms[i2];
    forall i2, k2 | Admissible(rest, pms, best, tabu, i2, k2)
      ensures Admissible(vms, pms, best, tabu, i2, k2)
    {
    }
    if i == n {
      NoAdmissibleNoNeighbour(rest, pms, best, tabu);
      forall h | 0 <= h < k
        ensures !Fits(pms[h], vms[n], best[h]) || best[h := best[h] + [vms[n]]] in tabu
      {
        assert !Admissible(vms, pms, best, tabu, n, h);
      }
      HostMovesFirst(pms, best, tabu, vms[n], |pms|, k);
    } else {
      NeighboursFirst(rest, pms, best, tabu, i, k);
    }
  }

  /**
    All neighbours score the same, so `max` keeps the first one, and the
    round accepts it: it beats the incumbent by one.
   */
  lemma IterateAcceptsFirst(vms: seq<VM>, pms: seq<PM>, tabuSize: int, st: Search)
    requires |st.best| == |pms| && st.score == Score(st.best)
    requires Neighbours(vms, pms, st.best, st.tabu) != []
    ensures var ns := Neighbours(vms, pms, st.best, st.tabu);
      Iterate(vms, pms, tabuSize, st)
        == Search(ns[0].solution, st.score + 1, Remember(st.tabu, ns[0].solution, tabuSize))
  {
    var ns := Neighbours(vms, pms, st.best, st.tabu);
    NeighboursShape(vms, pms, st.best, st.tabu);
    var i := FirstBest(ns);
    assert ns[0].score == ns[i].score;
    if i != 0 {
      assert false;
    }
  }

  /**
    The tabu list is first-in first-out and bounded: the accepted placement
    becomes its newest entry, the entries kept before it are the newest of the
    old ones, and it never grows past `tabuSize` (nor past zero when that is
    negative).
   */
  lemma RememberIsBoundedFifo(tabu: seq<Placement>, accepted: Placement, tabuSize: int)
    requires |tabu| <= TabuBound(tabuSize)
    ensures var r := Remember(tabu, accepted, tabuSize);
      && |r| == (if |tabu| + 1 <= TabuBound(tabuSize) then |tabu| + 1 else TabuBound(tabuSize))
      && (r != [] ==> r[|r| - 1] == accepted && r[..|r| - 1] == tabu[|tabu| - (|r| - 1)..])
  {
    var grown := tabu + [accepted];
    var r := Remember(tabu, accepted, tabuSize);
    if |grown| > tabuSize {
      assert r == grown[1..];
      if r != [] {
        assert |r| == |tabu|;
        assert r[..|r| - 1] == tabu[1..];
      }
    } else {
      assert r == grown;
      assert r[..|r| - 1] == tabu;
    }
  }

  // ---------------------------------------------------------------------------
  // Invariants of the search

  /** Every host's list keeps the feasibility invariant. */
  ghost predicate HostsSafe(pms: seq<PM>, p: Placement)
    requires |p| == |pms|
  {
    forall k :: 0 <= k < |pms| ==> Safe(pms[k], p[k])
  }

  /**
    What every placement the search reaches keeps: one list per host, every
    host's list within the feasibility invariant, VMs of the input at most as
    often as they occur there, and never two VMs of one name.
   */
  ghost predicate Consistent(vms: seq<VM>, pms: seq<PM>, p: Placement)
  {
    && |p| == |pms|
    && HostsSafe(pms, p)
    && multiset(Flatten(p)) <= multiset(vms)
    && UniqueNames(Flatten(p))
  }

  /**
    What holds of every state the search reaches: a consistent placement and
    its score, and a tabu list within its bound that holds no placement
    scoring above the incumbent.
   */
  ghost predicate Good(vms: seq<VM>, pms: seq<PM>, tabuSize: int, st: Search)
  {
    && Consistent(vms, pms, st.best)
    && st.score == Score(st.best)
    && |st.tabu| <= TabuBound(tabuSize)
    && (forall j :: 0 <= j < |st.tabu| ==> Score(st.tabu[j]) <= st.score)
  }

  /** Appending a VM of the input whose name is not placed keeps the VMs of the placement a sub-multiset with unique names. */
  lemma AdmitKeepsNames(vms: seq<VM>, p: Placement, k: nat, v: VM)
    requires k < |p| && v in vms && !Placed(p, v.name)
    requires multiset(Flatten(p)) <= multiset(vms) && UniqueNames(Flatten(p))
    ensures multiset(Flatten(p[k := p[k] + [v]])) <= multiset(vms)
    ensures UniqueNames(Flatten(p[k := p[k] + [v]]))
  {
    var flat := Flatten(p);
    var grown := Flatten(p[k := p[k] + [v]]);
    FlattenAppend(p, k, v);
    assert v !in flat;
    assert multiset(flat)[v] == 0;
    assert v in multiset(vms);
    NameSetOfMultiset(grown, flat + [v]);
    NameSetAppend(flat, v);
    assert |grown| == |multiset(grown)| == |flat| + 1;
  }

  /** An admitted move keeps the placement consistent. */
  lemma AdmitKeepsConsistent(vms: seq<VM>, pms: seq<PM>, p: Placement, sol: Placement)
    requires Consistent(vms, pms, p)
    requires Admits(vms, pms, p, sol)
    ensures Consistent(vms, pms, sol)
  {
    var i, k :| 0 <= i < |vms| && 0 <= k < |pms| == |p|
      && !Placed(p, vms[i].name) && Fits(pms[k], vms[i], p[k])
      && sol == p[k := p[k] + [vms[i]]];
    AdmitKeepsSafe(pms[k], p[k], vms[i]);
    AdmitKeepsNames(vms, p, k, vms[i]);
  }

  /** Remembering the new incumbent keeps the tabu list bounded and below its score. */
  lemma RememberKeepsBelow(tabu: seq<Placement>, sol: Placement, tabuSize: int, score: nat)
    requires |tabu| <= TabuBound(tabuSize)
    requires forall j :: 0 <= j < |tabu| ==> Score(tabu[j]) < score
    requires Score(sol) == score
    ensures |Remember(tabu, sol, tabuSize)| <= TabuBound(tabuSize)
    ensures forall j :: 0 <= j < |Remember(tabu, sol, tabuSize)| ==> Score(Remember(tabu, sol, tabuSize)[j]) <= score
  {
    var grown := tabu + [sol];
    assert forall j :: 0 <= j < |grown| ==> Score(grown[j]) <= score;
  }

  /** Accepting an admitted neighbour keeps the invariant. */
  lemma AcceptKeepsGood(vms: seq<VM>, pms: seq<PM>, tabuSize: int, st: Search, sol: Placement)
    requires Good(vms, pms, tabuSize, st)
    requires Admits(vms, pms, st.best, sol) && Score(sol) == st.score + 1
    ensures Good(vms, pms, tabuSize, Search(sol, st.score + 1, Remember(st.tabu, sol, tabuSize)))
  {
    AdmitKeepsConsistent(vms, pms, st.best, sol);
    RememberKeepsBelow(st.tabu, sol, tabuSize, st.score + 1);
  }

  /** One round keeps the invariant. */
  lemma IterateKeepsGood(vms: seq<VM>, pms: seq<PM>, tabuSize: int, st: Search)
    requires Good(vms, pms, tabuSize, st)
    ensures Good(vms, pms, tabuSize, Iterate(vms, pms, tabuSize, st))
    ensures Iterate(vms, pms, tabuSize, st).score >= st.score
  {
    var ns := Neighbours(vms, pms, st.best, st.tabu);
    if ns != [] {
      IterateAcceptsFirst(vms, pms, tabuSize, st);
      NeighboursShape(vms, pms, st.best, st.tabu);
      AcceptKeepsGood(vms, pms, tabuSize, st, ns[0].solution);
    }
  }

  /** The invariant holds after any number of rounds, and the score never decreases. */
  lemma RunKeepsGood(vms: seq<VM>, pms: seq<PM>, tabuSize: int, st: Search, n: nat)
    requires Good(vms, pms, tabuSize, st)
    ensures Good(vms, pms, tabuSize, Run(vms, pms, tabuSize, st, n))
    ensures Run(vms, pms, tabuSize, st, n).score >= st.score
  {
    assert |st.best| == |pms|;
    for i := 0 to n
      invariant Good(vms, pms, tabuSize, Run(vms, pms, tabuSize, st, i))
      invariant Run(vms, pms, tabuSize, st, i).score >= st.score
    {
      var prev := Run(vms, pms, tabuSize, st, i);
      IterateKeepsGood(vms, pms, tabuSize, prev);
      assert Run(vms, pms, tabuSize, st, i + 1) == Iterate(vms, pms, tabuSize, prev);
    }
  }

  /** The score never exceeds the number of VMs. */
  lemma ScoreBounded(vms: seq<VM>, pms: seq<PM>, tabuSize: int, st: Search)
    requires Good(vms, pms, tabuSize, st)
    ensures st.score <= |vms|
  {
    ScoreCountsAll(st.best);
    var m := multiset(Flatten(st.best));
    assert multiset(vms) == m + (multiset(vms) - m);
    assert |Flatten(st.best)| == |m|;
  }

  lemma {:induction false} HostMovesIgnoreTabu(pms: seq<PM>, best: Placement, tabu: seq<Placement>, vm: VM, n: nat)
    requires |best| == |pms| && n <= |pms|
    requires forall j :: 0 <= j < |tabu| ==> Score(tabu[j]) <= Score(best)
    ensures HostMoves(pms, best, tabu, vm, n) == HostMoves(pms, best, [], vm, n)
  {
    if n > 0 {
      HostMovesIgnoreTabu(pms, best, tabu, vm, n - 1);
      var candidate := best[n - 1 := best[n - 1] + [vm]];
      ScoreAppend(best, n - 1, vm);
      assert forall j :: 0 <= j < |tabu| ==> tabu[j] != candidate;
    }
  }

  /**
    The tabu test never excludes a neighbour: every neighbour scores one above
    the incumbent, and nothing in the tabu list scores above it.
   */
  lemma {:induction false} TabuNeverExcludes(vms: seq<VM>, pms: seq<PM>, best: Placement, tabu: seq<Placement>)
    requires |best| == |pms|
    requires forall j :: 0 <= j < |tabu| ==> Score(tabu[j]) <= Score(best)
    ensures Neighbours(vms, pms, best, tabu) == Neighbours(vms, pms, best, [])
  {
    if vms != [] {
      TabuNeverExcludes(vms[..|vms| - 1], pms, best, tabu);
      HostMovesIgnoreTabu(pms, best, tabu, vms[|vms| - 1], |pms|);
    }
  }

  // ---------------------------------------------------------------------------
  // The search from the greedy placement

  /** The greedy placement, its score and an empty tabu list satisfy the invariant. */
  lemma StartIsGood(vms: seq<VM>, pms: seq<PM>, tabuSize: int)
    requires UniqueNames(vms)
    ensures Good(vms, pms, tabuSize, Start(vms, pms))
  {
    var a := FirstFit(vms, pms);
    FirstFitPartition(vms, pms);
    FirstFitSafe(vms, pms);
    UniqueNamesSplit(vms, Flatten(a.placement), a.unplaced);
  }

  /** With no neighbour to take, the search stays put for any number of rounds. */
  lemma {:induction false} StuckStaysPut(vms: seq<VM>, pms: seq<PM>, tabuSize: int, st: Search, n: nat)
    requires |st.best| == |pms|
    requires Neighbours(vms, pms, st.best, st.tabu) == []
    ensures Run(vms, pms, tabuSize, st, n) == st
  {
    if n > 0 {
      StuckStaysPut(vms, pms, tabuSize, st, n - 1);
    }
  }

  /** No host admits `vm` next to what the placement gives it. */
  ghost predicate Rejected(pms: seq<PM>, p: Placement, vm: VM)
    requires |p| == |pms|
  {
    forall k :: 0 <= k < |pms| ==> !Fits(pms[k], vm, p[k])
  }

  lemma {:induction false} NoHostMoves(pms: seq<PM>, best: Placement, tabu: seq<Placement>, vm: VM, n: nat)
    requires |best| == |pms| && n <= |pms|
    requires Rejected(pms, best, vm)
    ensures HostMoves(pms, best, tabu, vm, n) == []
  {
    if n > 0 {
      NoHostMoves(pms, best, tabu, vm, n - 1);
    }
  }

  /** A placement has no neighbour when every VM is placed by name or rejected by every host. */
  lemma {:induction false} NoNeighbours(vms: seq<VM>, pms: seq<PM>, best: Placement, tabu: seq<Placement>)
    requires |best| == |pms|
    requires forall i :: 0 <= i < |vms| ==> Placed(best, vms[i].name) || Rejected(pms, best, vms[i])
    ensures Neighbours(vms, pms, best, tabu) == []
  {
    if vms != [] {
      var vm := vms[|vms| - 1];
      NoNeighbours(vms[..|vms| - 1], pms, best, tabu);
      if !Placed(best, vm.name) {
        NoHostMoves(pms, best, tabu, vm, |pms|);
      }
    }
  }

  /** Each VM given to the greedy builder ends on a host's list or in the unplaced list. */
  lemma FirstFitCovers(vms: seq<VM>, pms: seq<PM>, v: VM)
    requires v in vms
    ensures v in Flatten(FirstFit(vms, pms).placement) || v in FirstFit(vms, pms).unplaced
  {
    FirstFitPartition(vms, pms);
    assert v in multiset(vms);
  }

  /**
    The greedy placement has no neighbour: every VM is either on a host (so
    its name is placed) or was left out, and then no host admits it.
   */
  lemma GreedyHasNoNeighbour(vms: seq<VM>, pms: seq<PM>, tabu: seq<Placement>)
    ensures Neighbours(vms, pms, FirstFit(vms, pms).placement, tabu) == []
  {
    var a := FirstFit(vms, pms);
    FirstFitRejectsUnplaced(vms, pms);
    forall i | 0 <= i < |vms|
      ensures Placed(a.placement, vms[i].name) || Rejected(pms, a.placement, vms[i])
    {
      FirstFitCovers(vms, pms, vms[i]);
    }
    NoNeighbours(vms, pms, a.placement, tabu);
  }

  /**
    Read through `NeighboursComplete`: at the greedy placement no VM whose
    name is unplaced fits on any host, so no move exists at all.
   */
  lemma GreedyAdmitsNothing(vms: seq<VM>, pms: seq<PM>, tabu: seq<Placement>, i: nat, k: nat)
    ensures !Admissible(vms, pms, FirstFit(vms, pms).placement, tabu, i, k)
  {
    var p := FirstFit(vms, pms).placement;
    GreedyHasNoNeighbour(vms, pms, tabu);
    if Admissible(vms, pms, p, tabu, i, k) {
      NeighboursComplete(vms, pms, p, tabu, i, k);
    }
  }

  /** The search returns the greedy placement and its score, whatever the budget and tabu size. */
  lemma SearchKeepsGreedyPlacement(vms: seq<VM>, pms: seq<PM>, tabuSize: int, n: nat)
    ensures Run(vms, pms, tabuSize, Start(vms, pms), n) == Start(vms, pms)
  {
    GreedyHasNoNeighbour(vms, pms, []);
    StuckStaysPut(vms, pms, tabuSize, Start(vms, pms), n);
  }

  /** The final pass keeps exactly the VMs, in list order, whose names the placement does not use. */
  lemma {:induction false} UnplacedMembers(vms: seq<VM>, p: Placement)
    ensures forall v :: v in Unplaced(vms, p) <==> v in vms && !Placed(p, v.name)
  {
    if vms != [] {
      UnplacedMembers(vms[..|vms| - 1], p);
      assert vms == vms[..|vms| - 1] + [vms[|vms| - 1]];
    }
  }

  lemma {:induction false} UniqueNamesPrefix(s: seq<VM>)
    requires s != [] && UniqueNames(s)
    ensures UniqueNames(s[..|s| - 1]) && s[|s| - 1].name !in NameSet(s[..|s| - 1])
  {
    var t := s[..|s| - 1];
    assert s == t + [s[|s| - 1]];
    NameSetAppend(t, s[|s| - 1]);
    NameSetBound(t);
  }

  lemma AddNameMeets(names: set<string>, x: string, named: set<string>)
    requires x !in names
    ensures |(names + {x}) * named| == |names * named| + (if x in named then 1 else 0)
  {
    if x in named {
      assert (names + {x}) * named == (names * named) + {x};
    } else {
      assert (names + {x}) * named == names * named;
    }
  }

  /** With unique names, the VMs left unplaced are the VMs whose names the placement does not use. */
  lemma {:induction false} UnplacedSize(vms: seq<VM>, p: Placement)
    requires UniqueNames(vms)
    ensures |Unplaced(vms, p)| == |vms| - |NameSet(vms) * NameSet(Flatten(p))|
  {
    if vms != [] {
      var rest := vms[..|vms| - 1];
      var v := vms[|vms| - 1];
      UniqueNamesPrefix(vms);
      UnplacedSize(rest, p);
      assert vms == rest + [v];
      NameSetAppend(rest, v);
      AddNameMeets(NameSet(rest), v.name, NameSet(Flatten(p)));
    }
  }

  /** The names of a consistent placement are names of input VMs. */
  lemma ConsistentNames(vms: seq<VM>, pms: seq<PM>, p: Placement)
    requires Consistent(vms, pms, p)
    ensures NameSet(Flatten(p)) <= NameSet(vms)
  {
    var flat := Flatten(p);
    forall x | x in NameSet(flat) ensures x in NameSet(vms) {
      var v :| v in flat && v.name == x;
      assert v in multiset(flat);
      assert v in multiset(vms);
    }
  }

  /**
    With unique VM names, every reachable state splits the VMs exactly: the
    score plus the number of VMs the final pass reports as unplaced is the
    number of VMs.
   */
  lemma ScorePlusUnplaced(vms: seq<VM>, pms: seq<PM>, tabuSize: int, st: Search)
    requires UniqueNames(vms)
    requires Good(vms, pms, tabuSize, st)
    ensures st.score + |Unplaced(vms, st.best)| == |vms|
  {
    UnplacedSize(vms, st.best);
    ScoreCountsAll(st.best);
    ConsistentNames(vms, pms, st.best);
    assert NameSet(vms) * NameSet(Flatten(st.best)) == NameSet(Flatten(st.best));
  }

  /**
    What `tabu_search` returns, for VMs with unique names: the greedy
    placement, its score, every host's list within capacity at every minute,
    and an unplaced list that makes up the rest of the VMs.
   */
  lemma TabuSearchOutcome(vms: seq<VM>, pms: seq<PM>, tabuSize: int, n: nat)
    requires UniqueNames(vms)
    ensures var r := Run(vms, pms, tabuSize, Start(vms, pms), n);
      && r.best == FirstFit(vms, pms).placement
      && r.score == Score(r.best)
      && r.score + |Unplaced(vms, r.best)| == |vms|
      && forall k :: 0 <= k < |pms| ==> Safe(pms[k], r.best[k])
  {
    SearchKeepsGreedyPlacement(vms, pms, tabuSize, n);
    StartIsGood(vms, pms, tabuSize);
    ScorePlusUnplaced(vms, pms, tabuSize, Start(vms, pms));
  }

  /** Fed VMs in arrival order, the search returns every host's list in arrival order. */
  lemma SearchKeepsArrivalOrder(vms: seq<VM>, pms: seq<PM>, tabuSize: int, n: nat)
    requires Sorting.SortedBy(vms, Arrival)
    ensures forall k :: 0 <= k < |pms| ==>
      Sorting.SortedBy(Run(vms, pms, tabuSize, Start(vms, pms), n).best[k], Arrival)
  {
    SearchKeepsGreedyPlacement(vms, pms, tabuSize, n);
    FirstFitKeepsArrivalOrder(vms, pms);
  }

  // ---------------------------------------------------------------------------
  // Two small scenarios

  /**
    Two 10-unit hosts and two 6-unit VMs whose windows `[0,100)` and
    `[50,150)` overlap: they cannot share a host, so each gets one, and the
    search keeps the score at 2 (whatever the names).
   */
  lemma {:induction false} TwoOverlappingVMs(hostA: string, hostB: string, name1: string, name2: string, tabuSize: int, n: nat)
    ensures var pms := [PM(hostA, 10, 10, 10), PM(hostB, 10, 10, 10)];
      var vms := [VM(name1, 6, 6, 6, 0, 100), VM(name2, 6, 6, 6, 50, 150)];
      && FirstFit(vms, pms) == Allocation([[vms[0]], [vms[1]]], [])
      && Run(vms, pms, tabuSize, Start(vms, pms), n).best == [[vms[0]], [vms[1]]]
      && Run(vms, pms, tabuSize, Start(vms, pms), n).score == 2
  {
    var pms := [PM(hostA, 10, 10, 10), PM(hostB, 10, 10, 10)];
    var v1, v2 := VM(name1, 6, 6, 6, 0, 100), VM(name2, 6, 6, 6, 50, 150);
    var vms := [v1, v2];
    TwoOverlappingGreedy(pms, v1, v2);
    SearchKeepsGreedyPlacement(vms, pms, tabuSize, n);
    var p := [[v1], [v2]];
    assert p[..1] == [[v1]] && p[..1][..0] == [];
    assert Score(p[..1]) == 1;
    assert Score(p) == 2;
    assert Start(vms, pms) == Search(p, 2, []);
  }

  lemma {:induction false} TwoOverlappingGreedy(pms: seq<PM>, v1: VM, v2: VM)
    requires |pms| == 2 && pms[0].cpu == pms[1].cpu == 10 && pms[0].ram == pms[1].ram == 10
    requires pms[0].storage == pms[1].storage == 10
    requires v1.cpu == v1.ram == v1.storage == 6 && v1.arrival == 0 && v1.departure == 100
    requires v2.cpu == v2.ram == v2.storage == 6 && v2.arrival == 50 && v2.departure == 150
    ensures FirstFit([v1, v2], pms) == Allocation([[v1], [v2]], [])
  {
    FirstOfTwo(pms, v1);
    SecondOfTwo(pms, v1, v2);
    assert [v1, v2][..1] == [v1];
  }

  lemma {:induction false} FirstOfTwo(pms: seq<PM>, v1: VM)
    requires |pms| == 2 && pms[0].cpu == 10 && pms[0].ram == 10 && pms[0].storage == 10
    requires v1.cpu == v1.ram == v1.storage == 6
    ensures FirstFit([v1], pms) == Allocation([[v1], []], [])
  {
    var empty := EmptyPlacement(2);
    assert empty == [[], []];
    assert Fits(pms[0], v1, empty[0]);
    assert FirstHost(pms, empty, v1, 0) == Some(0);
    assert [v1][..0] == [];
    assert empty[0] + [v1] == [v1];
  }

  lemma {:induction false} SecondOfTwo(pms: seq<PM>, v1: VM, v2: VM)
    requires |pms| == 2 && pms[0].cpu == pms[1].cpu == 10 && pms[1].ram == 10 && pms[1].storage == 10
    requires v1.cpu == 6 && v1.arrival == 0 && v1.departure == 100
    requires v2.cpu == v2.ram == v2.storage == 6 && v2.arrival == 50 && v2.departure == 150
    ensures Assign(pms, Allocation([[v1], []], []), v2) == Allocation([[v1], [v2]], [])
  {
    var p1: Placement := [[v1], []];
    assert [v1][..0] == [];
    assert OverlapDemand(v2, [v1], Cpu) == 6;
    assert !Fits(pms[0], v2, p1[0]);
    assert Fits(pms[1], v2, p1[1]);
    assert FirstHost(pms, p1, v2, 1) == Some(1);
    assert FirstHost(pms, p1, v2, 0) == Some(1);
    assert p1[1] + [v2] == [v2];
  }

  /** A VM larger than the only host ends up unplaced, with score 0. */
  lemma OversizedVM(n: nat)
    ensures var pms := [PM("PM_1", 5, 10, 10)];
      var vms := [VM("VM_1", 10, 1, 1, 0, 10)];
      && FirstFit(vms, pms) == Allocation([[]], vms)
      && Run(vms, pms, 10, Start(vms, pms), n).score == 0
      && Unplaced(vms, Run(vms, pms, 10, Start(vms, pms), n).best) == vms
  {
    var pms := [PM("PM_1", 5, 10, 10)];
    var v := VM("VM_1", 10, 1, 1, 0, 10);
    var vms := [v];
    assert vms[..0] == [];
    assert !Fits(pms[0], v, []);
    var empty: Placement := [[]];
    assert FirstHost(pms, empty, v, 0) == None;
    SearchKeepsGreedyPlacement(vms, pms, 10, n);
    assert empty[..0] == [];
    assert !Placed(empty, v.name);
  }
}
