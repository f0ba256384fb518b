/**
  The score of a placement (`evaluate`) and the "is this VM placed" test the
  search uses, which looks a VM up by name in every host's list.
 */
module Scoring {
  import opened Machines

  /** `evaluate`: the lengths of all hosts' lists, summed. */
  function Score(p: Placement): (r: nat)
    ensures r == 0 <==> forall k :: 0 <= k < |p| ==> p[k] == []
  {
    if p == [] then 0 else Score(p[..|p| - 1]) + |p[|p| - 1]|
  }

  /** All VMs of a placement, host after host. */
  function Flatten(p: Placement): seq<VM>
  {
    if p == [] then [] else Flatten(p[..|p| - 1]) + p[|p| - 1]
  }

  /** Some host's list holds a VM of this name (the search's `any(vm[0] in [...] ...)`). */
  predicate Placed(p: Placement, name: string)
    ensures Placed(p, name) <==> name in NameSet(Flatten(p))
  {
    NamedOnSomeHost(p, name);
    exists k :: 0 <= k < |p| && name in Names(p[k])
  }

  /** The score counts every placed VM exactly once. */
  lemma {:induction false} ScoreCountsAll(p: Placement)
    ensures Score(p) == |Flatten(p)|
  {
    if p != [] {
      ScoreCountsAll(p[..|p| - 1]);
    }
  }

  /** Appending a VM to one host's list adds exactly that VM to the placement. */
  lemma {:induction false} FlattenAppend(p: Placement, k: nat, v: VM)
    requires k < |p|
    ensures multiset(Flatten(p[k := p[k] + [v]])) == multiset(Flatten(p)) + multiset{v}
  {
    var q := p[k := p[k] + [v]];
    var n := |p| - 1;
    if k == n {
      assert q[..n] == p[..n];
    } else {
      assert q[..n] == p[..n][k := p[k] + [v]];
      FlattenAppend(p[..n], k, v);
    }
  }

  /** Appending a VM to one host's list raises the score by exactly one. */
  lemma ScoreAppend(p: Placement, k: nat, v: VM)
    requires k < |p|
    ensures Score(p[k := p[k] + [v]]) == Score(p) + 1
  {
    FlattenAppend(p, k, v);
    ScoreCountsAll(p);
    ScoreCountsAll(p[k := p[k] + [v]]);
    assert |multiset(Flatten(p[k := p[k] + [v]]))| == |multiset(Flatten(p))| + 1;
  }

  lemma NameSetConcat(a: seq<VM>, b: seq<VM>)
    ensures NameSet(a + b) == NameSet(a) + NameSet(b)
  {
    assert forall v :: v in a + b <==> v in a || v in b;
  }

  /** A name is on some host's list exactly when it is among the names of the flattened placement. */
  lemma {:induction false} NamedOnSomeHost(p: Placement, name: string)
    ensures (exists k :: 0 <= k < |p| && name in Names(p[k])) <==> name in NameSet(Flatten(p))
  {
    if p != [] {
      var n := |p| - 1;
      var q := p[..n];
      NamedOnSomeHost(q, name);
      assert Flatten(p) == Flatten(q) + p[n];
      NameSetConcat(Flatten(q), p[n]);
      NameInNames(p[n], name);
      if name in NameSet(Flatten(p)) {
        if name in NameSet(Flatten(q)) {
          var k :| 0 <= k < n && name in Names(q[k]);
          assert name in Names(p[k]);
        } else {
          assert name in Names(p[n]);
        }
      } else {
        forall k | 0 <= k < |p|
          ensures name !in Names(p[k])
        {
          if k < n {
            assert q[k] == p[k];
          }
        }
      }
    }
  }

  /** A VM is in the flattened placement exactly when it is on some host's list. */
  lemma {:induction false} InFlatten(p: Placement, v: VM)
    ensures v in Flatten(p) <==> exists k :: 0 <= k < |p| && v in p[k]
  {
    if p != [] {
      var n := |p| - 1;
      var q := p[..n];
      InFlatten(q, v);
      assert Flatten(p) == Flatten(q) + p[n];
      if v in Flatten(p) {
        if v in Flatten(q) {
          var k :| 0 <= k < n && v in q[k];
          assert v in p[k];
        } else {
          assert v in p[n];
        }
      } else {
        forall k | 0 <= k < |p|
          ensures v !in p[k]
        {
          if k < n {
            assert q[k] == p[k];
          }
        }
      }
    }
  }
}
