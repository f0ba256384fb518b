/**
  The records the placement engine works on: physical machines (hosts) with a
  fixed capacity, and virtual machines with a demand and a time window.
  Both are plain lists in `Optimisation_TB.py` (`[name, cpu, ram, storage]` and
  `[name, cpu, ram, storage, arrival, departure]`); here they are datatypes.
 */
module Machines {

  datatype Option<T> = None | Some(value: T)

  /** The three resource dimensions every capacity test looks at. */
  datatype Resource = Cpu | Ram | Storage

  /** A physical machine: a host with a fixed capacity on each resource. */
  datatype PM = PM(name: string, cpu: nat, ram: nat, storage: nat)
  {
    function Capacity(r: Resource): nat
    {
      match r
      case Cpu => cpu
      case Ram => ram
      case Storage => storage
    }
  }

  /** A virtual machine: a demand on each resource, held over a window of minutes. */
  datatype VM = VM(name: string, cpu: nat, ram: nat, storage: nat, arrival: int, departure: int)
  {
    function Demand(r: Resource): nat
    {
      match r
      case Cpu => cpu
      case Ram => ram
      case Storage => storage
    }

    /** The window is not reversed; the Python generator guarantees this. */
    predicate WellFormed()
    {
      arrival <= departure
    }
  }

  /** VM lists assigned to hosts, position k holding the list of the k-th host. */
  type Placement = seq<seq<VM>>

  /** The names of a VM list, in list order (`[vm[0] for vm in vms]`). */
  function Names(s: seq<VM>): (ns: seq<string>)
    ensures |ns| == |s|
    ensures forall i :: 0 <= i < |s| ==> ns[i] == s[i].name
  {
    if s == [] then [] else Names(s[..|s| - 1]) + [s[|s| - 1].name]
  }

  /** The set of names occurring in a VM list. */
  function NameSet(s: seq<VM>): set<string>
  {
    set v | v in s :: v.name
  }

  /** No two entries of the list share a name (names are identities in the Python engine). */
  predicate UniqueNames(s: seq<VM>)
  {
    |NameSet(s)| == |s|
  }

  predicate DistinctHosts(pms: seq<PM>)
  {
    forall i, j :: 0 <= i < j < |pms| ==> pms[i].name != pms[j].name
  }

  /** A name is in the list of names exactly when some entry carries it. */
  lemma NameInNames(s: seq<VM>, name: string)
    ensures name in Names(s) <==> name in NameSet(s)
  {
    if name in Names(s) {
      var i :| 0 <= i < |s| && Names(s)[i] == name;
      assert s[i] in s;
    }
    if name in NameSet(s) {
      var v :| v in s && v.name == name;
      var i :| 0 <= i < |s| && s[i] == v;
      assert Names(s)[i] == name;
    }
  }

  lemma NameSetAppend(s: seq<VM>, v: VM)
    ensures NameSet(s + [v]) == NameSet(s) + {v.name}
  {
    assert forall x :: x in s + [v] <==> x in s || x == v;
  }

  /** A list has at most as many distinct names as entries. */
  lemma {:induction false} NameSetBound(s: seq<VM>)
    ensures |NameSet(s)| <= |s|
  {
    if s != [] {
      var t := s[..|s| - 1];
      assert s == t + [s[|s| - 1]];
      NameSetAppend(t, s[|s| - 1]);
      NameSetBound(t);
    }
  }

  /** Two lists with the same elements, counted with multiplicity, have the same names. */
  lemma NameSetOfMultiset(a: seq<VM>, b: seq<VM>)
    requires multiset(a) == multiset(b)
    ensures NameSet(a) == NameSet(b)
    ensures UniqueNames(a) <==> UniqueNames(b)
  {
    assert forall v :: v in a <==> v in multiset(a);
    assert forall v :: v in b <==> v in multiset(b);
    assert |a| == |multiset(a)|;
    assert |b| == |multiset(b)|;
  }

  /**
    When the entries of a list with unique names are split into two lists,
    both parts have unique names and no name occurs in both.
   */
  lemma {:induction false} UniqueNamesSplit(s: seq<VM>, a: seq<VM>, b: seq<VM>)
    requires multiset(a) + multiset(b) == multiset(s)
    requires UniqueNames(s)
    ensures UniqueNames(a) && UniqueNames(b)
    ensures NameSet(a) !! NameSet(b)
  {
    assert forall v :: v in s <==> v in multiset(s);
    assert forall v :: v in a <==> v in multiset(a);
    assert forall v :: v in b <==> v in multiset(b);
    assert NameSet(s) == NameSet(a) + NameSet(b);
    assert |s| == |multiset(s)| == |multiset(a)| + |multiset(b)| == |a| + |b|;
    NameSetBound(a);
    NameSetBound(b);
    assert |NameSet(a) + NameSet(b)| == |NameSet(a)| + |NameSet(b)| - |NameSet(a) * NameSet(b)|;
    assert |NameSet(a) * NameSet(b)| == 0;
    assert NameSet(a) * NameSet(b) == {};
    forall n | n in NameSet(a) ensures n !in NameSet(b) {
      assert n !in NameSet(a) * NameSet(b);
    }
  }
}
