/**
  The utilisation report (`calculate_resource_usage`). For each host it turns
  every VM on the host into an arrival event and a departure event, sorts the
  events by time (stably), sweeps them while keeping running totals, and
  reports the highest total reached on each resource, the capacities, the VM
  names and the peaks as percentages of capacity.
 */
module Usage {
  import opened Machines
  import opened Capacity
  import Greedy
  import Sorting

  datatype EventKind = Arrive | Depart

  /** A timeline entry: when it happens, which edge of a window it is, and the VM's demand. */
  datatype Event = Event(time: int, kind: EventKind, cpu: nat, ram: nat, storage: nat)
  {
    function Amount(r: Resource): nat
    {
      match r
      case Cpu => cpu
      case Ram => ram
      case Storage => storage
    }

    /** What the event does to the running total: an arrival adds the demand, a departure takes it off. */
    function Delta(r: Resource): int
    {
      if kind == Arrive then Amount(r) as int else -(Amount(r) as int)
    }
  }

  /** The sort key of the timeline. */
  function Time(e: Event): int
  {
    e.time
  }

  function ArrivalEvent(v: VM): Event
  {
    Event(v.arrival, Arrive, v.cpu, v.ram, v.storage)
  }

  function DepartureEvent(v: VM): Event
  {
    Event(v.departure, Depart, v.cpu, v.ram, v.storage)
  }

  /** The unsorted timeline: each VM's arrival event followed by its departure event, in list order. */
  function Timeline(vms: seq<VM>): (evs: seq<Event>)
    ensures |evs| == 2 * |vms|
  {
    if vms == [] then []
    else
      var v := vms[|vms| - 1];
      Timeline(vms[..|vms| - 1]) + [ArrivalEvent(v), DepartureEvent(v)]
  }

  /** The running total on `r` after the events of `evs`. */
  function Level(evs: seq<Event>, r: Resource): int
  {
    if evs == [] then 0 else Level(evs[..|evs| - 1], r) + evs[|evs| - 1].Delta(r)
  }

  function Max(a: int, b: int): int
  {
    if a < b then b else a
  }

  /** The highest running total seen on `r`, starting from 0, while sweeping `evs` in order. */
  function Peak(evs: seq<Event>, r: Resource): int
  {
    if evs == [] then 0 else Max(Peak(evs[..|evs| - 1], r), Level(evs, r))
  }

  /** A peak as a percentage of capacity, clamped at 100, and 0 for a host without capacity. */
  function Percent(used: int, capacity: nat): (r: real)
    ensures r <= 100.0
    ensures capacity == 0 ==> r == 0.0
    ensures used >= 0 ==> r >= 0.0
  {
    if capacity > 0 then
      var p := used as real / capacity as real * 100.0;
      if p < 100.0 then p else 100.0
    else 0.0
  }

  /** The entry of the report for one host. */
  datatype Report = Report(
    cpuPercent: real, ramPercent: real, storagePercent: real,
    vms: seq<string>,
    maxCpu: nat, maxRam: nat, maxStorage: nat,
    usedCpu: int, usedRam: int, usedStorage: int)
  {
    function Used(r: Resource): int
    {
      match r
      case Cpu => usedCpu
      case Ram => usedRam
      case Storage => usedStorage
    }

    function Capacity(r: Resource): nat
    {
      match r
      case Cpu => maxCpu
      case Ram => maxRam
      case Storage => maxStorage
    }

    function PercentOf(r: Resource): real
    {
      match r
      case Cpu => cpuPercent
      case Ram => ramPercent
      case Storage => storagePercent
    }
  }

  /** The timeline of `vms` in the order the sweep visits it. */
  function SweepOrder(vms: seq<VM>): seq<Event>
  {
    Sorting.InsertionSort(Timeline(vms), Time)
  }

  /** The report the Python engine builds for host `pm` carrying `vms`. */
  function UsageOf(pm: PM, vms: seq<VM>): Report
  {
    var evs := SweepOrder(vms);
    Report(
      Percent(Peak(evs, Cpu), pm.cpu), Percent(Peak(evs, Ram), pm.ram), Percent(Peak(evs, Storage), pm.storage),
      Names(vms),
      pm.cpu, pm.ram, pm.storage,
      Peak(evs, Cpu), Peak(evs, Ram), Peak(evs, Storage))
  }

  /** The whole report, keyed by host name, a later host overwriting an earlier one of the same name. */
  function UsageMap(placement: Placement, pms: seq<PM>): map<string, Report>
    requires |placement| == |pms|
  {
    if pms == [] then map[]
    else
      var n := |pms| - 1;
      UsageMap(placement[..n], pms[..n])[pms[n].name := UsageOf(pms[n], placement[n])]
  }

  /** The first loop of the per-host body: two events per VM, in list order. */
  method BuildTimeline(vms: seq<VM>) returns (timeline: seq<Event>)
    ensures timeline == Timeline(vms)
  {
    timeline := [];
    for i := 0 to |vms|
      invariant timeline == Timeline(vms[..i])
    {
      var vm := vms[i];
      assert vms[..i + 1][..i] == vms[..i];
      timeline := timeline + [Event(vm.arrival, Arrive, vm.cpu, vm.ram, vm.storage)];
      timeline := timeline + [Event(vm.departure, Depart, vm.cpu, vm.ram, vm.storage)];
    }
    assert vms[..|vms|] == vms;
  }

  /** The sweep: running totals over the sorted events, and the highest total seen on each resource. */
  method PeakTotals(events: array<Event>) returns (maxObservedCpu: int, maxObservedRam: int, maxObservedStorage: int)
    ensures maxObservedCpu == Peak(events[..], Cpu)
    ensures maxObservedRam == Peak(events[..], Ram)
    ensures maxObservedStorage == Peak(events[..], Storage)
  {
    var currentCpu, currentRam, currentStorage := 0, 0, 0;
    maxObservedCpu, maxObservedRam, maxObservedStorage := 0, 0, 0;
    for i := 0 to events.Length
      invariant currentCpu == Level(events[..i], Cpu)
      invariant currentRam == Level(events[..i], Ram)
      invariant currentStorage == Level(events[..i], Storage)
      invariant maxObservedCpu == Peak(events[..i], Cpu)
      invariant maxObservedRam == Peak(events[..i], Ram)
      invariant maxObservedStorage == Peak(events[..i], Storage)
    {
      var event := events[i];
      assert events[..i + 1][..i] == events[..i];
      if event.kind == Arrive {
        currentCpu := currentCpu + event.cpu;
        currentRam := currentRam + event.ram;
        currentStorage := currentStorage + event.storage;
      } else {
        currentCpu := currentCpu - event.cpu;
        currentRam := currentRam - event.ram;
        currentStorage := currentStorage - event.storage;
      }
      maxObservedCpu := Max(maxObservedCpu, currentCpu);
      maxObservedRam := Max(maxObservedRam, currentRam);
      maxObservedStorage := Max(maxObservedStorage, currentStorage);
    }
    assert events[..events.Length] == events[..];
  }

  /** The body of the per-host loop: build the timeline, sort it in place, sweep it, fill in the entry. */
  method HostUsage(pm: PM, vms: seq<VM>) returns (report: Report)
    ensures report == UsageOf(pm, vms)
  {
    var timeline := BuildTimeline(vms);
    var events := new Event[|timeline|](j requires 0 <= j < |timeline| => timeline[j]);
    assert events[..] == timeline;
    Sorting.SortBy(events, Time);
    var usedCpu, usedRam, usedStorage := PeakTotals(events);
    report := Report(
      Percent(usedCpu, pm.cpu), Percent(usedRam, pm.ram), Percent(usedStorage, pm.storage),
      Names(vms),
      pm.cpu, pm.ram, pm.storage,
      usedCpu, usedRam, usedStorage);
  }

  /** `calculate_resource_usage`: one report entry per host, keyed by the host's name. */
  method ResourceUsage(placement: Placement, pms: seq<PM>) returns (usage: map<string, Report>)
    requires |placement| == |pms|
    ensures usage == UsageMap(placement, pms)
  {
    usage := map[];
    for k := 0 to |pms|
      invariant usage == UsageMap(placement[..k], pms[..k])
    {
      assert placement[..k + 1][..k] == placement[..k] && pms[..k + 1][..k] == pms[..k];
      var report := HostUsage(pms[k], placement[k]);
      usage := usage[pms[k].name := report];
    }
    assert placement[..|pms|] == placement && pms[..|pms|] == pms;
  }

  // ---------------------------------------------------------------------------
  // The report map

  /** The report has an entry for exactly the hosts' names. */
  lemma {:induction false} UsageMapKeys(placement: Placement, pms: seq<PM>)
    requires |placement| == |pms|
    ensures UsageMap(placement, pms).Keys == set pm | pm in pms :: pm.name
  {
    if pms != [] {
      var n := |pms| - 1;
      UsageMapKeys(placement[..n], pms[..n]);
      assert forall pm :: pm in pms <==> pm in pms[..n] || pm == pms[n];
    }
  }

  /** With distinct host names, the entry under a host's name is that host's report. */
  lemma {:induction false} UsageMapLookup(placement: Placement, pms: seq<PM>)
    requires |placement| == |pms| && DistinctHosts(pms)
    ensures forall k :: 0 <= k < |pms| ==>
      pms[k].name in UsageMap(placement, pms) && UsageMap(placement, pms)[pms[k].name] == UsageOf(pms[k], placement[k])
  {
    if pms != [] {
      var n := |pms| - 1;
      UsageMapLookup(placement[..n], pms[..n]);
      forall k | 0 <= k < n
        ensures UsageMap(placement, pms)[pms[k].name] == UsageOf(pms[k], placement[k])
      {
        assert pms[..n][k] == pms[k] && placement[..n][k] == placement[k];
      }
    }
  }

  // ---------------------------------------------------------------------------
  // Running totals

  lemma {:induction false} LevelConcat(a: seq<Event>, b: seq<Event>, r: Resource)
    ensures Level(a + b, r) == Level(a, r) + Level(b, r)
  {
    if b == [] {
      assert a + b == a;
    } else {
      var b' := b[..|b| - 1];
      assert (a + b)[..|a + b| - 1] == a + b';
      LevelConcat(a, b', r);
    }
  }

  /** Every VM adds its demand at its arrival and takes it off at its departure, so the unsorted timeline balances. */
  lemma {:induction false} TimelineBalances(vms: seq<VM>, r: Resource)
    ensures Level(Timeline(vms), r) == 0
  {
    if vms != [] {
      var v := vms[|vms| - 1];
      TimelineBalances(vms[..|vms| - 1], r);
      LevelConcat(Timeline(vms[..|vms| - 1]), [ArrivalEvent(v), DepartureEvent(v)], r);
      assert [ArrivalEvent(v), DepartureEvent(v)][..1] == [ArrivalEvent(v)];
      assert [ArrivalEvent(v)][..0] == [];
      assert Level([ArrivalEvent(v)], r) == v.Demand(r);
    }
  }

  lemma LevelInsert(s: seq<Event>, x: Event, r: Resource)
    ensures Level(Sorting.Insert(s, x, Time), r) == Level(s, r) + x.Delta(r)
  {
    var k := Sorting.InsertPos(s, x, Time);
    assert s == s[..k] + s[k..];
    LevelConcat(s[..k] + [x], s[k..], r);
    LevelConcat(s[..k], [x], r);
    LevelConcat(s[..k], s[k..], r);
    assert [x][..0] == [];
  }

  /** Sorting does not change the final total. */
  lemma {:induction false} LevelSort(s: seq<Event>, r: Resource)
    ensures Level(Sorting.InsertionSort(s, Time), r) == Level(s, r)
  {
    if s != [] {
      LevelSort(s[..|s| - 1], r);
      LevelInsert(Sorting.InsertionSort(s[..|s| - 1], Time), s[|s| - 1], r);
    }
  }

  /** The sweep's running totals finish at 0 on every resource. */
  lemma SweepBalances(vms: seq<VM>, r: Resource)
    ensures Level(SweepOrder(vms), r) == 0
  {
    LevelSort(Timeline(vms), r);
    TimelineBalances(vms, r);
  }

  /** Every prefix of the sweep has a non-negative running total. */
  ghost predicate NeverNegative(evs: seq<Event>, r: Resource)
  {
    forall j :: 0 <= j <= |evs| ==> Level(evs[..j], r) >= 0
  }

  /** The running totals over a list with `x` inserted at position `k`, in terms of the list without it. */
  lemma LevelAroundInsert(s: seq<Event>, x: Event, k: nat, j: nat, r: Resource)
    requires k <= |s| && j <= |s| + 1
    ensures var t := s[..k] + [x] + s[k..];
      Level(t[..j], r) == if j <= k then Level(s[..j], r) else Level(s[..j - 1], r) + x.Delta(r)
  {
    var t := s[..k] + [x] + s[k..];
    if j <= k {
      assert t[..j] == s[..j];
    } else {
      assert t[..j] == (s[..k] + [x]) + s[k..j - 1];
      assert s[..j - 1] == s[..k] + s[k..j - 1];
      LevelConcat(s[..k] + [x], s[k..j - 1], r);
      LevelConcat(s[..k], [x], r);
      LevelConcat(s[..k], s[k..j - 1], r);
      assert [x][..0] == [];
    }
  }

  /**
    Inserting a VM's arrival event and then its departure event, by time, into
    a list whose running totals never go negative keeps them non-negative: the
    departure lands after the arrival, so the demand it takes off was added
    before.
   */
  lemma InsertWindow(s: seq<Event>, v: VM, r: Resource)
    requires v.WellFormed() && NeverNegative(s, r)
    ensures NeverNegative(Sorting.Insert(Sorting.Insert(s, ArrivalEvent(v), Time), DepartureEvent(v), Time), r)
  {
    var s2 := Sorting.Insert(Sorting.Insert(s, ArrivalEvent(v), Time), DepartureEvent(v), Time);
    DepartureAfterArrival(s, v);
    forall j | 0 <= j <= |s2| ensures Level(s2[..j], r) >= 0 {
      WindowPrefix(s, v, r, j);
    }
  }

  /** A VM's departure event is inserted after its arrival event. */
  lemma DepartureAfterArrival(s: seq<Event>, v: VM)
    requires v.WellFormed()
    ensures Sorting.InsertPos(s, ArrivalEvent(v), Time)
      < Sorting.InsertPos(Sorting.Insert(s, ArrivalEvent(v), Time), DepartureEvent(v), Time)
  {
    var a, d := ArrivalEvent(v), DepartureEvent(v);
    var k1 := Sorting.InsertPos(s, a, Time);
    var s1 := Sorting.Insert(s, a, Time);
    Sorting.InsertPosSplits(s1, d, Time);
    assert s1[k1] == a;
  }

  /** One prefix of the list with a VM's two events inserted keeps a non-negative total. */
  lemma WindowPrefix(s: seq<Event>, v: VM, r: Resource, j: nat)
    requires NeverNegative(s, r)
    requires Sorting.InsertPos(s, ArrivalEvent(v), Time)
      < Sorting.InsertPos(Sorting.Insert(s, ArrivalEvent(v), Time), DepartureEvent(v), Time)
    requires j <= |s| + 2
    ensures Level(Sorting.Insert(Sorting.Insert(s, ArrivalEvent(v), Time), DepartureEvent(v), Time)[..j], r) >= 0
  {
    var a, d := ArrivalEvent(v), DepartureEvent(v);
    var k1 := Sorting.InsertPos(s, a, Time);
    var s1 := Sorting.Insert(s, a, Time);
    var k2 := Sorting.InsertPos(s1, d, Time);
    LevelAroundInsert(s1, d, k2, j, r);
    if j <= k2 {
      LevelAroundInsert(s, a, k1, j, r);
      if j > k1 {
        assert Level(s[..j - 1], r) >= 0;
      } else {
        assert Level(s[..j], r) >= 0;
      }
    } else {
      LevelAroundInsert(s, a, k1, j - 1, r);
      assert Level(s[..j - 2], r) >= 0;
    }
  }

  /** With well-formed windows, the sweep's running totals never go negative. */
  lemma {:induction false} SweepNeverNegative(vms: seq<VM>, r: Resource)
    requires forall v :: v in vms ==> v.WellFormed()
    ensures NeverNegative(SweepOrder(vms), r)
  {
    if vms == [] {
      assert SweepOrder(vms) == [];
    } else {
      var rest := vms[..|vms| - 1];
      var v := vms[|vms| - 1];
      var t := Timeline(rest);
      SweepNeverNegative(rest, r);
      assert Timeline(vms) == t + [ArrivalEvent(v), DepartureEvent(v)];
      assert (t + [ArrivalEvent(v), DepartureEvent(v)])[..|t| + 1] == t + [ArrivalEvent(v)];
      assert (t + [ArrivalEvent(v)])[..|t|] == t;
      var a, d := ArrivalEvent(v), DepartureEvent(v);
      assert Sorting.InsertionSort(t + [a], Time) == Sorting.Insert(Sorting.InsertionSort(t, Time), a, Time);
      assert Sorting.InsertionSort(t + [a, d], Time) == Sorting.Insert(Sorting.InsertionSort(t + [a], Time), d, Time);
      assert SweepOrder(vms) == Sorting.Insert(Sorting.Insert(SweepOrder(rest), ArrivalEvent(v), Time), DepartureEvent(v), Time);
      InsertWindow(SweepOrder(rest), v, r);
    }
  }

  // ---------------------------------------------------------------------------
  // Peaks

  /** The peak is the highest running total over all prefixes, the empty one included. */
  lemma {:induction false} PeakIsMaxPrefix(evs: seq<Event>, r: Resource)
    ensures forall j :: 0 <= j <= |evs| ==> Level(evs[..j], r) <= Peak(evs, r)
    ensures exists j :: 0 <= j <= |evs| && Level(evs[..j], r) == Peak(evs, r)
  {
    if evs == [] {
      assert Level(evs[..0], r) == 0;
    } else {
      var n := |evs| - 1;
      PeakIsMaxPrefix(evs[..n], r);
      forall j | 0 <= j <= |evs| ensures Level(evs[..j], r) <= Peak(evs, r) {
        if j <= n {
          assert evs[..n][..j] == evs[..j];
        } else {
          assert evs[..j] == evs;
        }
      }
      if Peak(evs, r) == Level(evs, r) {
        assert evs[..|evs|] == evs;
      } else {
        var j :| 0 <= j <= n && Level(evs[..n][..j], r) == Peak(evs[..n], r);
        assert evs[..n][..j] == evs[..j];
      }
    }
  }

  /** A VM's arrival event occurs in the sweep. */
  lemma ArrivalInSweepOrder(vms: seq<VM>, v: VM)
    requires v in vms
    ensures ArrivalEvent(v) in SweepOrder(vms)
  {
    Sorting.SortPermutes(Timeline(vms), Time);
    ArrivalInTimeline(vms, v);
    assert ArrivalEvent(v) in multiset(Timeline(vms));
  }

  lemma {:induction false} ArrivalInTimeline(vms: seq<VM>, v: VM)
    requires v in vms
    ensures ArrivalEvent(v) in Timeline(vms)
  {
    var rest := vms[..|vms| - 1];
    var last := vms[|vms| - 1];
    assert vms == rest + [last];
    if v != last {
      ArrivalInTimeline(rest, v);
    }
    assert Timeline(vms)[|Timeline(rest)|] == ArrivalEvent(last);
  }

  /**
    The report's peaks: never negative, and, with well-formed windows, at
    least the demand of every VM on the host (the total right after its
    arrival includes it, and the totals before never go negative).
   */
  lemma PeakCoversEachVM(vms: seq<VM>, r: Resource)
    requires forall v :: v in vms ==> v.WellFormed()
    ensures Peak(SweepOrder(vms), r) >= 0
    ensures forall v :: v in vms ==> Peak(SweepOrder(vms), r) >= v.Demand(r)
  {
    var evs := SweepOrder(vms);
    PeakIsMaxPrefix(evs, r);
    assert Level(evs[..0], r) == 0;
    SweepNeverNegative(vms, r);
    forall v | v in vms ensures Peak(evs, r) >= v.Demand(r) {
      ArrivalInSweepOrder(vms, v);
      var j :| 0 <= j < |evs| && evs[j] == ArrivalEvent(v);
      assert evs[..j + 1][..j] == evs[..j];
      assert Level(evs[..j + 1], r) == Level(evs[..j], r) + v.Demand(r);
    }
  }

  // ---------------------------------------------------------------------------
  // Percentages

  /**
    The percentage is 0 without capacity, never above 100, never negative for
    a non-negative peak, and, for a peak within capacity, exactly the peak's
    share of the capacity (the clamp does not bite).
   */
  lemma PercentBounds(used: int, capacity: nat)
    ensures capacity == 0 ==> Percent(used, capacity) == 0.0
    ensures Percent(used, capacity) <= 100.0
    ensures used >= 0 ==> Percent(used, capacity) >= 0.0
    ensures 0 <= used <= capacity && capacity > 0 ==> Percent(used, capacity) == used as real / capacity as real * 100.0
    ensures capacity > 0 && used >= capacity ==> Percent(used, capacity) == 100.0
  {
    if capacity > 0 {
      var c := capacity as real;
      var u := used as real;
      if 0 <= used <= capacity {
        assert u / c <= 1.0;
      }
      if used >= capacity {
        assert u / c >= 1.0;
      }
      if used >= 0 {
        assert u / c >= 0.0;
      }
    }
  }

  /**
    What the report says about one host: the capacities and VM names echo the
    inputs, the peaks are at least every VM's demand, and the totals finish at
    0.
   */
  lemma UsageOfHost(pm: PM, vms: seq<VM>, r: Resource)
    requires forall v :: v in vms ==> v.WellFormed()
    ensures UsageOf(pm, vms).Capacity(r) == pm.Capacity(r)
    ensures |UsageOf(pm, vms).vms| == |vms|
    ensures forall i :: 0 <= i < |vms| ==> UsageOf(pm, vms).vms[i] == vms[i].name
    ensures UsageOf(pm, vms).Used(r) >= 0
    ensures forall v :: v in vms ==> UsageOf(pm, vms).Used(r) >= v.Demand(r)
    ensures UsageOf(pm, vms).PercentOf(r) <= 100.0
    ensures UsageOf(pm, vms).Used(r) <= pm.Capacity(r) && pm.Capacity(r) > 0 ==>
      UsageOf(pm, vms).PercentOf(r) == UsageOf(pm, vms).Used(r) as real / pm.Capacity(r) as real * 100.0
    ensures Level(SweepOrder(vms), r) == 0
  {
    PeakCoversEachVM(vms, r);
    PercentBounds(UsageOf(pm, vms).Used(r), pm.Capacity(r));
    SweepBalances(vms, r);
  }

  // ---------------------------------------------------------------------------
  // Ties in the sweep

  /**
    The sweep orders events by time alone and keeps list order among equal
    times, so when a VM arriving at minute 10 is listed before a VM leaving at
    minute 10, the arrival is counted before the departure. Here the two VMs
    are never active at the same minute and never use more than 6 CPU
    together, yet the reported CPU peak is 12, above the host's 10.
   */
  lemma SweepCountsTouchingWindows()
    ensures var pm := PM("PM_1", 10, 10, 10);
      var a := VM("VM_a", 6, 0, 0, 0, 10);
      var b := VM("VM_b", 6, 0, 0, 10, 20);
      && Safe(pm, [b, a])
      && UsageOf(pm, [b, a]).usedCpu == 12
  {
    var pm := PM("PM_1", 10, 10, 10);
    var a := VM("VM_a", 6, 0, 0, 0, 10);
    var b := VM("VM_b", 6, 0, 0, 10, 20);
    TieOrder(a, b);
    var evs := [ArrivalEvent(a), ArrivalEvent(b), DepartureEvent(a), DepartureEvent(b)];
    assert evs[..3][..2] == evs[..2];
    assert evs[..2][..1] == evs[..1];
    assert evs[..1][..0] == [];
    assert Level(evs[..1], Cpu) == 6;
    assert Peak(evs[..1], Cpu) == 6;
    assert Level(evs[..2], Cpu) == 12;
    assert Peak(evs[..2], Cpu) == 12;
    assert Level(evs[..3], Cpu) == 6;
    assert Peak(evs[..3], Cpu) == 12;
    assert evs[..4] == evs;
    forall t: int, r: Resource
      ensures LoadAt([b, a], t, r) <= pm.Capacity(r)
    {
      assert [b, a][..1] == [b];
      assert [b][..0] == [];
      assert LoadAt([b], t, r) == (if ActiveAt(b, t) then b.Demand(r) else 0);
    }
  }

  /** The order in which the sweep visits the events of the example above. */
  lemma TieOrder(a: VM, b: VM)
    requires a.arrival < b.arrival == a.departure < b.departure
    ensures SweepOrder([b, a]) == [ArrivalEvent(a), ArrivalEvent(b), DepartureEvent(a), DepartureEvent(b)]
  {
    var aA, aD, bA, bD := ArrivalEvent(a), DepartureEvent(a), ArrivalEvent(b), DepartureEvent(b);
    assert [b, a][..1] == [b];
    assert [b][..0] == [];
    assert Timeline([b, a]) == [bA, bD, aA, aD];
    assert [bA][..0] == [];
    assert Sorting.InsertPos([], bA, Time) == 0;
    assert Sorting.InsertionSort([bA], Time) == [bA];
    assert [bA, bD][..1] == [bA];
    assert Sorting.InsertionSort([bA, bD], Time) == [bA, bD];
    assert [bA, bD, aA][..2] == [bA, bD];
    assert Sorting.InsertPos([bA, bD], aA, Time) == 0;
    assert Sorting.InsertionSort([bA, bD, aA], Time) == [aA, bA, bD];
    assert [bA, bD, aA, aD][..3] == [bA, bD, aA];
    assert [aA, bA, bD][..2] == [aA, bA];
    assert Sorting.InsertPos([aA, bA, bD], aD, Time) == 2;
  }

  /**
    The same over-count on a placement the greedy builder makes itself. A VM
    whose window is empty (`[10,10)`, arriving and leaving at minute 10) does
    not overlap a VM arriving at minute 10, so the builder puts both on a
    10-CPU host; the VMs are never active together and the list is in arrival
    order, yet the sweep counts the empty window's arrival while the other VM
    is running and reports a CPU peak of 12.
   */
  lemma ZeroLengthWindowCounted()
    ensures var pm := PM("PM_1", 10, 10, 10);
      var x := VM("VM_x", 6, 0, 0, 10, 20);
      var y := VM("VM_y", 6, 0, 0, 10, 10);
      && Sorting.InsertionSort([x, y], Greedy.Arrival) == [x, y]
      && Greedy.FirstFit([x, y], [pm]) == Greedy.Allocation([[x, y]], [])
      && Safe(pm, [x, y])
      && UsageOf(pm, [x, y]).usedCpu == 12
  {
    var pm := PM("PM_1", 10, 10, 10);
    var x := VM("VM_x", 6, 0, 0, 10, 20);
    var y := VM("VM_y", 6, 0, 0, 10, 10);
    BuilderTakesBoth(pm, x, y);
    EmptyWindowPeak(x, y);
    EmptyWindowSafe(pm, x, y);
  }

  /** Two VMs of equal arrival stay in list order, and are never active together when one window is empty. */
  lemma EmptyWindowSafe(pm: PM, x: VM, y: VM)
    requires pm.cpu == 10 && x.cpu == 6 && x.ram == x.storage == 0
    requires x.arrival == y.arrival == y.departure < x.departure
    ensures Sorting.InsertionSort([x, y], Greedy.Arrival) == [x, y]
    ensures Safe(pm, [x, y])
  {
    assert [x, y][..1] == [x];
    assert [x][..0] == [];
    assert Sorting.InsertionSort([x], Greedy.Arrival) == [x];
    forall t: int, r: Resource
      ensures LoadAt([x, y], t, r) <= pm.Capacity(r)
    {
      assert LoadAt([x], t, r) == (if ActiveAt(x, t) then x.Demand(r) else 0);
      assert !ActiveAt(y, t);
    }
  }

  /** The sweep over the example's host reaches a CPU total of 12. */
  lemma EmptyWindowPeak(x: VM, y: VM)
    requires x.cpu == y.cpu == 6
    requires x.arrival == y.arrival == y.departure < x.departure
    ensures Peak(SweepOrder([x, y]), Cpu) == 12
  {
    EmptyWindowOrder(x, y);
    var evs := [ArrivalEvent(x), ArrivalEvent(y), DepartureEvent(y), DepartureEvent(x)];
    assert evs[..3][..2] == evs[..2];
    assert evs[..2][..1] == evs[..1];
    assert evs[..1][..0] == [];
    assert Level(evs[..1], Cpu) == 6;
    assert Peak(evs[..1], Cpu) == 6;
    assert Level(evs[..2], Cpu) == 12;
    assert Peak(evs[..2], Cpu) == 12;
    assert Level(evs[..3], Cpu) == 6;
    assert Peak(evs[..3], Cpu) == 12;
    assert evs[..4] == evs;
  }

  /** The greedy builder puts a VM with an empty window next to one arriving at the same minute. */
  lemma {:induction false} BuilderTakesBoth(pm: PM, x: VM, y: VM)
    requires pm.cpu == 10 && x.cpu == y.cpu == 6 && x.ram == y.ram == 0 && x.storage == y.storage == 0
    requires x.arrival == y.arrival == y.departure < x.departure
    ensures Greedy.FirstFit([x, y], [pm]) == Greedy.Allocation([[x, y]], [])
  {
    assert [x, y][..1] == [x];
    assert [x][..0] == [];
    var empty := Greedy.EmptyPlacement(1);
    assert empty == [[]];
    assert Fits(pm, x, []);
    assert Greedy.FirstHost([pm], empty, x, 0) == Some(0);
    assert empty[0] + [x] == [x];
    assert empty[0 := [x]] == [[x]];
    assert Greedy.FirstFit([x], [pm]) == Greedy.Allocation([[x]], []);
    TouchingSubtractsNothing(y, [x], Cpu);
    TouchingSubtractsNothing(y, [x], Ram);
    TouchingSubtractsNothing(y, [x], Storage);
    assert Fits(pm, y, [x]);
    assert Greedy.FirstHost([pm], [[x]], y, 0) == Some(0);
    assert [x] + [y] == [x, y];
    assert [[x]][0 := [x, y]] == [[x, y]];
  }

  /** The order in which the sweep visits the events of the example above. */
  lemma {:induction false} EmptyWindowOrder(x: VM, y: VM)
    requires x.arrival == y.arrival == y.departure < x.departure
    ensures SweepOrder([x, y]) == [ArrivalEvent(x), ArrivalEvent(y), DepartureEvent(y), DepartureEvent(x)]
  {
    var xA, xD, yA, yD := ArrivalEvent(x), DepartureEvent(x), ArrivalEvent(y), DepartureEvent(y);
    assert [x, y][..1] == [x];
    assert [x][..0] == [];
    assert Timeline([x, y]) == [xA, xD, yA, yD];
    assert [xA][..0] == [];
    assert Sorting.InsertPos([], xA, Time) == 0;
    assert Sorting.InsertionSort([xA], Time) == [xA];
    assert [xA, xD][..1] == [xA];
    assert Sorting.InsertionSort([xA, xD], Time) == [xA, xD];
    assert [xA, xD, yA][..2] == [xA, xD];
    assert Sorting.InsertPos([xA, xD], yA, Time) == 1;
    assert Sorting.InsertionSort([xA, xD, yA], Time) == [xA, yA, xD];
    assert [xA, xD, yA, yD][..3] == [xA, xD, yA];
    assert [xA, yA, xD][..2] == [xA, yA];
    assert Sorting.InsertPos([xA, yA, xD], yD, Time) == 2;
  }
}
