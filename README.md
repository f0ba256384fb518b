# VM placement with time windows: a Dafny model

This project models the placement engine of `Optimisation_TB.py`. The engine
assigns virtual machines (VMs) to physical hosts (PMs). Each VM has a CPU, RAM
and storage demand and a window `[arrival, departure)` in minutes. Each host has
a fixed capacity on the same three resources. The engine has five parts:

- the admission test `is_feasible`;
- the greedy first-fit builder `initial_placement`, which sorts the VM list in
  place by arrival and gives each VM to the first host that admits it;
- the score `evaluate`, the number of placed VMs;
- the tabu hill-climb `tabu_search`, which tries to add still-unplaced VMs to the
  incumbent placement and keeps a bounded first-in first-out list of accepted
  placements;
- the utilisation report `calculate_resource_usage`, a sweep over sorted
  arrival and departure events that records each host's peak load.

Modules, one per file:

- `Machines` (machines.dfy): the records (`PM`, `VM`, `Resource`), name helpers
  and `Placement`. A placement is one VM list per host, by host position.
- `Sorting` (sorting.dfy): Python's stable `list.sort(key=...)` as a stable
  insertion sort. It is proved sorted, a permutation and stable. `SortBy`
  computes it in place on an array.
- `Capacity` (capacity.dfy): `is_feasible` as the `IsFeasible` loop, proved
  equal to the `Fits` predicate. It also holds the pointwise capacity
  invariant `Safe`: at every minute, the VMs active then fit within the
  capacity.
- `Scoring` (scoring.dfy): `evaluate` and the by-name "is placed" test.
- `Greedy` (greedy.dfy): `initial_placement`, with the array sort and the nested
  loops, proved equal to the recursive `FirstFit`.
- `Tabu` (tabu.dfy): `tabu_search`. The loops are proved equal to the functions
  `Neighbours`, `Iterate` and `Run`, and the round invariants are proved about
  those functions.
- `Usage` (usage.dfy): `calculate_resource_usage`. The loops are proved equal
  to the functions `Timeline`, `Level`, `Peak` and `UsageOf`.

Two facts stand out:

- **The tabu search never changes the greedy placement.** Each VM the greedy
  pass leaves out was rejected by every host at its turn. Host lists only grow
  after that. A longer list never admits what a shorter one refused, because
  demands are non-negative. So the first round finds no neighbour, and every
  later round starts from the same state (`Tabu.SearchKeepsGreedyPlacement`).
- **The sweep can report a peak above capacity for a placement that is within
  capacity at every minute.** Events are sorted by time only, and ties keep
  list order. An arrival listed before a departure at the same minute is
  therefore counted first. This happens for a host list that is not in
  arrival order (`Usage.SweepCountsTouchingWindows`). It also happens on the
  builder's own output when a VM's window is empty (`Usage.ZeroLengthWindowCounted`).
  The capacity invariant is therefore stated per minute (`Capacity.Safe`), not
  through the sweep.

## Model

| member | source | states |
|---|---|---|
| Capacity.IsFeasible | Optimisation_TB.py:42-53 | The answer is true exactly when, on CPU, RAM and storage alike, the capacity minus the demand of the hosted VMs whose windows strictly overlap the candidate's covers the candidate's demand |
| Capacity.AdmitKeepsSafe | Optimisation_TB.py:42-53 | A VM the test admits onto a host whose list is within capacity at every minute keeps the list within capacity at every minute |
| Capacity.TouchingSubtractsNothing | Optimisation_TB.py:48 | VMs whose windows only touch the candidate's at an endpoint subtract nothing, so the candidate then fits a host of exactly its own size |
| Capacity.AdmissionIsConservative | Optimisation_TB.py:47-53 | The test can refuse a VM that would keep the host within capacity at every minute: it sums every overlapping VM, even VMs never active at the same time |
| Sorting.SortBy | Optimisation_TB.py:59 | Sorting an array in place leaves it holding the stable insertion sort of its old contents |
| Sorting.SortSorted | Optimisation_TB.py:59 | The sort's result is in ascending key order |
| Sorting.SortPermutes | Optimisation_TB.py:59 | The sort's result is a permutation of its input |
| Sorting.SortStable | Optimisation_TB.py:120 | Entries with equal keys keep their relative order through the sort |
| Sorting.InsertLast | Optimisation_TB.py:59 | One pass of the in-place sort inserts the next entry into the sorted prefix and leaves the rest of the array alone |
| Sorting.ShiftLarger | Optimisation_TB.py:59 | The inner pass of the in-place sort moves every entry with a larger key one slot right and stops at the stable insertion position of the new entry; the entries before that position and after the pass stay where they were |
| Greedy.FirstHost | Optimisation_TB.py:63-67 | The host picked is one that admits the VM, and every host before it in list order refuses it; when none is picked, every host refuses it |
| Greedy.FirstFitPlace | Optimisation_TB.py:61-69 | The nested loops produce the placement and unplaced list of the first-fit rule applied to the VMs in list order |
| Greedy.InitialPlacement | Optimisation_TB.py:55-71 | The caller's array ends sorted stably by arrival, and the result is first-fit over that order |
| Greedy.FirstFitPartition | Optimisation_TB.py:61-69 | Every VM ends on exactly one host's list or in the unplaced list, as a multiset equation |
| Greedy.FirstFitScore | Optimisation_TB.py:77-78 | Right after the builder, the score plus the number of unplaced VMs is the number of VMs |
| Greedy.FirstFitSafe | Optimisation_TB.py:64-65 | Every host's list built by the builder is within capacity at every minute |
| Greedy.FitsShrinks | Optimisation_TB.py:47-53 | A VM a longer list admits is also admitted by the list without its last VM |
| Greedy.FirstFitRejectsUnplaced | Optimisation_TB.py:63-69 | No host admits any unplaced VM next to the lists of the final greedy placement |
| Greedy.FirstFitKeepsArrivalOrder | Optimisation_TB.py:59-65 | Fed VMs in arrival order, the builder fills every host's list in arrival order |
| Scoring.Score | Optimisation_TB.py:73-74 | `evaluate` sums the lengths of the hosts' lists; the sum is 0 exactly when every host's list is empty |
| Scoring.ScoreCountsAll | Optimisation_TB.py:73-74 | The score is the number of VMs in all hosts' lists together |
| Scoring.ScoreAppend | Optimisation_TB.py:91-93 | Appending one VM to one host's list raises the score by exactly one |
| Scoring.Placed | Optimisation_TB.py:85 | The host-by-host `any(...)` name test holds exactly when the name belongs to some VM of the whole placement, read as one flattened list |
| Scoring.NamedOnSomeHost | Optimisation_TB.py:85 | A name is on some host's list of names exactly when it is among the names of the flattened placement |
| Tabu.HostNeighbours | Optimisation_TB.py:88-93 | The host loop yields the candidates of appending the VM to each admitting host, in host order, leaving out those in the tabu list |
| Tabu.CollectNeighbours | Optimisation_TB.py:82-93 | The neighbour loops yield, in VM order and then host order, the candidates for every VM whose name is not placed |
| Tabu.FirstBest | Optimisation_TB.py:98 | The chosen neighbour has the maximal score, and every neighbour before it scores strictly less |
| Tabu.Round | Optimisation_TB.py:81-104 | One round's new incumbent, score and tabu list are those of the round function |
| Tabu.SearchFrom | Optimisation_TB.py:78-104 | The rounds from a given start end in the state the round function reaches after the given number of rounds (none for a negative budget) |
| Tabu.TabuSearch | Optimisation_TB.py:76-107 | The caller's array ends sorted by arrival; the search result is the state after the rounds from the greedy start; the unplaced list is computed by name from the final placement |
| Tabu.NeighboursShape | Optimisation_TB.py:84-93 | Every neighbour is the incumbent plus one VM, whose name is not placed, appended to a host that admits it; it is not in the tabu list; it scores one more than the incumbent |
| Tabu.HostMovesComplete | Optimisation_TB.py:88-93 | Every host that admits the VM yields a neighbour unless that candidate is in the tabu list |
| Tabu.NeighboursComplete | Optimisation_TB.py:84-93 | Every VM whose name is unplaced, on every host that admits it, yields a neighbour unless the candidate is tabu: the converse of `NeighboursShape` |
| Tabu.HostMovesNone | Optimisation_TB.py:88-93 | When no host admits the VM with a non-tabu candidate, the VM yields no neighbour |
| Tabu.HostMovesFirst | Optimisation_TB.py:88-93 | The first neighbour built for a VM is the one on the first host, in list order, that admits it with a non-tabu candidate |
| Tabu.NoAdmissibleNoNeighbour | Optimisation_TB.py:84-93 | With no admissible VM and host pair, the neighbour list is empty |
| Tabu.NeighboursFirst | Optimisation_TB.py:84-93 | The first neighbour, the one the round accepts, is the candidate of the first admissible VM in list order and, for that VM, of the first admissible host |
| Tabu.IterateAcceptsFirst | Optimisation_TB.py:95-104 | When there are neighbours, the round accepts the first one, adds one to the score and remembers the new placement |
| Tabu.Remember | Optimisation_TB.py:102-104 | Appending to the tabu list and popping its oldest entry when over the bound grows it by at most one, puts the accepted placement last, and keeps only old entries before it |
| Tabu.RememberIsBoundedFifo | Optimisation_TB.py:102-104 | The tabu list gains the accepted placement as its newest entry, keeps the newest of the old entries, and never exceeds the bound |
| Tabu.IterateKeepsGood | Optimisation_TB.py:81-104 | A round keeps the search invariant and never lowers the score. The invariant: hosts within capacity, input VMs only, unique names, the score equal to the evaluation, the tabu list bounded and below the score |
| Tabu.RunKeepsGood | Optimisation_TB.py:81-104 | Any number of rounds keeps the search invariant, and the final score is at least the starting one |
| Tabu.StartIsGood | Optimisation_TB.py:77-79 | With unique VM names, the greedy placement, its score and an empty tabu list satisfy the search invariant |
| Tabu.ScoreBounded | Optimisation_TB.py:78 | In any state satisfying the invariant, the score is at most the number of VMs |
| Tabu.TabuNeverExcludes | Optimisation_TB.py:92 | When no tabu entry scores above the incumbent, the tabu test removes no neighbour |
| Tabu.StuckStaysPut | Optimisation_TB.py:95-96 | A state without neighbours is left unchanged by any number of rounds |
| Tabu.GreedyHasNoNeighbour | Optimisation_TB.py:84-93 | The greedy placement has no neighbour, whatever the tabu list |
| Tabu.GreedyAdmitsNothing | Optimisation_TB.py:84-93 | At the greedy placement no VM whose name is unplaced fits on any host with a non-tabu candidate, so no move exists at all, not only none that the neighbour list shows |
| Tabu.SearchKeepsGreedyPlacement | Optimisation_TB.py:76-104 | The search returns the greedy placement and its score for every budget and tabu size |
| Tabu.Unplaced | Optimisation_TB.py:106 | The final unplaced list is no longer than the VM list, and each entry is an input VM whose name no host's list carries |
| Tabu.UnplacedMembers | Optimisation_TB.py:106 | The final unplaced list holds exactly the input VMs whose names the placement does not use |
| Tabu.ScorePlusUnplaced | Optimisation_TB.py:106-107 | With unique names, in any state satisfying the invariant, the score plus the number of unplaced VMs is the number of VMs |
| Tabu.TabuSearchOutcome | Optimisation_TB.py:76-107 | With unique names, the result is the greedy placement, with its score, within capacity at every minute, and the unplaced list makes up the rest of the VMs |
| Tabu.SearchKeepsArrivalOrder | Optimisation_TB.py:59 | Fed VMs in arrival order, the search returns every host's list in arrival order |
| Tabu.TwoOverlappingVMs | Optimisation_TB.py:76-107 | Two 10-unit hosts and two 6-unit VMs with overlapping windows, for any names, tabu size and round budget: one VM per host, and the search keeps the score at 2 |
| Tabu.OversizedVM | Optimisation_TB.py:61-69 | A VM larger than the only host is left unplaced; the score stays 0 and the final unplaced list is that VM |
| Usage.BuildTimeline | Optimisation_TB.py:115-118 | The timeline loop yields each VM's arrival event and then its departure event, in list order |
| Usage.PeakTotals | Optimisation_TB.py:126-146 | The sweep's three peaks are the highest running totals over the events in order, starting from 0 |
| Usage.HostUsage | Optimisation_TB.py:112-163 | One host's report entry is the report function of the host and its VM list |
| Usage.ResourceUsage | Optimisation_TB.py:109-165 | The report maps host names to the entries of the report function; a later host overwrites an earlier one of the same name |
| Usage.UsageMapKeys | Optimisation_TB.py:111-152 | The report has an entry for exactly the hosts' names |
| Usage.UsageMapLookup | Optimisation_TB.py:152-163 | With distinct host names, the entry under each host's name is that host's own report |
| Usage.SweepBalances | Optimisation_TB.py:133-142 | Every VM adds its demand once and takes it off once, so the running totals finish at 0 |
| Usage.SweepNeverNegative | Optimisation_TB.py:133-142 | With well-formed windows, no running total of the sorted sweep is ever negative |
| Usage.PeakIsMaxPrefix | Optimisation_TB.py:144-146 | The peak is at least every running total and equals one of them (0 for no events) |
| Usage.PeakCoversEachVM | Optimisation_TB.py:115-146 | With well-formed windows, each peak is non-negative and at least the demand of every VM on the host |
| Usage.Percent | Optimisation_TB.py:148-150 | The clamped percentage is never above 100, is 0 for a host without that capacity, and is non-negative for a non-negative peak |
| Usage.PercentBounds | Optimisation_TB.py:148-150 | The percentage is 0 without capacity and never above 100. It is non-negative for a non-negative peak, exactly the peak's share for a peak within capacity, and 100 at or above capacity |
| Usage.UsageOfHost | Optimisation_TB.py:152-163 | The entry echoes the capacities and the VM names in list order. Its peaks are non-negative and cover every VM's demand, its percentages are at most 100 and exact within capacity, and the totals finish at 0 |
| Usage.SweepCountsTouchingWindows | Optimisation_TB.py:120 | A host list whose VMs never exceed capacity at any minute, but with an arrival listed before a departure at the same minute, gets a CPU peak of 12 on a 10-CPU host |
| Usage.ZeroLengthWindowCounted | Optimisation_TB.py:120 | The builder puts a VM with an empty window beside one arriving at the same minute. The list is in arrival order and within capacity at every minute, yet the sweep reports a CPU peak of 12 on a 10-CPU host |

## Left out

- `generate_machines` (lines 10-24) draws from `random`, so its output cannot be stated; the model takes the PM and VM lists as inputs.
- `save_to_txt` and `read_from_txt` (lines 26-40) are file I/O.
- The plotting, GUI and driver code (lines 167-575) is out of scope: windows, `os.listdir`, `time`, float averages.
- Percentages are exact `real` divisions; Python's float rounding is not modelled.
- Demands and capacities are `nat`. Negative values, which the Python engine does not reject, are not modelled. `Greedy.FitsShrinks`, and with it `Tabu.SearchKeepsGreedyPlacement`, depends on demands being non-negative.
- The placement and the report are keyed by host name in the Python engine (dicts); here a placement is indexed by host position. The model matches the Python engine when host names are distinct. With a repeated host name the Python hosts would share one list; the model keeps them apart.
- The report for duplicate host names overwrites earlier entries exactly as the dict does (`Usage.UsageMap`). A name missing from the placement (a `KeyError` in Python) cannot arise, because the placement has one list per host.
- Copying lists to build a neighbour (line 89) needs no modelling: placements are values, so the incumbent cannot be changed through a neighbour.
- The tabu membership test compares whole dicts; the model compares placements as sequences, which is the same when host names are distinct.
- The defaults `iterations=100` and `tabu_size=10` are ordinary parameters here.
- Tabu.StartIsGood: requires unique VM names. `Optimisation_TB.py` identifies VMs by name in lines 85 and 106 but does not check uniqueness.
- Tabu.ScorePlusUnplaced: requires unique VM names, for the same reason.
- Tabu.TabuSearchOutcome: requires unique VM names, for the same reason.
- Usage.SweepNeverNegative: requires `arrival <= departure` for every VM. The Python generator guarantees this, but the engine does not check it.
- Usage.PeakCoversEachVM: requires `arrival <= departure` for every VM, for the same reason.
- Usage.UsageOfHost: requires `arrival <= departure` for every VM, for the same reason.
