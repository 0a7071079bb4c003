# Mining truck simulation, modelled in Dafny

This project models the simulation engine of a closed-loop helium-mining simulation on the moon. Time runs in ticks of five simulated minutes.
- **Trucks** run a four-state cycle: on the road to the mine, at the mine, on the road to the unloading site, and unloading. Each state has a countdown timer.
- **Unloading stations** each keep a FIFO queue of truck ids. Every tick a station admits the newly routed trucks at the tail and releases at most one truck from the head.
- **Each simulator tick** scans for trucks that have just arrived at the unloading site. It routes them with a least-loaded balancer (round-robin among tied stations). It then ticks the moving trucks, the stations, and the queued trucks, so that every truck is ticked exactly once.

## Modules and files

- `common.dfy` (`Wrappers`): `Option` (Python's `None` or a value), and the flattening of a sequence of lists.
- `sim_enums.dfy` (`SimEnums`): the truck-state and station-state enumerations.
- `truck.dfy` (`Truck`):
  - the truck's observable state as a value, `TruckData`;
  - pure functions for state durations, the cycle and one tick;
  - the class `MiningTruck`, whose methods update its fields in place and are proved equal to those functions.
- `unloadstation.dfy` (`UnloadStation`):
  - the queue as a value, `UnloadQueue`;
  - one station tick as a function, with the FIFO law over any number of ticks;
  - the class `UnloadingStation`, whose `Tick` runs the same loop of `put_truck` calls followed by one `get_truck`.
- `assignment.dfy` (`Assignment`):
  - the two helper scans, `find_station_info_by_id` and `get_truck_assignments`;
  - the assignment algorithm as imperative Dafny: a stable sort by load, the outer loop, popping the tied group, handing out one truck per member, and re-inserting to the right of equal loads.
  - It is proved against a functional specification, `Greedy`. Each pick is the first station in the order the sorted working list keeps: lowest effective load, then earliest to reach that load, then input position.
- `simulator.dfy` (`Simulator`):
  - the whole simulation as a value, `SimData`;
  - one tick as the function `Step`, and a run as `Simulate`;
  - the invariant `SimInv`, which the constructor's state satisfies and every tick preserves. It says every clock agrees with the simulation clock, timers are in bounds, and a truck id is in station `j`'s queue exactly when that truck is unloading, queued and assigned to `j`.
- `mining_simulator.dfy` (`MiningSimulation`): the class `MiningSimulator`:
  - It has fixed sequences of `MiningTruck` and `UnloadingStation` objects, and its methods mutate them in place.
  - `Tick` runs the six steps of the source's `tick` in the same order and is proved to produce exactly `Step` of the old state.
  - `Run` is proved to produce exactly `Simulate`.

Random draws are parameters:
- A truck's mining draw is an integer `k` with `2 <= k <= 10`, standing for `random.randint(2, 10)`; the mining time is `6 * k` ticks.
- The constructor takes `draw(i)`, truck `i`'s first draw.
- `Tick` takes one draw per truck (`draws[i]`), used only if truck `i` enters the mine state on that tick.
- `Run` takes `draw(k, i)`, truck `i`'s draw on the tick that starts at clock `k`.

### Where the comments and warnings in the code promise more than it does (the model follows the code)

- **No station.** The check at `mining_sim/simulator.py:202-203` suggests that trucks left without a station produce a warning and the tick goes on. With trucks waiting and no station, however, `assign_stations_algo` indexes an empty list (`mining_sim/simulator.py:145`) and raises before that check is reached. The model makes this an explicit error outcome:
  - `MiningSimulator.Tick` returns `ok == false` after only the clock has moved, which is what has happened when the exception escapes;
  - `Simulate` gives `None`;
  - `Simulator.Ready` says when a tick can run.
- **Balance.** The comments at `mining_sim/simulator.py:134-135` and `:141` describe the assignment as "round robin" over the least-loaded stations. That does not bound how far apart the loads end up: when one station's effective load is lower than every other station's by at least the number of trucks, every truck goes to that station (`Assignment.LowestTakesAll`). "At least" matters: with loads 0 and 2 and three trucks, the third truck meets a tie and goes to the other station (`Assignment.LowestTakesAllTight`). The model proves what the code does guarantee: each truck goes to a station that is first, at that moment, in the order above.
- **Misrouted trucks.** `assign_unload_site` (`mining_sim/nodes/truck.py:62-70`) routes any truck it is called on; it performs no check that the truck is waiting for a station. The model proves that the simulator never routes any other truck.

## Model

| member | source | states |
|---|---|---|
| Truck.StateDuration | mining_sim/nodes/truck.py:30-46 | road states last 6 ticks, unloading 1, mining a multiple of 6 in [12, 60] |
| Truck.NewTruck | mining_sim/nodes/truck.py:17-26 | a new truck is at the mine, unassigned, unqueued, clock 0, empty log, mining time a multiple of 6 in [12, 60] |
| Truck.Transition | mining_sim/nodes/truck.py:48-60 | the state moves to its cycle successor; leaving Unloading, and only that, clears the site to -1 and the queued flag; nothing else changes |
| Truck.CycleFromAtMine | mining_sim/nodes/truck.py:48-60 | four transitions from AtMine visit OnRoadToUnload, Unloading, OnRoadToMine, AtMine in that order |
| Truck.CyclePeriod | mining_sim/nodes/truck.py:48-60 | the cycle has period four: n transitions equal n mod 4 transitions |
| Truck.TickData | mining_sim/nodes/truck.py:84-115 | one tick keeps the id, raises the clock by one, appends exactly one record carrying the pre-increment clock, and keeps the timer non-negative |
| Truck.TickKeepsTimer | mining_sim/nodes/truck.py:96-113 | the timer stays between 0 and the current state's duration |
| Truck.TickStepsCycle | mining_sim/nodes/truck.py:96-113 | a tick moves one step along the cycle (resetting the timer to the new state's duration) exactly when the timer runs out and the truck is not parked; leaving Unloading clears the site and the queued flag, any other move keeps them; otherwise state and assignment stay and the timer drops by one if positive |
| Truck.ParkedTruckStays | mining_sim/nodes/truck.py:102-104 | an unloading truck that was not released makes no transition and keeps its station |
| Truck.ServedTruckLeaves | mining_sim/nodes/truck.py:41-43 | since the unloading timer is at most 1, the tick that releases a truck always sends it on the road to the mine with 6 ticks and no station |
| Truck.TickScenario | tests/test_truck.py:56-76 | from AtMine with the timer at 0: after one tick OnRoadToUnload, 6 left, clock 1; after six more Unloading, 1 left, clock 7 |
| Truck.MiningTruck.constructor | mining_sim/nodes/truck.py:17-26 | the new object's state is `NewTruck` |
| Truck.MiningTruck.NextState | mining_sim/nodes/truck.py:48-60 | the new state is `Transition` of the old |
| Truck.MiningTruck.AssignUnloadSite | mining_sim/nodes/truck.py:62-70 | only the site and the queued flag change, to the given site and true |
| Truck.MiningTruck.LogData | mining_sim/nodes/truck.py:72-82 | only the log changes: one record of tick, id, state and site is appended |
| Truck.MiningTruck.Tick | mining_sim/nodes/truck.py:84-115 | the new state is `TickData` of the old |
| UnloadStation.PutTruck | mining_sim/nodes/unloadstation.py:24-27 | the id is appended at the tail; the station id is kept |
| UnloadStation.QueueSize | mining_sim/nodes/unloadstation.py:29-32 | the size is the number of queued ids |
| UnloadStation.GetTruck | mining_sim/nodes/unloadstation.py:34-39 | None exactly on an empty queue, which is then unchanged; otherwise the head, and the rest stays queued |
| UnloadStation.PutThenGet | mining_sim/nodes/unloadstation.py:24-39 | after a put, the get returns the old head, or the new id if the queue was empty |
| UnloadStation.NewStation | mining_sim/nodes/unloadstation.py:45-57 | a new station has an empty queue, clock 0 and an empty log |
| UnloadStation.TickStation | mining_sim/nodes/unloadstation.py:90-119 | a station tick keeps the id and raises the clock by one |
| UnloadStation.TickFifo | mining_sim/nodes/unloadstation.py:101-119 | released id plus new queue equals old queue plus admitted ids; None exactly when both are empty; new length is old plus admitted minus one, never below 0; one record with the new clock and the wait after the release |
| UnloadStation.FifoLaw | mining_sim/nodes/unloadstation.py:90-119 | over any number of ticks, released ids followed by the remaining queue equal the initial queue followed by all admitted lists in order; one clock step and one record per tick |
| UnloadStation.ReleasedIsPrefix | mining_sim/nodes/unloadstation.py:90-119 | from an empty queue, the released ids are a prefix of everything admitted: nothing reordered, lost or duplicated |
| UnloadStation.EmptyTick | mining_sim/nodes/unloadstation.py:110-112 | a tick admitting nothing to a non-empty queue releases its head and keeps the rest |
| UnloadStation.StationScenario | tests/test_unloadstation.py:25-44 | admitting 1, 5, 13, 17, 25, 12 to a new station releases 1 with wait 5, then 5, 13, 17, 25, 12 on empty ticks with the wait falling by one each time |
| UnloadStation.UnloadingStation.constructor | mining_sim/nodes/unloadstation.py:45-57 | state `NewStation`, Unoccupied, no unloading truck |
| UnloadStation.UnloadingStation.GetWaitTime | mining_sim/nodes/unloadstation.py:65-71 | the wait time is the queue length |
| UnloadStation.UnloadingStation.LogData | mining_sim/nodes/unloadstation.py:73-86 | only the log changes: one record of tick, id, released truck and current wait |
| UnloadStation.UnloadingStation.Tick | mining_sim/nodes/unloadstation.py:90-119 | the released id and the new state are `TickStation` of the old state and the admitted ids |
| Assignment.FindStationInfoById | mining_sim/simulator.py:26-39 | None exactly when no entry has the id; otherwise the first entry that has it |
| Assignment.StationPairs | mining_sim/simulator.py:54-55 | one pair per routed truck of the station, in queue order, each carrying the station's id |
| Assignment.GetTruckAssignments | mining_sim/simulator.py:42-56 | the truck ids of the pairs are all routed trucks, station by station in list order |
| Assignment.AssignmentAt | mining_sim/simulator.py:51-56 | the p-th truck of the k-th station is the pair at that station's offset plus p, with that station's id |
| Assignment.TruckIdsQueued | mining_sim/simulator.py:51-56 | reading the truck ids off the pairs gives back the routed trucks |
| Assignment.BisectRight | mining_sim/simulator.py:165 | on a sorted list, every key before the returned position is at most the value and every key after it is greater |
| Assignment.Insert | mining_sim/simulator.py:165 | the element lands at the given position and the multiset of the list grows by exactly it |
| Assignment.SortStations | mining_sim/simulator.py:139 | the result is a permutation of the input, sorted by the key, with equal keys in input order (the sort is stable); the routed trucks are kept |
| Assignment.PopGroup | mining_sim/simulator.py:145-152 | the popped group and the rest make up the list; the group is non-empty, all at the head's load, and the rest does not start at that load |
| Assignment.ServeGroup | mining_sim/simulator.py:156-161 | the group's first min(group, pending) stations each take the next pending truck in order; the rest are untouched |
| Assignment.Round | mining_sim/simulator.py:142-165 | a round hands out at least one truck and keeps the greedy trace and the working-list invariant |
| Assignment.Reinsert | mining_sim/simulator.py:164-165 | re-inserting the group's stations restores the working-list invariant |
| Assignment.HandOut | mining_sim/simulator.py:142-165 | the loop ends with no pending truck, the trace as long as the input trucks, and greedy |
| Assignment.Greedy | mining_sim/simulator.py:139-165 | the specification trace: m picks, each the first station in the order of load, then time of reaching that load, then input position |
| Assignment.GreedyIsUnique | mining_sim/simulator.py:139-165 | two greedy traces of the same length are equal, so the algorithm's choices are determined |
| Assignment.GreedyPicksMinimalLoad | mining_sim/simulator.py:145-159 | every truck goes to a station whose effective load at that moment is minimal |
| Assignment.LowestTakesAll | mining_sim/simulator.py:139-165 | a station whose effective load is lower than every other station's by at least the number of trucks receives every truck |
| Assignment.LowestTakesAllTight | mining_sim/simulator.py:139-165 | the bound is tight: with loads 0 and 2 and three trucks, the picks are the lighter station twice and then the other station |
| Assignment.AssignStations | mining_sim/simulator.py:103-172 | with at least one station (or no truck), no truck is left over; the result has every input station once, sorted by id, with its wait time, and the trucks the greedy trace routes to it appended; the id sort is stable, so stations with equal ids keep the working list's order; its pairs name each routed truck exactly once |
| Assignment.AssignAll | mining_sim/simulator.py:142-172 | on stations with no routed trucks, the pairs name each input truck exactly once and every station is kept |
| Assignment.AssignScenario | tests/test_simulator.py:41-65 | the ten-station, twenty-truck round of the unit test assigns all twenty trucks, each once |
| Simulator.HoursToTicks | mining_sim/simulator.py:85-87 | hours become twelve ticks per hour |
| Simulator.PendingIndexes | mining_sim/simulator.py:189-194 | on a numbered list, the scan collects exactly the positions of trucks that are unloading and unqueued, in increasing order, each once |
| Simulator.Pending | mining_sim/simulator.py:189-194 | the scan finds no truck exactly when no truck is unloading without a station, and finds at most one id per truck |
| Simulator.Ready | mining_sim/simulator.py:142-145 | a tick can run exactly when there is a station or no truck is unloading without a station; otherwise reading the first station info raises IndexError |
| Simulator.StationInfos | mining_sim/simulator.py:115-125 | one info per station with its id, the queue length as wait time, and no trucks |
| Simulator.Picks | mining_sim/simulator.py:139-165 | one pick per waiting truck, each a station that exists |
| Simulator.StationSteps | mining_sim/simulator.py:211-222 | every station ticks once, with what it is admitted |
| Simulator.TickMoving | mining_sim/simulator.py:205-208 | every truck not unloading ticks (without release); the others are untouched |
| Simulator.MarkAssigned | mining_sim/simulator.py:226-234 | each waiting truck is queued at its pick; no other truck changes |
| Simulator.TickQueued | mining_sim/simulator.py:239-243 | every truck that is unloading and queued ticks, told whether its id was released; the others are untouched |
| Simulator.Step | mining_sim/simulator.py:174-246 | one tick raises the simulation clock by one and keeps the number of trucks and stations |
| Simulator.Simulate | mining_sim/simulator.py:248-258 | ticks while the clock is at most the stop time; a finished run leaves the clock at the stop time plus one (or unchanged if already past it) with the same number of trucks and stations; a run can fail only when there is no station and the stop time has not passed |
| Simulator.StationAfterStep | mining_sim/simulator.py:211-222 | each station releases the head of its old queue followed by its admitted trucks and keeps the rest |
| Simulator.BelongsUnique | mining_sim/simulator.py:190-234 | a truck belongs to at most one station's combined queue |
| Simulator.ReleasedIff | mining_sim/simulator.py:211-243 | a truck is released exactly when it heads its station's combined queue |
| Simulator.FinalMoving | mining_sim/simulator.py:205-208 | a truck not unloading ticks once on step 4 and ends up with no station |
| Simulator.TruckAfterStep | mining_sim/simulator.py:205-246 | every truck ticks exactly once per tick (one clock step, one record), stays consistent, and is queued at j afterwards exactly when it was in j's combined queue and not released |
| Simulator.QueueAgreesAfterStep | mining_sim/simulator.py:211-243 | after the tick, station j holds truck y exactly when y is queued at j |
| Simulator.StepKeepsInv | mining_sim/simulator.py:174-246 | every tick that runs keeps the invariant: clocks agree, timers in bounds, queues and trucks agree, no id twice in a queue |
| Simulator.QueueMember | mining_sim/simulator.py:226-243 | under the invariant, a queued id names a truck that is queued at that station |
| Simulator.NewSim | mining_sim/simulator.py:72-101 | the initial state has as many trucks and stations as `range` yields, and clock 0 |
| Simulator.NewSimInv | mining_sim/simulator.py:72-101 | the invariant holds from the start; in particular truck and station ids are their list positions |
| Simulator.SimulateKeepsInv | mining_sim/simulator.py:248-258 | a run keeps the invariant, keeps the counts, and stops with the clock at the stop time plus one |
| Simulator.SimulateSucceeds | mining_sim/simulator.py:142-145 | with at least one station, or no truck, no tick of a run fails |
| Simulator.MarkPairsAt | mining_sim/simulator.py:226-234 | when the pairs naming a truck agree on its station, applying them in order queues it there if any pair names it, and leaves it alone otherwise |
| Simulator.PairOrigin | mining_sim/simulator.py:51-56 | every pair names a truck routed to some station, with that station's id |
| Simulator.PairsInRange | mining_sim/simulator.py:226-231 | every pair names a truck of the list, whose id equals its position, so the index guard never raises |
| Simulator.MarkPairsMatch | mining_sim/simulator.py:226-234 | routing the algorithm's pairs in order queues each waiting truck at its pick and nothing else |
| Simulator.LookupsMatch | mining_sim/simulator.py:212-219 | each station finds in the result exactly the trucks routed to it |
| Simulator.ResultMatchesStep | mining_sim/simulator.py:196-234 | the assignment result, or its absence when no truck waits, gives every station its routed trucks and every waiting truck its pick |
| Simulator.PhasesGiveStep | mining_sim/simulator.py:205-243 | steps 4 to 6 run on an agreeing result give the model's tick and keep the invariant |
| MiningSimulation.MakeTrucks | mining_sim/simulator.py:96-98 | truck k is new, numbered k, one per element of range(n), no object twice |
| MiningSimulation.MakeStations | mining_sim/simulator.py:100-101 | station k is new, numbered k, one per element of range(m), no object twice |
| MiningSimulation.TickOneStation | mining_sim/simulator.py:213-219 | a station ticks with the trucks its entry in the result lists, or none without an entry |
| MiningSimulation.TickStationList | mining_sim/simulator.py:211-222 | the station loop ticks each station once with its trucks and collects the released ids in list order |
| MiningSimulation.MiningSimulator.constructor | mining_sim/simulator.py:72-101 | the state is `NewSim`, the invariant holds, and stop and limit times are in ticks |
| MiningSimulation.MiningSimulator.FindWaitingTrucks | mining_sim/simulator.py:189-194 | the waiting ids are `Pending` of the trucks |
| MiningSimulation.MiningSimulator.CollectStationInfos | mining_sim/simulator.py:115-125 | the infos are `StationInfos` of the stations |
| MiningSimulation.MiningSimulator.TickMovingTrucks | mining_sim/simulator.py:205-208 | the trucks become `TickMoving` of the old trucks; stations unchanged |
| MiningSimulation.MiningSimulator.TickStations | mining_sim/simulator.py:210-222 | the stations become the model's station steps on the result's lookups, and the released ids are theirs; trucks unchanged |
| MiningSimulation.MiningSimulator.AssignTrucks | mining_sim/simulator.py:226-234 | the guard never fires on a numbered list; the trucks become `MarkPairs` of the old trucks; stations unchanged |
| MiningSimulation.MiningSimulator.TickQueuedTrucks | mining_sim/simulator.py:239-243 | the trucks become `TickQueued` of the old trucks; stations unchanged |
| MiningSimulation.MiningSimulator.PlanAssignments | mining_sim/simulator.py:189-203 | succeeds exactly when the tick can run, and then gives a result that agrees with the model |
| MiningSimulation.MiningSimulator.TickPhases | mining_sim/simulator.py:205-243 | steps 4 to 6 leave the trucks and stations the model's phases make of the given result |
| MiningSimulation.MiningSimulator.FinishTick | mining_sim/simulator.py:205-243 | steps 4 to 6 on an agreeing result leave exactly the model's tick, which keeps the invariant |
| MiningSimulation.MiningSimulator.Tick | mining_sim/simulator.py:174-246 | succeeds exactly when the tick can run; then the new state is `Step` of the old and the invariant holds; otherwise only the clock has moved |
| MiningSimulation.MiningSimulator.Run | mining_sim/simulator.py:248-258 | ticks while the clock is at most min(stop, limit); succeeds exactly when `Simulate` does, and then the state is its result and the invariant holds |
| MiningSimulation.Min | mining_sim/simulator.py:250 | the minimum of the two |

## Left out

- **Logging.** Every `logger` and `print` call, `animate_output`, the `datetime` and `time.sleep` calls in `run`, and `analyze_simulation_logs` with all of `mining_sim/utility/analysis.py` (pandas reports) are left out. They are output only.
- **Randomness.** `random.seed(42)` and `random.randint(2, 10)` become parameters, as described above. The generator itself is not modelled.
- **Hours to ticks.** `int(hr * 60 / 5)` is computed in floating point in the source. The model takes integer hours and uses exact integer arithmetic, twelve ticks per hour.
- **Test injection of station infos.** `assign_stations_algo`'s `__station_infos` parameter and its mutable default `[]` are test injection. The model's `AssignStations` always takes its station infos explicitly, and the simulator passes them from `CollectStationInfos`.
- **Station-count warning.** The warning at `mining_sim/simulator.py:168-169` compares the number of station infos with the number of stations. It cannot fire on the tick path, because `CollectStationInfos` gives one info per station. It fires for injected infos such as those of `tests/test_simulator.py:41-62`, where a simulator with four stations (`tests/test_simulator.py:12`) is given ten infos. Logging is not modelled, so neither is the warning.
- **Leftover-trucks warning.** The warning at `mining_sim/simulator.py:202-203` never fires: the algorithm empties the caller's list. `AssignStations` returns that list as `unassigned` and proves it empty.
- Assignment.AssignStations: requires at least one station when trucks are pending. The source raises IndexError there instead. At the simulator level this case is modelled as the error outcome described above.
- **Index guard.** The `ValueError` guard at `mining_sim/simulator.py:228-231` is modelled as a check proved unreachable (`assert false` in its branch of `AssignTrucks`). The raise itself is not modelled.
- **Negative indexes.** Python's wrap-around for negative list indexes is not modelled. Every pair's truck id is proved to be a valid position.
- **Unused station state.** `UnloadingStation._next_state` is a stub, and `_state` and `unloading_truck_id` are set once and never updated. They are kept as fields, proved unchanged, and otherwise not modelled.
- **Unreachable duration branch.** The `else: return 0` branch of `_state_duration` cannot be reached with four states, so it is not modelled.
- **Return values.** The constant `True` returned by the truck's `tick` is not modelled, since no caller reads it.
- **Default arguments.** The defaults `stop_time_hr=72` and `max_time_hr=120` (`mining_sim/simulator.py:72`), `unload_site_id=0` (`mining_sim/nodes/truck.py:62`), `unloading_complete=False` (`mining_sim/nodes/truck.py:84`) and `trucks=[]` (`mining_sim/nodes/unloadstation.py:90`) are not modelled. Every model member takes these values explicitly, so no behaviour is lost.
- **Queue lock and base class.** The queue's `threading.Lock` is not modelled: the code is single-threaded. The `SimulationNode` base class is folded into the two classes. `run_simulation.py` and `conftest.py` are not part of this model.
- Simulator.Picks: states only the length and range of the picks. The greedy property itself is stated by `Assignment.Greedy`, which `Picks` returns on the simulator's station infos.
