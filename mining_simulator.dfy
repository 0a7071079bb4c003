/** The simulator object: it owns the trucks and the stations, and its tick
    runs the six steps of the simulation on them in place. Every method is
    proved against the pure model of module Simulator. */
module MiningSimulation {
  import opened Wrappers
  import opened SimEnums
  import opened Truck
  import opened UnloadStation
  import opened Assignment
  import opened Simulator

  /** The state of every truck, in list order. */
  function TruckViews(ts: seq<MiningTruck>): (r: seq<TruckData>)
    reads ts
    ensures |r| == |ts| && forall i :: 0 <= i < |ts| ==> r[i] == ts[i].View()
  {
    seq(|ts|, i reads ts requires 0 <= i < |ts| => ts[i].View())
  }

  /** The state of every station, in list order. */
  function StationViews(ss: seq<UnloadingStation>): (r: seq<StationData>)
    reads ss
    ensures |r| == |ss| && forall j :: 0 <= j < |ss| ==> r[j] == ss[j].View()
  {
    seq(|ss|, j reads ss requires 0 <= j < |ss| => ss[j].View())
  }

  function Min(a: int, b: int): (m: int)
    ensures m <= a && m <= b && (m == a || m == b)
  {
    if a < b then a else b
  }

  /** The first loop of `__init__`: truck `idx` for each `idx` in `range(n)`. */
  method MakeTrucks(n: int, draw: int -> int) returns (ts: seq<MiningTruck>)
    requires forall i :: IsMiningDraw(draw(i))
    ensures |ts| == RangeLen(n) && Distinct(ts)
    ensures forall k :: 0 <= k < |ts| ==> ts[k].View() == NewTruck(k, draw(k))
  {
    ts := [];
    for idx := 0 to RangeLen(n)
      invariant |ts| == idx && Distinct(ts)
      invariant forall k :: 0 <= k < idx ==> ts[k].View() == NewTruck(k, draw(k))
    {
      var t := new MiningTruck(idx, draw(idx));
      ts := ts + [t];
    }
  }

  /** The second loop of `__init__`: station `idx` for each `idx` in `range(m)`. */
  method MakeStations(m: int) returns (ss: seq<UnloadingStation>)
    ensures |ss| == RangeLen(m) && Distinct(ss)
    ensures forall k :: 0 <= k < |ss| ==> ss[k].View() == NewStation(k)
  {
    ss := [];
    for idx := 0 to RangeLen(m)
      invariant |ss| == idx && Distinct(ss)
      invariant forall k :: 0 <= k < idx ==> ss[k].View() == NewStation(k)
    {
      var u := new UnloadingStation(idx);
      ss := ss + [u];
    }
  }

  /** One station's part of step 5 of `tick`: it ticks with the trucks the
      result gives it, none when it has no entry. */
  method TickOneStation(station: UnloadingStation, assignments: seq<StationInfo>) returns (got: Option<int>)
    modifies station
    ensures (got, station.View()) == TickStation(old(station.View()), LookupTrucks(assignments, station.idx))
  {
    var found := FindStationInfoById(assignments, station.idx);
    if found.None? {
      got := station.Tick([]);
    } else {
      got := station.Tick(found.value.qTrucks);
    }
  }

  /** `steps` are the ticks of the first `|steps|` stations of `before`. */
  ghost predicate StepsOf(steps: seq<(Option<int>, StationData)>, before: seq<StationData>, assignments: seq<StationInfo>)
  {
    |steps| <= |before| && forall k :: 0 <= k < |steps| ==> steps[k] == TickStation(before[k], LookupTrucks(assignments, before[k].idx))
  }

  /** One more station ticked: the steps grow by that station's part. */
  lemma StepsOfAppend(steps: seq<(Option<int>, StationData)>, before: seq<StationData>, assignments: seq<StationInfo>,
                      step: (Option<int>, StationData))
    requires StepsOf(steps, before, assignments) && |steps| < |before|
    requires step == TickStation(before[|steps|], LookupTrucks(assignments, before[|steps|].idx))
    ensures StepsOf(steps + [step], before, assignments)
  {
    var steps' := steps + [step];
    forall k | 0 <= k < |steps'|
      ensures steps'[k] == TickStation(before[k], LookupTrucks(assignments, before[k].idx))
    {
      if k < |steps| {
        assert steps'[k] == steps[k];
      }
    }
  }

  /** Replacing the first untouched station by its new state extends the
      ticked prefix by one. */
  lemma StationsAfterAppend(steps: seq<(Option<int>, StationData)>, before: seq<StationData>, step: (Option<int>, StationData))
    requires |steps| < |before|
    ensures (StationsAfter(steps) + before[|steps|..])[|steps| := step.1] == StationsAfter(steps + [step]) + before[|steps| + 1..]
  {
    assert StationsAfter(steps + [step]) == StationsAfter(steps) + [step.1];
  }

  /** The body of the loop of step 5: the next station ticks. */
  method StationStep(stations: seq<UnloadingStation>, j: nat, assignments: seq<StationInfo>, ghost before: seq<StationData>,
                     released: seq<int>, ghost steps: seq<(Option<int>, StationData)>)
    returns (released': seq<int>, ghost steps': seq<(Option<int>, StationData)>)
    requires Distinct(stations) && j == |steps| < |stations| && |before| == |stations|
    requires StepsOf(steps, before, assignments) && released == Released(steps)
    requires StationViews(stations) == StationsAfter(steps) + before[|steps|..]
    modifies stations[j]
    ensures |steps'| == |steps| + 1 && StepsOf(steps', before, assignments) && released' == Released(steps')
    ensures StationViews(stations) == StationsAfter(steps') + before[|steps'|..]
  {
    assert (StationsAfter(steps) + before[j..])[j] == before[j];
    var got := TickOneStation(stations[j], assignments);
    ghost var step := (got, stations[j].View());
    StepsOfAppend(steps, before, assignments, step);
    ReleasedAppend(steps, step);
    StationsAfterAppend(steps, before, step);
    released' := released + if got.Some? then [got.value] else [];
    steps' := steps + [step];
  }

  /** The loop of step 5 of `tick`: every station in list order ticks and
      the released trucks are collected in that order. */
  method TickStationList(stations: seq<UnloadingStation>, assignments: seq<StationInfo>)
    returns (released: seq<int>, ghost steps: seq<(Option<int>, StationData)>)
    requires Distinct(stations)
    modifies stations
    ensures steps == StationSteps(old(StationViews(stations)), Lookups(assignments, old(StationViews(stations))))
    ensures StationViews(stations) == StationsAfter(steps) && released == Released(steps)
  {
    ghost var before := StationViews(stations);
    released, steps := [], [];
    for j := 0 to |stations|
      invariant |steps| == j && StepsOf(steps, before, assignments) && released == Released(steps)
      invariant StationViews(stations) == StationsAfter(steps) + before[j..]
    {
      released, steps := StationStep(stations, j, assignments, before, released, steps);
    }
    assert before[|stations|..] == [];
    assert StationsAfter(steps) + [] == StationsAfter(steps);
    assert steps == StationSteps(before, Lookups(assignments, before));
  }

  class MiningSimulator {
    const numTrucks: int
    const numStations: int
    /** Stop and hard-limit times, in ticks. */
    const stopTime: int
    const maxTime: int
    /** The lists are built once; only their elements change. */
    const miningTrucks: seq<MiningTruck>
    const unloadingStations: seq<UnloadingStation>
    var currentTick: int

    function View(): SimData
      reads this, miningTrucks, unloadingStations
    {
      SimData(currentTick, TruckViews(miningTrucks), StationViews(unloadingStations))
    }

    /** One object per truck and per station, as many as asked for, and
        the simulation invariant on their joint state. */
    ghost predicate Valid()
      reads this, miningTrucks, unloadingStations
    {
      && |miningTrucks| == RangeLen(numTrucks) && |unloadingStations| == RangeLen(numStations)
      && Distinct(miningTrucks) && Distinct(unloadingStations)
      && SimInv(View())
    }

    /** `__init__`: `n` trucks numbered 0.., `m` stations numbered 0..;
        `draw(i)` is truck `i`'s first mining draw. */
    constructor (nTrucks: int, mStations: int, stopTimeHr: int, maxTimeHr: int, draw: int -> int)
      requires forall i :: IsMiningDraw(draw(i))
      ensures Valid() && View() == NewSim(nTrucks, mStations, draw)
      ensures numTrucks == nTrucks && numStations == mStations
      ensures stopTime == HoursToTicks(stopTimeHr) && maxTime == HoursToTicks(maxTimeHr)
    {
      var ts := MakeTrucks(nTrucks, draw);
      var ss := MakeStations(mStations);
      numTrucks := nTrucks;
      numStations := mStations;
      stopTime := HoursToTicks(stopTimeHr);
      maxTime := HoursToTicks(maxTimeHr);
      miningTrucks := ts;
      unloadingStations := ss;
      currentTick := 0;
      new;
      ghost var s0 := NewSim(nTrucks, mStations, draw);
      assert TruckViews(miningTrucks) == s0.trucks;
      assert StationViews(unloadingStations) == s0.stations;
      assert View() == s0;
      NewSimInv(nTrucks, mStations, draw);
    }

    /** Step 2 of `tick`: the trucks that are unloading and not yet queued. */
    method FindWaitingTrucks() returns (waiting: seq<int>)
      ensures waiting == Pending(TruckViews(miningTrucks))
    {
      ghost var views := TruckViews(miningTrucks);
      waiting := [];
      for i := 0 to |miningTrucks|
        invariant waiting == Pending(views[..i])
      {
        assert views[..i + 1][..i] == views[..i];
        var truck := miningTrucks[i];
        if truck.state == Unloading && !truck.unloadQueued {
          waiting := waiting + [truck.idx];
        }
      }
      assert views[..|miningTrucks|] == views;
    }

    /** The station infos `assign_stations_algo` starts from. */
    method CollectStationInfos() returns (infos: seq<StationInfo>)
      ensures infos == StationInfos(StationViews(unloadingStations))
    {
      ghost var views := StationViews(unloadingStations);
      infos := [];
      for j := 0 to |unloadingStations|
        invariant |infos| == j
        invariant forall k :: 0 <= k < j ==> infos[k] == StationInfo(views[k].idx, WaitTime(views[k]), [])
      {
        var station := unloadingStations[j];
        infos := infos + [StationInfo(station.idx, station.GetWaitTime(), [])];
      }
    }

    /** Step 4 of `tick`. */
    method TickMovingTrucks(draws: seq<int>)
      requires Distinct(miningTrucks) && Draws(draws, |miningTrucks|)
      modifies miningTrucks
      ensures TruckViews(miningTrucks) == TickMoving(old(TruckViews(miningTrucks)), draws)
      ensures StationViews(unloadingStations) == old(StationViews(unloadingStations))
    {
      ghost var before := TruckViews(miningTrucks);
      ghost var after := TickMoving(before, draws);
      for i := 0 to |miningTrucks|
        invariant forall k :: 0 <= k < i ==> miningTrucks[k].View() == after[k]
        invariant forall k :: i <= k < |miningTrucks| ==> miningTrucks[k].View() == before[k]
      {
        var truck := miningTrucks[i];
        if truck.state != Unloading {
          truck.Tick(false, draws[i]);
        }
      }
    }

    /** Step 5 of `tick`: every station ticks and the released trucks are
        collected in station order. */
    method TickStations(assignments: seq<StationInfo>) returns (released: seq<int>)
      requires Distinct(unloadingStations)
      modifies unloadingStations
      ensures var before := old(StationViews(unloadingStations));
        var steps := StationSteps(before, Lookups(assignments, before));
        StationViews(unloadingStations) == StationsAfter(steps) && released == Released(steps)
      ensures TruckViews(miningTrucks) == old(TruckViews(miningTrucks))
    {
      ghost var steps;
      released, steps := TickStationList(unloadingStations, assignments);
    }

    /** First half of step 6: each pair routes its truck to its station.
        The source raises when a pair's truck id is not that truck's
        position; on a numbered list that cannot happen. */
    method AssignTrucks(pairs: seq<TruckAssignment>)
      requires Distinct(miningTrucks) && TrucksNumbered(TruckViews(miningTrucks))
      requires forall p :: 0 <= p < |pairs| ==> 0 <= pairs[p].truckId < |miningTrucks|
      modifies miningTrucks
      ensures TruckViews(miningTrucks) == MarkPairs(old(TruckViews(miningTrucks)), pairs)
      ensures StationViews(unloadingStations) == old(StationViews(unloadingStations))
    {
      ghost var before := TruckViews(miningTrucks);
      for p := 0 to |pairs|
        invariant forall k :: 0 <= k < |miningTrucks| ==> miningTrucks[k].View() == MarkPairs(before, pairs[..p])[k]
      {
        assert pairs[..p + 1][..p] == pairs[..p];
        var truckIdx := pairs[p].truckId;
        var truck := miningTrucks[truckIdx];
        if truckIdx != truck.idx {
          assert false;
        }
        truck.AssignUnloadSite(pairs[p].stationId);
      }
      assert pairs[..|pairs|] == pairs;
    }

    /** Second half of step 6: the queued unloading trucks tick, each told
        whether its station released it. */
    method TickQueuedTrucks(released: seq<int>, draws: seq<int>)
      requires Distinct(miningTrucks) && Draws(draws, |miningTrucks|)
      modifies miningTrucks
      ensures TruckViews(miningTrucks) == TickQueued(old(TruckViews(miningTrucks)), released, draws)
      ensures StationViews(unloadingStations) == old(StationViews(unloadingStations))
    {
      ghost var before := TruckViews(miningTrucks);
      ghost var after := TickQueued(before, released, draws);
      for i := 0 to |miningTrucks|
        invariant forall k :: 0 <= k < i ==> miningTrucks[k].View() == after[k]
        invariant forall k :: i <= k < |miningTrucks| ==> miningTrucks[k].View() == before[k]
      {
        var truck := miningTrucks[i];
        if truck.state == Unloading && truck.unloadQueued {
          var unloadComplete := truck.idx in released;
          truck.Tick(unloadComplete, draws[i]);
        }
      }
    }

    /** Steps 4 to 6 of `tick`, on the algorithm's result, starting from the
        trucks and stations of `s`. */
    method TickPhases(ghost s: SimData, draws: seq<int>,
                      stationAssignments: seq<StationInfo>, truckAssignments: seq<TruckAssignment>)
      requires s.trucks == TruckViews(miningTrucks) && s.stations == StationViews(unloadingStations)
      requires Distinct(miningTrucks) && Distinct(unloadingStations) && Draws(draws, |s.trucks|)
      requires TrucksNumbered(s.trucks)
      requires forall p :: 0 <= p < |truckAssignments| ==> 0 <= truckAssignments[p].truckId < |s.trucks|
      modifies miningTrucks, unloadingStations
      ensures Phased(s, draws, stationAssignments, truckAssignments, TruckViews(miningTrucks), StationViews(unloadingStations))
    {
      TickMovingTrucks(draws);
      var released := TickStations(stationAssignments);
      AssignTrucks(truckAssignments);
      TickQueuedTrucks(released, draws);
    }

    /** Steps 4 to 6 on a result that agrees with the model end in the
        model's tick from `s`. */
    method FinishTick(ghost s: SimData, draws: seq<int>,
                      stationAssignments: seq<StationInfo>, truckAssignments: seq<TruckAssignment>)
      requires s.trucks == TruckViews(miningTrucks) && s.stations == StationViews(unloadingStations)
      requires Distinct(miningTrucks) && Distinct(unloadingStations)
      requires SimInv(s) && Planned(s, draws, stationAssignments, truckAssignments)
      modifies miningTrucks, unloadingStations
      ensures TruckViews(miningTrucks) == Step(s, draws).trucks && StationViews(unloadingStations) == Step(s, draws).stations
      ensures Step(s, draws).currentTick == s.currentTick + 1 && SimInv(Step(s, draws))
    {
      TickPhases(s, draws, stationAssignments, truckAssignments);
      PhasesGiveStep(s, draws, stationAssignments, truckAssignments, TruckViews(miningTrucks), StationViews(unloadingStations));
    }

    /** Steps 2 and 3 of `tick`: the waiting trucks, the station infos and
        the assignment algorithm's result, judged against the tick of the
        model that starts from `s`. With trucks waiting and no station the
        algorithm raises, reported here as `ok == false`. */
    method PlanAssignments(ghost s: SimData, draws: seq<int>)
      returns (ok: bool, stationAssignments: seq<StationInfo>, truckAssignments: seq<TruckAssignment>)
      requires s.trucks == TruckViews(miningTrucks) && s.stations == StationViews(unloadingStations)
      requires StationsNumbered(s.stations) && TrucksNumbered(s.trucks) && Draws(draws, |s.trucks|)
      ensures ok <==> Ready(s)
      ensures ok ==> Planned(s, draws, stationAssignments, truckAssignments)
    {
      var waiting := FindWaitingTrucks();
      stationAssignments, truckAssignments := [], [];
      ghost var infos: seq<StationInfo> := [];
      ghost var order: seq<nat> := [];
      if waiting != [] {
        var stationInfos := CollectStationInfos();
        if |stationInfos| == 0 {
          ok := false;
          return;
        }
        infos := stationInfos;
        var unassigned;
        unassigned, stationAssignments, truckAssignments, order := AssignStations(waiting, stationInfos);
      }
      ResultMatchesStep(s, infos, waiting, stationAssignments, order, TickMoving(s.trucks, draws));
      ok := true;
    }

    /** `tick`: one step of the model. When the assignment algorithm raises
        only the clock has moved. */
    method Tick(draws: seq<int>) returns (ok: bool)
      requires Valid() && Draws(draws, |miningTrucks|)
      modifies this, miningTrucks, unloadingStations
      ensures ok <==> Ready(old(View()))
      ensures ok ==> View() == Step(old(View()), draws) && Valid()
      ensures !ok ==> View() == old(View()).(currentTick := old(currentTick) + 1)
    {
      ghost var s := View();
      currentTick := currentTick + 1;
      assert TruckViews(miningTrucks) == s.trucks && StationViews(unloadingStations) == s.stations;
      var stationAssignments, truckAssignments;
      ok, stationAssignments, truckAssignments := PlanAssignments(s, draws);
      if !ok {
        return;
      }
      FinishTick(s, draws, stationAssignments, truckAssignments);
    }

    /** `run`: tick while the clock has not passed the earlier of the stop
        and the limit time; `draw(k, i)` is truck `i`'s draw on the tick
        that starts at `k`. */
    method Run(draw: (int, int) -> int) returns (ok: bool)
      requires Valid() && forall k, i :: IsMiningDraw(draw(k, i))
      modifies this, miningTrucks, unloadingStations
      ensures var r := Simulate(old(View()), draw, Min(stopTime, maxTime));
        (ok <==> r.Some?) && (ok ==> View() == r.value && Valid())
    {
      var simStopTime := Min(stopTime, maxTime);
      ok := true;
      while currentTick <= simStopTime
        invariant Valid()
        invariant Simulate(old(View()), draw, simStopTime) == Simulate(View(), draw, simStopTime)
        decreases simStopTime - currentTick
      {
        var draws := DrawsAt(draw, currentTick, |miningTrucks|);
        ok := Tick(draws);
        if !ok {
          return;
        }
      }
    }
  }
}
