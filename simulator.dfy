/** The simulation: every tick, the trucks waiting at the unloading site are
    handed to the assignment algorithm, the moving trucks advance, every
    station admits its new trucks and releases one, and the trucks in the
    queues advance, each truck exactly once. */
module Simulator {
  import opened Wrappers
  import opened SimEnums
  import opened Truck
  import opened UnloadStation
  import opened Assignment

  /** `int(hours * 60 / 5)`: one tick is five minutes. */
  function HoursToTicks(hours: int): (ticks: int)
    ensures ticks == 12 * hours
  {
    hours * 60 / 5
  }

  /** Everything a simulation tick reads and writes. */
  datatype SimData = SimData(currentTick: int, trucks: seq<TruckData>, stations: seq<StationData>)

  /** A truck at the unloading site that has no station yet. */
  predicate NeedsStation(t: TruckData)
  {
    t.state == Unloading && !t.unloadQueued
  }

  /** Step 2 of `tick`: the ids of the trucks that need a station, in list order. */
  function Pending(ts: seq<TruckData>): (r: seq<int>)
    ensures |r| <= |ts|
    ensures r == [] <==> forall i :: 0 <= i < |ts| ==> !NeedsStation(ts[i])
  {
    if |ts| == 0 then []
    else Pending(ts[..|ts| - 1]) + (if NeedsStation(ts[|ts| - 1]) then [ts[|ts| - 1].idx] else [])
  }

  /** Truck ids are list positions, as the constructor numbers them. */
  ghost predicate TrucksNumbered(ts: seq<TruckData>)
  {
    forall i :: 0 <= i < |ts| ==> ts[i].idx == i
  }

  /** Station ids are list positions. */
  ghost predicate StationsNumbered(ss: seq<StationData>)
  {
    forall j :: 0 <= j < |ss| ==> ss[j].idx == j
  }

  predicate Increasing(r: seq<int>)
  {
    forall a, b :: 0 <= a < b < |r| ==> r[a] < r[b]
  }

  /** On a numbered list the scan collects exactly the positions of the
      trucks that need a station, in increasing order. */
  lemma {:induction false} PendingIndexes(ts: seq<TruckData>)
    requires TrucksNumbered(ts)
    ensures var r := Pending(ts);
      && (forall q :: 0 <= q < |r| ==> 0 <= r[q] < |ts|)
      && (forall i :: 0 <= i < |ts| ==> (i in r <==> NeedsStation(ts[i])))
      && Increasing(r) && Distinct(r)
    decreases |ts|
  {
    if |ts| > 0 {
      var n := |ts|;
      var init := ts[..n - 1];
      PendingIndexes(init);
      var p := Pending(init);
      assert forall x :: x in p ==> x < n - 1;
    }
  }

  /** The station infos `assign_stations_algo` builds: id, wait time, no trucks. */
  function StationInfos(ss: seq<StationData>): (r: seq<StationInfo>)
    ensures |r| == |ss|
    ensures forall j :: 0 <= j < |ss| ==> r[j] == StationInfo(ss[j].idx, WaitTime(ss[j]), [])
  {
    seq(|ss|, j requires 0 <= j < |ss| => StationInfo(ss[j].idx, WaitTime(ss[j]), []))
  }

  /** The tick can run: with no station, a waiting truck makes the
      assignment algorithm index an empty list. */
  function Ready(s: SimData): (r: bool)
    ensures r <==> |s.stations| > 0 || forall i :: 0 <= i < |s.trucks| ==> !NeedsStation(s.trucks[i])
  {
    |s.stations| > 0 || Pending(s.trucks) == []
  }

  /** Station picked for each waiting truck, in the order of `Pending`. */
  function Picks(s: SimData): (t: seq<nat>)
    requires Ready(s)
    ensures |t| == |Pending(s.trucks)| && forall i :: 0 <= i < |t| ==> t[i] < |s.stations|
  {
    var t := Greedy(StationInfos(s.stations), |Pending(s.trucks)|);
    assert forall i :: 0 <= i < |t| ==> IsLeast(StationInfos(s.stations), t[..i], t[i]);
    t
  }

  /** The trucks station `j` admits on this tick. */
  function Admitted(s: SimData, j: nat): seq<int>
    requires Ready(s)
  {
    Routed(Pending(s.trucks), Picks(s), j)
  }

  /** Station `j`'s queue with this tick's trucks appended. */
  function Combined(s: SimData, j: nat): seq<int>
    requires Ready(s) && j < |s.stations|
  {
    s.stations[j].queue.items + Admitted(s, j)
  }

  function Admissions(s: SimData): (r: seq<seq<int>>)
    requires Ready(s)
    ensures |r| == |s.stations| && forall j :: 0 <= j < |s.stations| ==> r[j] == Admitted(s, j)
  {
    seq(|s.stations|, j requires 0 <= j < |s.stations| => Admitted(s, j))
  }

  /** Step 5 of `tick`: every station ticks with its admitted trucks. */
  function StationSteps(ss: seq<StationData>, adm: seq<seq<int>>): (r: seq<(Option<int>, StationData)>)
    requires |adm| == |ss|
    ensures |r| == |ss| && forall j :: 0 <= j < |ss| ==> r[j] == TickStation(ss[j], adm[j])
  {
    seq(|ss|, j requires 0 <= j < |ss| => TickStation(ss[j], adm[j]))
  }

  /** The released trucks, station by station. */
  function Released(steps: seq<(Option<int>, StationData)>): (r: seq<int>)
  {
    if |steps| == 0 then []
    else Released(steps[..|steps| - 1]) + (match steps[|steps| - 1].0 case Some(x) => [x] case None => [])
  }

  /** Releases accumulate one station at a time. */
  lemma ReleasedAppend(steps: seq<(Option<int>, StationData)>, step: (Option<int>, StationData))
    ensures Released(steps + [step]) == Released(steps) + (if step.0.Some? then [step.0.value] else [])
  {
    assert (steps + [step])[..|steps|] == steps;
  }

  lemma {:induction false} ReleasedMember(steps: seq<(Option<int>, StationData)>, y: int)
    ensures y in Released(steps) <==> exists j :: 0 <= j < |steps| && steps[j].0 == Some(y)
    decreases |steps|
  {
    if |steps| > 0 {
      var init := steps[..|steps| - 1];
      ReleasedMember(init, y);
      assert forall j :: 0 <= j < |init| ==> init[j] == steps[j];
    }
  }

  function StationsAfter(steps: seq<(Option<int>, StationData)>): (r: seq<StationData>)
    ensures |r| == |steps| && forall j :: 0 <= j < |steps| ==> r[j] == steps[j].1
  {
    seq(|steps|, j requires 0 <= j < |steps| => steps[j].1)
  }

  /** One mining draw per truck for this tick. */
  predicate Draws(draws: seq<int>, n: int)
  {
    |draws| == n && forall i :: 0 <= i < |draws| ==> IsMiningDraw(draws[i])
  }

  /** Step 4 of `tick`: every truck that is not unloading ticks. */
  function TickMoving(ts: seq<TruckData>, draws: seq<int>): (r: seq<TruckData>)
    requires Draws(draws, |ts|)
    ensures |r| == |ts|
    ensures forall i :: 0 <= i < |ts| ==>
              r[i] == if ts[i].state != Unloading then TickData(ts[i], false, draws[i]) else ts[i]
  {
    seq(|ts|, i requires 0 <= i < |ts| =>
      if ts[i].state != Unloading then TickData(ts[i], false, draws[i]) else ts[i])
  }

  /** First position of `x` in `r`. */
  function IndexOf(r: seq<int>, x: int): (q: nat)
    requires x in r
    ensures q < |r| && r[q] == x && forall q' :: 0 <= q' < q ==> r[q'] != x
  {
    if r[0] == x then 0 else 1 + IndexOf(r[1..], x)
  }

  /** First half of step 6: each waiting truck is queued at its pick. */
  function MarkAssigned(ts: seq<TruckData>, waiting: seq<int>, picks: seq<nat>): (r: seq<TruckData>)
    requires |picks| == |waiting|
    ensures |r| == |ts|
    ensures forall i :: 0 <= i < |ts| ==>
              r[i] == if i in waiting then ts[i].(unloadSiteId := picks[IndexOf(waiting, i)], unloadQueued := true)
                      else ts[i]
  {
    seq(|ts|, i requires 0 <= i < |ts| =>
      if i in waiting then ts[i].(unloadSiteId := picks[IndexOf(waiting, i)], unloadQueued := true) else ts[i])
  }

  /** Second half of step 6: every queued unloading truck ticks, told whether
      its station released it. */
  function TickQueued(ts: seq<TruckData>, released: seq<int>, draws: seq<int>): (r: seq<TruckData>)
    requires Draws(draws, |ts|)
    ensures |r| == |ts|
    ensures forall i :: 0 <= i < |ts| ==>
              r[i] == if ts[i].state == Unloading && ts[i].unloadQueued
                      then TickData(ts[i], ts[i].idx in released, draws[i]) else ts[i]
  {
    seq(|ts|, i requires 0 <= i < |ts| =>
      if ts[i].state == Unloading && ts[i].unloadQueued then TickData(ts[i], ts[i].idx in released, draws[i])
      else ts[i])
  }

  /** One simulation tick. */
  function Step(s: SimData, draws: seq<int>): (r: SimData)
    requires Ready(s) && Draws(draws, |s.trucks|)
    ensures r.currentTick == s.currentTick + 1 && |r.trucks| == |s.trucks| && |r.stations| == |s.stations|
  {
    var steps := StationSteps(s.stations, Admissions(s));
    var marked := MarkAssigned(TickMoving(s.trucks, draws), Pending(s.trucks), Picks(s));
    SimData(s.currentTick + 1, TickQueued(marked, Released(steps), draws), StationsAfter(steps))
  }

  /** The tick, phase by phase. */
  lemma StepPhases(s: SimData, draws: seq<int>, moved: seq<TruckData>, marked: seq<TruckData>,
                   steps: seq<(Option<int>, StationData)>)
    requires Ready(s) && Draws(draws, |s.trucks|)
    requires moved == TickMoving(s.trucks, draws)
    requires marked == MarkAssigned(moved, Pending(s.trucks), Picks(s))
    requires steps == StationSteps(s.stations, Admissions(s))
    ensures Step(s, draws) == SimData(s.currentTick + 1, TickQueued(marked, Released(steps), draws), StationsAfter(steps))
  {
  }

  // ---------------------------------------------------------------------
  // The invariant

  /** Truck `t` waits in the queue of station `j`. */
  predicate QueuedAt(t: TruckData, j: int)
  {
    t.state == Unloading && t.unloadQueued && t.unloadSiteId == j
  }

  /** A truck is queued only while unloading, and has a station only while queued. */
  predicate TruckOk(t: TruckData)
  {
    TimerOk(t) && (t.unloadQueued ==> t.state == Unloading) && (!t.unloadQueued ==> t.unloadSiteId == -1)
  }

  /** The queues and the trucks agree: a truck id is in station `j`'s queue
      exactly when that truck is queued at `j`. */
  ghost predicate QueuesAgree(s: SimData)
  {
    && (forall j, k :: 0 <= j < |s.stations| && 0 <= k < |s.stations[j].queue.items| ==>
          var y := s.stations[j].queue.items[k]; 0 <= y < |s.trucks| && QueuedAt(s.trucks[y], j))
    && (forall j, y :: 0 <= j < |s.stations| && 0 <= y < |s.trucks| && QueuedAt(s.trucks[y], j) ==>
          y in s.stations[j].queue.items)
  }

  /** Every truck: numbered, consistent, on the simulation clock, queued only at a station that exists. */
  ghost predicate TrucksInv(s: SimData)
  {
    && TrucksNumbered(s.trucks)
    && forall i :: 0 <= i < |s.trucks| ==>
         && TruckOk(s.trucks[i]) && s.trucks[i].currentTick == s.currentTick
         && (s.trucks[i].unloadQueued ==> 0 <= s.trucks[i].unloadSiteId < |s.stations|)
  }

  /** Every station: numbered, no truck twice in its queue, on the simulation clock. */
  ghost predicate StationsInv(s: SimData)
  {
    && StationsNumbered(s.stations)
    && forall j :: 0 <= j < |s.stations| ==>
         Distinct(s.stations[j].queue.items) && s.stations[j].currentTick == s.currentTick
  }

  /** What holds between ticks. */
  ghost predicate SimInv(s: SimData)
  {
    TrucksInv(s) && StationsInv(s) && QueuesAgree(s)
  }

  // ---------------------------------------------------------------------
  // Why a tick keeps the invariant

  lemma DistinctAppend(a: seq<int>, b: seq<int>)
    requires Distinct(a) && Distinct(b) && forall x :: x in a ==> x !in b
    ensures Distinct(a + b)
  {
    forall u, v | 0 <= u < v < |a + b|
      ensures (a + b)[u] != (a + b)[v]
    {
      if v >= |a| && u < |a| {
        assert (a + b)[u] in a && (a + b)[v] in b;
      }
    }
  }

  /** A truck is routed to `j` exactly when one of the picks for it is `j`. */
  lemma {:induction false} RoutedMember(trucks: seq<int>, t: seq<nat>, j: nat, y: int)
    requires |t| <= |trucks|
    ensures y in Routed(trucks, t, j) <==> exists q :: 0 <= q < |t| && trucks[q] == y && t[q] == j
    decreases |t|
  {
    if |t| > 0 {
      var n := |t|;
      RoutedMember(trucks, t[..n - 1], j, y);
      assert forall q :: 0 <= q < n - 1 ==> t[..n - 1][q] == t[q];
    }
  }

  /** Routing distinct trucks routes each at most once. */
  lemma {:induction false} RoutedDistinct(trucks: seq<int>, t: seq<nat>, j: nat)
    requires |t| <= |trucks| && Distinct(trucks)
    ensures Distinct(Routed(trucks, t, j))
    decreases |t|
  {
    if |t| > 0 {
      var n := |t|;
      var init := Routed(trucks, t[..n - 1], j);
      RoutedDistinct(trucks, t[..n - 1], j);
      if t[n - 1] == j {
        forall y | y in init
          ensures y !in [trucks[n - 1]]
        {
          RoutedMember(trucks, t[..n - 1], j, y);
        }
        DistinctAppend(init, [trucks[n - 1]]);
      }
    }
  }

  /** Truck `y` is in station `j`'s queue once this tick's trucks are
      admitted: it was queued there, or it was waiting and `j` was picked. */
  ghost predicate BelongsTo(s: SimData, y: int, j: int)
    requires Ready(s)
  {
    && 0 <= y < |s.trucks|
    && (QueuedAt(s.trucks[y], j) || (y in Pending(s.trucks) && Picks(s)[IndexOf(Pending(s.trucks), y)] == j))
  }

  lemma CombinedMember(s: SimData, j: nat, y: int)
    requires SimInv(s) && Ready(s) && j < |s.stations|
    ensures y in Combined(s, j) <==> BelongsTo(s, y, j)
  {
    var P := Pending(s.trucks);
    PendingIndexes(s.trucks);
    RoutedMember(P, Picks(s), j, y);
    if y in P {
      var q := IndexOf(P, y);
      assert forall q' :: 0 <= q' < |P| && P[q'] == y ==> q' == q;
    }
  }

  lemma CombinedDistinct(s: SimData, j: nat)
    requires SimInv(s) && Ready(s) && j < |s.stations|
    ensures Distinct(Combined(s, j))
  {
    var P := Pending(s.trucks);
    PendingIndexes(s.trucks);
    RoutedDistinct(P, Picks(s), j);
    forall y | y in s.stations[j].queue.items
      ensures y !in Admitted(s, j)
    {
      QueueMember(s, j, y);
      assert y !in P;
      RoutedMember(P, Picks(s), j, y);
    }
    DistinctAppend(s.stations[j].queue.items, Admitted(s, j));
  }

  /** A queued id names a truck queued at that station. */
  lemma QueueMember(s: SimData, j: nat, y: int)
    requires QueuesAgree(s) && j < |s.stations| && y in s.stations[j].queue.items
    ensures 0 <= y < |s.trucks| && QueuedAt(s.trucks[y], j)
  {
    var k :| 0 <= k < |s.stations[j].queue.items| && s.stations[j].queue.items[k] == y;
  }

  /** A truck belongs to at most one station. */
  lemma BelongsUnique(s: SimData, y: int, j: int, j': int)
    requires SimInv(s) && Ready(s) && BelongsTo(s, y, j) && BelongsTo(s, y, j')
    ensures j == j'
  {
    PendingIndexes(s.trucks);
  }

  /** Station `j` releases the head of its combined queue, keeps the rest. */
  lemma StationAfterStep(s: SimData, draws: seq<int>, j: nat)
    requires Ready(s) && Draws(draws, |s.trucks|) && j < |s.stations|
    ensures var c := Combined(s, j);
      && StationSteps(s.stations, Admissions(s))[j].0 == (if c == [] then None else Some(c[0]))
      && Step(s, draws).stations[j].queue.items == (if c == [] then [] else c[1..])
      && Step(s, draws).stations[j].idx == s.stations[j].idx
      && Step(s, draws).stations[j].currentTick == s.stations[j].currentTick + 1
  {
    var r := TickStation(s.stations[j], Admitted(s, j));
    TickFifo(s.stations[j], Admitted(s, j));
    if r.0.Some? {
      assert [r.0.value] + r.1.queue.items == Combined(s, j);
    }
  }

  /** A truck is released exactly when it heads its station's combined queue. */
  lemma ReleasedIff(s: SimData, draws: seq<int>, y: int, j0: int)
    requires SimInv(s) && Ready(s) && Draws(draws, |s.trucks|) && BelongsTo(s, y, j0) && 0 <= j0 < |s.stations|
    ensures y in Combined(s, j0)
    ensures y in Released(StationSteps(s.stations, Admissions(s))) <==> Combined(s, j0)[0] == y
  {
    var steps := StationSteps(s.stations, Admissions(s));
    CombinedMember(s, j0, y);
    ReleasedMember(steps, y);
    StationAfterStep(s, draws, j0);
    if y in Released(steps) {
      var j :| 0 <= j < |steps| && steps[j].0 == Some(y);
      StationAfterStep(s, draws, j);
      CombinedMember(s, j, y);
      BelongsUnique(s, y, j, j0);
    }
  }

  /** A truck that is not unloading moves on step 4 and is left alone after. */
  lemma FinalMoving(s: SimData, draws: seq<int>, y: int)
    requires SimInv(s) && Ready(s) && Draws(draws, |s.trucks|) && 0 <= y < |s.trucks|
    requires s.trucks[y].state != Unloading
    ensures Step(s, draws).trucks[y] == TickData(s.trucks[y], false, draws[y])
    ensures !Step(s, draws).trucks[y].unloadQueued && Step(s, draws).trucks[y].unloadSiteId == -1
  {
    PendingIndexes(s.trucks);
    TickStepsCycle(s.trucks[y], false, draws[y]);
  }

  /** The station an unloading truck is queued at by the end of step 6. */
  function SiteAfterAssign(s: SimData, y: int): (x: TruckData)
    requires SimInv(s) && Ready(s) && 0 <= y < |s.trucks| && s.trucks[y].state == Unloading
  {
    if s.trucks[y].unloadQueued then s.trucks[y]
    else
      PendingIndexes(s.trucks);
      s.trucks[y].(unloadSiteId := Picks(s)[IndexOf(Pending(s.trucks), y)], unloadQueued := true)
  }

  /** An unloading truck's station after step 3 exists and holds it. */
  lemma SiteAfterAssignOk(s: SimData, y: int)
    requires SimInv(s) && Ready(s) && 0 <= y < |s.trucks| && s.trucks[y].state == Unloading
    ensures var x := SiteAfterAssign(s, y);
      && TimerOk(x) && 0 <= x.unloadSiteId < |s.stations| && BelongsTo(s, y, x.unloadSiteId) && QueuedAt(x, x.unloadSiteId)
  {
    PendingIndexes(s.trucks);
    if !s.trucks[y].unloadQueued {
      var P := Pending(s.trucks);
      var q := IndexOf(P, y);
      assert Picks(s)[q] < |s.stations|;
    }
  }

  /** An unloading truck ticks once, on step 6, at its (possibly new) station. */
  lemma FinalUnloading(s: SimData, draws: seq<int>, y: int)
    requires SimInv(s) && Ready(s) && Draws(draws, |s.trucks|) && 0 <= y < |s.trucks|
    requires s.trucks[y].state == Unloading
    ensures Step(s, draws).trucks[y]
            == TickData(SiteAfterAssign(s, y), y in Released(StationSteps(s.stations, Admissions(s))), draws[y])
  {
    PendingIndexes(s.trucks);
  }

  /** Over one tick every truck ticks exactly once (one clock step, one log
      record), keeps its id and its consistency, and is queued at station
      `j` afterwards exactly when it was in `j`'s combined queue and was not
      the one released. */
  lemma TruckAfterStep(s: SimData, draws: seq<int>, y: int)
    requires SimInv(s) && Ready(s) && Draws(draws, |s.trucks|) && 0 <= y < |s.trucks|
    ensures var r := Step(s, draws).trucks[y];
      && r.idx == y && r.currentTick == s.trucks[y].currentTick + 1
      && |r.log| == |s.trucks[y].log| + 1
      && TruckOk(r) && (r.unloadQueued ==> 0 <= r.unloadSiteId < |s.stations|)
      && forall j :: 0 <= j < |s.stations| ==>
           (QueuedAt(r, j) <==> y in Combined(s, j) && Combined(s, j)[0] != y)
  {
    var t := s.trucks[y];
    PendingIndexes(s.trucks);
    if t.state != Unloading {
      FinalMoving(s, draws, y);
      TickKeepsTimer(t, false, draws[y]);
      forall j | 0 <= j < |s.stations|
        ensures y !in Combined(s, j)
      {
        CombinedMember(s, j, y);
      }
    } else {
      FinalUnloading(s, draws, y);
      SiteAfterAssignOk(s, y);
      var x := SiteAfterAssign(s, y);
      var j0 := x.unloadSiteId;
      ReleasedIff(s, draws, y, j0);
      var released := y in Released(StationSteps(s.stations, Admissions(s)));
      TickKeepsTimer(x, released, draws[y]);
      if released {
        ServedTruckLeaves(x, draws[y]);
      } else {
        ParkedTruckStays(x, draws[y]);
      }
      forall j | 0 <= j < |s.stations|
        ensures y in Combined(s, j) <==> j == j0
      {
        CombinedMember(s, j, y);
        if y in Combined(s, j) {
          BelongsUnique(s, y, j, j0);
        }
      }
    }
  }

  lemma DistinctTail(c: seq<int>, y: int)
    requires Distinct(c) && c != []
    ensures y in c[1..] <==> y in c && c[0] != y
  {
    if y in c[1..] {
      var k :| 0 <= k < |c[1..]| && c[1..][k] == y;
      assert c[k + 1] == y;
    }
    if y in c && c[0] != y {
      var k :| 0 <= k < |c| && c[k] == y;
      assert c[1..][k - 1] == y;
    }
  }

  /** After the tick, station `j` holds truck `y` exactly when `y` is queued at `j`. */
  lemma QueueAgreesAfterStep(s: SimData, draws: seq<int>, j: nat, y: int)
    requires SimInv(s) && Ready(s) && Draws(draws, |s.trucks|) && j < |s.stations|
    ensures var r := Step(s, draws);
      y in r.stations[j].queue.items <==> 0 <= y < |r.trucks| && QueuedAt(r.trucks[y], j)
  {
    var c := Combined(s, j);
    StationAfterStep(s, draws, j);
    CombinedDistinct(s, j);
    if c != [] {
      DistinctTail(c, y);
    }
    assert y in Step(s, draws).stations[j].queue.items <==> y in c && c[0] != y;
    if 0 <= y < |s.trucks| {
      TruckAfterStep(s, draws, y);
    } else {
      CombinedMember(s, j, y);
    }
  }

  /** The invariant holds after every tick that runs. */
  lemma StepKeepsInv(s: SimData, draws: seq<int>)
    requires SimInv(s) && Ready(s) && Draws(draws, |s.trucks|)
    ensures SimInv(Step(s, draws))
  {
    TrucksInvAfterStep(s, draws);
    StationsInvAfterStep(s, draws);
    QueuesAgreeAfterStep(s, draws);
  }

  lemma TrucksInvAfterStep(s: SimData, draws: seq<int>)
    requires SimInv(s) && Ready(s) && Draws(draws, |s.trucks|)
    ensures TrucksInv(Step(s, draws))
  {
    var r := Step(s, draws);
    forall y | 0 <= y < |r.trucks|
      ensures && r.trucks[y].idx == y && TruckOk(r.trucks[y]) && r.trucks[y].currentTick == r.currentTick
              && (r.trucks[y].unloadQueued ==> 0 <= r.trucks[y].unloadSiteId < |r.stations|)
    {
      TruckAfterStep(s, draws, y);
    }
  }

  lemma StationsInvAfterStep(s: SimData, draws: seq<int>)
    requires SimInv(s) && Ready(s) && Draws(draws, |s.trucks|)
    ensures StationsInv(Step(s, draws))
  {
    var r := Step(s, draws);
    forall j | 0 <= j < |r.stations|
      ensures && r.stations[j].idx == j && Distinct(r.stations[j].queue.items)
              && r.stations[j].currentTick == r.currentTick
    {
      StationAfterStep(s, draws, j);
      CombinedDistinct(s, j);
    }
  }

  lemma QueuesAgreeAfterStep(s: SimData, draws: seq<int>)
    requires SimInv(s) && Ready(s) && Draws(draws, |s.trucks|)
    ensures QueuesAgree(Step(s, draws))
  {
    var r := Step(s, draws);
    forall j, k | 0 <= j < |r.stations| && 0 <= k < |r.stations[j].queue.items|
      ensures var y := r.stations[j].queue.items[k]; 0 <= y < |r.trucks| && QueuedAt(r.trucks[y], j)
    {
      QueueAgreesAfterStep(s, draws, j, r.stations[j].queue.items[k]);
    }
    forall j, y | 0 <= j < |r.stations| && 0 <= y < |r.trucks| && QueuedAt(r.trucks[y], j)
      ensures y in r.stations[j].queue.items
    {
      QueueAgreesAfterStep(s, draws, j, y);
    }
  }

  // ---------------------------------------------------------------------
  // A whole run

  /** Python's `range(n)` has this many elements. */
  function RangeLen(n: int): nat
  {
    if n < 0 then 0 else n
  }

  /** The state `__init__` builds: `n` trucks at the mine, `m` empty
      stations, every clock at zero; `draw(i)` is truck `i`'s first draw. */
  function NewSim(n: int, m: int, draw: int -> int): (s: SimData)
    requires forall i :: IsMiningDraw(draw(i))
    ensures |s.trucks| == RangeLen(n) && |s.stations| == RangeLen(m) && s.currentTick == 0
  {
    SimData(0, seq(RangeLen(n), i => NewTruck(i, draw(i))), seq(RangeLen(m), j => NewStation(j)))
  }

  /** The invariant holds from the start. */
  lemma NewSimInv(n: int, m: int, draw: int -> int)
    requires forall i :: IsMiningDraw(draw(i))
    ensures SimInv(NewSim(n, m, draw))
  {
    NewTrucksInv(n, m, draw);
    NewStationsInv(n, m, draw);
    NewQueuesAgree(n, m, draw);
  }

  lemma NewTrucksInv(n: int, m: int, draw: int -> int)
    requires forall i :: IsMiningDraw(draw(i))
    ensures TrucksInv(NewSim(n, m, draw))
  {
    var s := NewSim(n, m, draw);
    forall i | 0 <= i < |s.trucks|
      ensures s.trucks[i].idx == i && TruckOk(s.trucks[i]) && s.trucks[i].currentTick == 0 && !s.trucks[i].unloadQueued
    {
      NewTruckTimerOk(i, draw(i));
    }
  }

  lemma NewStationsInv(n: int, m: int, draw: int -> int)
    requires forall i :: IsMiningDraw(draw(i))
    ensures StationsInv(NewSim(n, m, draw))
  {
    var s := NewSim(n, m, draw);
    forall j | 0 <= j < |s.stations|
      ensures s.stations[j].idx == j && s.stations[j].queue.items == [] && s.stations[j].currentTick == 0
    {
    }
  }

  lemma NewQueuesAgree(n: int, m: int, draw: int -> int)
    requires forall i :: IsMiningDraw(draw(i))
    ensures QueuesAgree(NewSim(n, m, draw))
  {
    var s := NewSim(n, m, draw);
    forall i | 0 <= i < |s.trucks|
      ensures !s.trucks[i].unloadQueued
    {
    }
    forall j | 0 <= j < |s.stations|
      ensures s.stations[j].queue.items == []
    {
    }
  }

  /** The draws of the tick that starts at `tick`, one per truck. */
  function DrawsAt(draw: (int, int) -> int, tick: int, n: nat): (r: seq<int>)
    requires forall k, i :: IsMiningDraw(draw(k, i))
    ensures Draws(r, n)
  {
    seq(n, i => draw(tick, i))
  }

  /** `run`: tick while the clock has not passed `stop`; None when a tick
      raises. */
  function Simulate(s: SimData, draw: (int, int) -> int, stop: int): (r: Option<SimData>)
    requires forall k, i :: IsMiningDraw(draw(k, i))
    ensures r.Some? ==> && r.value.currentTick == (if s.currentTick <= stop then stop + 1 else s.currentTick)
                        && |r.value.trucks| == |s.trucks| && |r.value.stations| == |s.stations|
    ensures r.None? ==> s.currentTick <= stop && |s.stations| == 0
    decreases stop - s.currentTick
  {
    if s.currentTick > stop then Some(s)
    else if !Ready(s) then None
    else Simulate(Step(s, DrawsAt(draw, s.currentTick, |s.trucks|)), draw, stop)
  }

  /** A run keeps the invariant and stops with the clock just past `stop`. */
  lemma {:induction false} SimulateKeepsInv(s: SimData, draw: (int, int) -> int, stop: int)
    requires forall k, i :: IsMiningDraw(draw(k, i))
    requires SimInv(s)
    ensures var r := Simulate(s, draw, stop);
      r.Some? ==> (&& SimInv(r.value)
                   && r.value.currentTick == (if s.currentTick <= stop then stop + 1 else s.currentTick)
                   && |r.value.trucks| == |s.trucks| && |r.value.stations| == |s.stations|)
    decreases stop - s.currentTick
  {
    if s.currentTick <= stop && Ready(s) {
      var draws := DrawsAt(draw, s.currentTick, |s.trucks|);
      StepKeepsInv(s, draws);
      SimulateKeepsInv(Step(s, draws), draw, stop);
    }
  }

  /** With at least one station (or no truck at all) no tick raises. */
  lemma {:induction false} SimulateSucceeds(s: SimData, draw: (int, int) -> int, stop: int)
    requires forall k, i :: IsMiningDraw(draw(k, i))
    requires |s.stations| > 0 || |s.trucks| == 0
    ensures Simulate(s, draw, stop).Some?
    decreases stop - s.currentTick
  {
    if s.currentTick <= stop {
      SimulateSucceeds(Step(s, DrawsAt(draw, s.currentTick, |s.trucks|)), draw, stop);
    }
  }

  // ---------------------------------------------------------------------
  // Steps 5 and 6 as the source runs them, on the algorithm's result

  /** The trucks a station finds for itself in the algorithm's result. */
  function LookupTrucks(assignments: seq<StationInfo>, stationId: int): seq<int>
  {
    match FindStationInfoById(assignments, stationId)
    case None => []
    case Some(e) => e.qTrucks
  }

  function Lookups(assignments: seq<StationInfo>, ss: seq<StationData>): (r: seq<seq<int>>)
    ensures |r| == |ss| && forall j :: 0 <= j < |ss| ==> r[j] == LookupTrucks(assignments, ss[j].idx)
  {
    seq(|ss|, j requires 0 <= j < |ss| => LookupTrucks(assignments, ss[j].idx))
  }

  /** Each pair in turn queues its truck at its station. */
  function MarkPairs(ts: seq<TruckData>, pairs: seq<TruckAssignment>): (r: seq<TruckData>)
    requires forall p :: 0 <= p < |pairs| ==> 0 <= pairs[p].truckId < |ts|
    ensures |r| == |ts|
    decreases |pairs|
  {
    if |pairs| == 0 then ts
    else
      var m := MarkPairs(ts, pairs[..|pairs| - 1]);
      var a := pairs[|pairs| - 1];
      m[a.truckId := m[a.truckId].(unloadSiteId := a.stationId, unloadQueued := true)]
  }

  /** When all pairs naming truck `i` agree on its station, the order of the
      pairs does not matter: the truck is queued there if any pair names it,
      and left alone otherwise. */
  lemma {:induction false} MarkPairsAt(ts: seq<TruckData>, pairs: seq<TruckAssignment>, i: nat, site: int)
    requires forall p :: 0 <= p < |pairs| ==> 0 <= pairs[p].truckId < |ts|
    requires i < |ts|
    requires forall p :: 0 <= p < |pairs| && pairs[p].truckId == i ==> pairs[p].stationId == site
    ensures MarkPairs(ts, pairs)[i] ==
              if exists p :: 0 <= p < |pairs| && pairs[p].truckId == i
              then ts[i].(unloadSiteId := site, unloadQueued := true) else ts[i]
    decreases |pairs|
  {
    if |pairs| > 0 {
      var init := pairs[..|pairs| - 1];
      MarkPairsAt(ts, init, i, site);
      assert forall p :: 0 <= p < |init| ==> init[p] == pairs[p];
    }
  }

  /** Every pair comes from a station: it names one of that station's trucks and its id. */
  lemma {:induction false} PairOrigin(infos: seq<StationInfo>, p: nat)
    requires p < |GetTruckAssignments(infos)|
    ensures exists k :: 0 <= k < |infos| && GetTruckAssignments(infos)[p].truckId in infos[k].qTrucks
                        && GetTruckAssignments(infos)[p].stationId == infos[k].stationId
    decreases |infos|
  {
    var head := StationPairs(infos[0]);
    assert GetTruckAssignments(infos) == head + GetTruckAssignments(infos[1..]);
    if p < |head| {
      assert head[p].truckId == infos[0].qTrucks[p];
    } else {
      PairOrigin(infos[1..], p - |head|);
      var k :| 0 <= k < |infos[1..]| && GetTruckAssignments(infos[1..])[p - |head|].truckId in infos[1..][k].qTrucks
                && GetTruckAssignments(infos[1..])[p - |head|].stationId == infos[1..][k].stationId;
      assert infos[1..][k] == infos[k + 1];
    }
  }

  /** What the simulator uses of that result: entry `k` is station
      `order[k]`'s id with the trucks routed to it. */
  ghost predicate Entries(s: SimData, stations: seq<StationInfo>, order: seq<nat>)
    requires Ready(s)
  {
    && |stations| == |order| && |order| == |s.stations|
    && (forall j :: 0 <= j < |s.stations| ==> j in order)
    && (forall k :: 0 <= k < |order| ==>
          order[k] < |s.stations| && stations[k].stationId == order[k] && stations[k].qTrucks == Admitted(s, order[k]))
  }

  /** The algorithm's promise, run on this state's waiting trucks and
      station infos, gives those entries. */
  lemma EntriesOfAssigned(s: SimData, infos: seq<StationInfo>, waiting: seq<int>,
                          stations: seq<StationInfo>, order: seq<nat>)
    requires Ready(s) && StationsNumbered(s.stations)
    requires infos == StationInfos(s.stations) && waiting == Pending(s.trucks)
    requires |stations| == |infos| && |order| == |infos|
    requires forall j :: 0 <= j < |infos| ==> j in order
    requires forall k :: 0 <= k < |order| ==> order[k] < |infos|
    requires forall k :: 0 <= k < |stations| ==> stations[k] == Served(infos, waiting, Greedy(infos, |waiting|), order[k])
    ensures Entries(s, stations, order)
  {
    forall k | 0 <= k < |order|
      ensures stations[k].stationId == order[k] && stations[k].qTrucks == Admitted(s, order[k])
    {
      var j := order[k];
      assert Greedy(infos, |waiting|) == Picks(s);
      assert infos[j] == StationInfo(j, WaitTime(s.stations[j]), []);
      assert stations[k] == infos[j].(qTrucks := [] + Admitted(s, j));
      assert [] + Admitted(s, j) == Admitted(s, j);
    }
  }

  /** Steps 5 and 6 run on the algorithm's result do what the model says:
      each station gets its routed trucks and each waiting truck its pick.
      With no truck waiting the algorithm is not run and the result is empty. */
  lemma ResultMatchesStep(s: SimData, infos: seq<StationInfo>, waiting: seq<int>,
                          stations: seq<StationInfo>, order: seq<nat>, ts: seq<TruckData>)
    requires Ready(s) && StationsNumbered(s.stations) && TrucksNumbered(s.trucks)
    requires waiting == Pending(s.trucks) && |ts| == |s.trucks|
    requires waiting == [] ==> stations == []
    requires waiting != [] ==>
      && infos == StationInfos(s.stations)
      && |stations| == |infos| && |order| == |infos|
      && (forall j :: 0 <= j < |infos| ==> j in order)
      && (forall k :: 0 <= k < |order| ==> order[k] < |infos|)
      && (forall k :: 0 <= k < |stations| ==> stations[k] == Served(infos, waiting, Greedy(infos, |waiting|), order[k]))
    ensures Lookups(stations, s.stations) == Admissions(s)
    ensures forall p :: 0 <= p < |GetTruckAssignments(stations)| ==>
              0 <= GetTruckAssignments(stations)[p].truckId < |ts|
    ensures MarkPairs(ts, GetTruckAssignments(stations)) == MarkAssigned(ts, Pending(s.trucks), Picks(s))
  {
    if waiting == [] {
      assert |GetTruckAssignments(stations)| == 0;
      NoneWaiting(s, ts);
    } else {
      SomeWaiting(s, infos, waiting, stations, order, ts);
    }
  }

  /** The agreement when some truck waits: the served infos have the
      entries the model expects. */
  lemma SomeWaiting(s: SimData, infos: seq<StationInfo>, waiting: seq<int>,
                    stations: seq<StationInfo>, order: seq<nat>, ts: seq<TruckData>)
    requires Ready(s) && StationsNumbered(s.stations) && TrucksNumbered(s.trucks)
    requires waiting == Pending(s.trucks) && |ts| == |s.trucks|
    requires infos == StationInfos(s.stations)
    requires |stations| == |infos| && |order| == |infos|
    requires forall j :: 0 <= j < |infos| ==> j in order
    requires forall k :: 0 <= k < |order| ==> order[k] < |infos|
    requires forall k :: 0 <= k < |stations| ==> stations[k] == Served(infos, waiting, Greedy(infos, |waiting|), order[k])
    ensures Lookups(stations, s.stations) == Admissions(s)
    ensures forall p :: 0 <= p < |GetTruckAssignments(stations)| ==>
              0 <= GetTruckAssignments(stations)[p].truckId < |ts|
    ensures MarkPairs(ts, GetTruckAssignments(stations)) == MarkAssigned(ts, Pending(s.trucks), Picks(s))
  {
    EntriesOfAssigned(s, infos, waiting, stations, order);
    LookupsMatch(s, stations, order);
    MarkPairsMatch(s, stations, order, ts);
  }

  /** The assignment algorithm's result `stations`, with its pairs, agrees
      with the model's tick from `s`: every station gets the trucks the model
      admits to it, and routing the pairs marks the trucks the model marks. */
  ghost predicate Planned(s: SimData, draws: seq<int>, stations: seq<StationInfo>, pairs: seq<TruckAssignment>)
  {
    && Ready(s) && Draws(draws, |s.trucks|)
    && pairs == GetTruckAssignments(stations)
    && Lookups(stations, s.stations) == Admissions(s)
    && (forall p :: 0 <= p < |pairs| ==> 0 <= pairs[p].truckId < |s.trucks|)
    && MarkPairs(TickMoving(s.trucks, draws), pairs) == MarkAssigned(TickMoving(s.trucks, draws), Pending(s.trucks), Picks(s))
  }

  /** `trucks'` and `stations'` are what steps 4 to 6 of the tick make of the
      trucks and stations of `s` on the result `stations` and its `pairs`. */
  ghost predicate Phased(s: SimData, draws: seq<int>, stations: seq<StationInfo>, pairs: seq<TruckAssignment>,
                         trucks': seq<TruckData>, stations': seq<StationData>)
  {
    && Draws(draws, |s.trucks|)
    && (forall p :: 0 <= p < |pairs| ==> 0 <= pairs[p].truckId < |s.trucks|)
    && var steps := StationSteps(s.stations, Lookups(stations, s.stations));
       && stations' == StationsAfter(steps)
       && trucks' == TickQueued(MarkPairs(TickMoving(s.trucks, draws), pairs), Released(steps), draws)
  }

  /** Steps 4 to 6 run on a result that matches the model give the model's
      tick, and so keep the invariant. */
  lemma PhasesGiveStep(s: SimData, draws: seq<int>, stations: seq<StationInfo>, pairs: seq<TruckAssignment>,
                       trucks': seq<TruckData>, stations': seq<StationData>)
    requires SimInv(s) && Planned(s, draws, stations, pairs) && Phased(s, draws, stations, pairs, trucks', stations')
    ensures SimData(s.currentTick + 1, trucks', stations') == Step(s, draws)
    ensures SimInv(Step(s, draws))
  {
    var moved := TickMoving(s.trucks, draws);
    StepPhases(s, draws, moved, MarkAssigned(moved, Pending(s.trucks), Picks(s)), StationSteps(s.stations, Admissions(s)));
    StepKeepsInv(s, draws);
  }

  /** With no truck waiting, an empty result gives every station nothing
      and queues no truck. */
  lemma NoneWaiting(s: SimData, ts: seq<TruckData>)
    requires Ready(s) && Pending(s.trucks) == []
    ensures Lookups([], s.stations) == Admissions(s)
    ensures MarkPairs(ts, []) == MarkAssigned(ts, Pending(s.trucks), Picks(s))
  {
    forall j | 0 <= j < |s.stations|
      ensures Lookups([], s.stations)[j] == Admissions(s)[j]
    {
      assert Admitted(s, j) == [];
    }
  }

  /** Each station finds in the result exactly the trucks routed to it. */
  lemma LookupMatch(s: SimData, stations: seq<StationInfo>, order: seq<nat>, j: nat)
    requires Ready(s) && Entries(s, stations, order) && j < |s.stations|
    ensures LookupTrucks(stations, j) == Admitted(s, j)
  {
    assert j in order;
    var k0 :| 0 <= k0 < |order| && order[k0] == j;
    assert stations[k0].stationId == j;
    var r := FindStationInfoById(stations, j);
    assert r.Some?;
    var k :| 0 <= k < |stations| && stations[k] == r.value && stations[k].stationId == j;
  }

  lemma LookupsMatch(s: SimData, stations: seq<StationInfo>, order: seq<nat>)
    requires Ready(s) && StationsNumbered(s.stations) && Entries(s, stations, order)
    ensures Lookups(stations, s.stations) == Admissions(s)
  {
    forall j | 0 <= j < |s.stations|
      ensures Lookups(stations, s.stations)[j] == Admissions(s)[j]
    {
      LookupMatch(s, stations, order, j);
    }
  }

  /** A pair names a waiting truck and carries its pick. */
  lemma PairNamesWaiting(s: SimData, stations: seq<StationInfo>, order: seq<nat>, p: nat)
    requires Ready(s) && TrucksNumbered(s.trucks) && Entries(s, stations, order)
    requires p < |GetTruckAssignments(stations)|
    ensures var a := GetTruckAssignments(stations)[p];
      a.truckId in Pending(s.trucks) && a.stationId == Picks(s)[IndexOf(Pending(s.trucks), a.truckId)]
  {
    var a := GetTruckAssignments(stations)[p];
    var P := Pending(s.trucks);
    PendingIndexes(s.trucks);
    PairOrigin(stations, p);
    var k :| 0 <= k < |stations| && a.truckId in stations[k].qTrucks && a.stationId == stations[k].stationId;
    RoutedMember(P, Picks(s), order[k], a.truckId);
    var q :| 0 <= q < |Picks(s)| && P[q] == a.truckId && Picks(s)[q] == order[k];
    assert q == IndexOf(P, a.truckId);
  }

  /** Every waiting truck is named by some pair. */
  lemma WaitingHasPair(s: SimData, stations: seq<StationInfo>, order: seq<nat>, i: int)
    requires Ready(s) && Entries(s, stations, order) && i in Pending(s.trucks)
    ensures exists p :: 0 <= p < |GetTruckAssignments(stations)| && GetTruckAssignments(stations)[p].truckId == i
  {
    var P := Pending(s.trucks);
    var q := IndexOf(P, i);
    var site := Picks(s)[q];
    assert site < |s.stations|;
    assert site in order;
    var k :| 0 <= k < |order| && order[k] == site;
    RoutedMember(P, Picks(s), site, i);
    var r :| 0 <= r < |stations[k].qTrucks| && stations[k].qTrucks[r] == i;
    AssignmentAt(stations, k, r);
  }

  /** Every pair names a truck of the list. */
  lemma PairsInRange(s: SimData, stations: seq<StationInfo>, order: seq<nat>)
    requires Ready(s) && TrucksNumbered(s.trucks) && Entries(s, stations, order)
    ensures forall p :: 0 <= p < |GetTruckAssignments(stations)| ==>
              0 <= GetTruckAssignments(stations)[p].truckId < |s.trucks|
  {
    var pairs := GetTruckAssignments(stations);
    var P := Pending(s.trucks);
    PendingIndexes(s.trucks);
    forall p | 0 <= p < |pairs|
      ensures 0 <= pairs[p].truckId < |s.trucks|
    {
      PairNamesWaiting(s, stations, order, p);
      assert P[IndexOf(P, pairs[p].truckId)] == pairs[p].truckId;
    }
  }

  /** Applying the pairs in the source's order queues each waiting truck
      at its pick and nothing else. */
  lemma MarkPairsMatch(s: SimData, stations: seq<StationInfo>, order: seq<nat>, ts: seq<TruckData>)
    requires Ready(s) && TrucksNumbered(s.trucks) && Entries(s, stations, order)
    requires |ts| == |s.trucks|
    ensures forall p :: 0 <= p < |GetTruckAssignments(stations)| ==>
              0 <= GetTruckAssignments(stations)[p].truckId < |ts|
    ensures MarkPairs(ts, GetTruckAssignments(stations)) == MarkAssigned(ts, Pending(s.trucks), Picks(s))
  {
    var pairs := GetTruckAssignments(stations);
    var P := Pending(s.trucks);
    PairsInRange(s, stations, order);
    forall i | 0 <= i < |ts|
      ensures MarkPairs(ts, pairs)[i] == MarkAssigned(ts, P, Picks(s))[i]
    {
      var site := if i in P then Picks(s)[IndexOf(P, i)] else -1;
      forall p | 0 <= p < |pairs| && pairs[p].truckId == i
        ensures pairs[p].stationId == site
      {
        PairNamesWaiting(s, stations, order, p);
      }
      if i in P {
        WaitingHasPair(s, stations, order, i);
      } else {
        forall p | 0 <= p < |pairs|
          ensures pairs[p].truckId != i
        {
          PairNamesWaiting(s, stations, order, p);
        }
      }
      MarkPairsAt(ts, pairs, i, site);
    }
  }
}
