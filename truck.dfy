/** The mining truck: a four-state cycle with a countdown timer per state.
    One tick is five simulated minutes. */
module Truck {
  import opened SimEnums

  /** Ticks for one trip between the mine and the unloading site (30 minutes). */
  const TravelTime := 6
  /** Ticks of active unloading once a station serves the truck. */
  const TimeToUnload := 1

  /** The value `random.randint(2, 10)` can return; the mining time is six times it. */
  predicate IsMiningDraw(k: int) { 2 <= k <= 10 }

  /** A mining time: 1 to 5 hours in 30-minute steps, in ticks. */
  predicate IsMiningDuration(d: int) { 12 <= d <= 60 && d % 6 == 0 }

  /** One per-tick log record of a truck. */
  datatype TruckLog = TruckLog(tick: int, id: int, state: TruckState, assignedStation: int)

  /** The whole observable state of one truck. `unloadSiteId` is -1 when no
      station is assigned. */
  datatype TruckData = TruckData(
    idx: int,
    currentTick: int,
    state: TruckState,
    remaining: int,
    unloadSiteId: int,
    unloadQueued: bool,
    log: seq<TruckLog>)

  /** Duration of a state; `draw` stands for the random draw made when the
      state is AtMine. */
  function StateDuration(s: TruckState, draw: int): (d: int)
    requires IsMiningDraw(draw)
    ensures (s == OnRoadToMine || s == OnRoadToUnload) ==> d == TravelTime
    ensures s == Unloading ==> d == TimeToUnload
    ensures s == AtMine ==> IsMiningDuration(d)
  {
    match s
    case OnRoadToMine => TravelTime
    case OnRoadToUnload => TravelTime
    case AtMine => 6 * draw
    case Unloading => TimeToUnload
  }

  /** The fixed cycle OnRoadToMine -> AtMine -> OnRoadToUnload -> Unloading -> OnRoadToMine. */
  function Successor(s: TruckState): TruckState
  {
    match s
    case OnRoadToMine => AtMine
    case AtMine => OnRoadToUnload
    case OnRoadToUnload => Unloading
    case Unloading => OnRoadToMine
  }

  /** `n` successive transitions. */
  function Iterate(s: TruckState, n: nat): TruckState
    decreases n
  {
    if n == 0 then s else Iterate(Successor(s), n - 1)
  }

  lemma FourStepsReturn(s: TruckState)
    ensures Iterate(s, 4) == s
  {
  }

  lemma {:induction false} IterateSplit(s: TruckState, a: nat, b: nat)
    ensures Iterate(s, a + b) == Iterate(Iterate(s, a), b)
    decreases a
  {
    if a > 0 {
      IterateSplit(Successor(s), a - 1, b);
    }
  }

  /** The cycle has period four: only four states are ever visited. */
  lemma {:induction false} CyclePeriod(s: TruckState, n: nat)
    ensures Iterate(s, n) == Iterate(s, n % 4)
  {
    if n >= 4 {
      IterateSplit(s, 4, n - 4);
      FourStepsReturn(s);
      CyclePeriod(s, n - 4);
      assert (n - 4) % 4 == n % 4;
    }
  }

  /** Four transitions from AtMine visit the states in cycle order. */
  lemma CycleFromAtMine()
    ensures Iterate(AtMine, 1) == OnRoadToUnload
    ensures Iterate(AtMine, 2) == Unloading
    ensures Iterate(AtMine, 3) == OnRoadToMine
    ensures Iterate(AtMine, 4) == AtMine
  {
  }

  /** A fresh truck: at the mine, unassigned, clock at zero. */
  function NewTruck(truckId: int, draw: int): (t: TruckData)
    requires IsMiningDraw(draw)
    ensures t.state == AtMine && IsMiningDuration(t.remaining)
    ensures t.unloadSiteId == -1 && !t.unloadQueued && t.currentTick == 0 && t.log == []
  {
    TruckData(truckId, 0, AtMine, 6 * draw, -1, false, [])
  }

  /** The effect of `_next_state`: move along the cycle; leaving Unloading
      (and only that) clears the station assignment. */
  function Transition(t: TruckData): (r: TruckData)
    ensures r.state == Successor(t.state)
    ensures t.state == Unloading ==> r.unloadSiteId == -1 && !r.unloadQueued
    ensures t.state != Unloading ==> r.unloadSiteId == t.unloadSiteId && r.unloadQueued == t.unloadQueued
    ensures r.(state := t.state, unloadSiteId := t.unloadSiteId, unloadQueued := t.unloadQueued) == t
  {
    if t.state == Unloading then
      t.(state := OnRoadToMine, unloadSiteId := -1, unloadQueued := false)
    else
      t.(state := Successor(t.state))
  }

  /** The record `log_data` appends. */
  function LogRecord(t: TruckData): TruckLog
  {
    TruckLog(t.currentTick, t.idx, t.state, t.unloadSiteId)
  }

  /** One tick of a truck: log, advance the clock, spend one tick of the
      timer if any is left, and move to the next state when the timer is
      used up, unless the truck is parked in a queue (Unloading and not yet
      served this tick). */
  function TickData(t: TruckData, unloadingComplete: bool, draw: int): (r: TruckData)
    requires IsMiningDraw(draw)
    ensures r.idx == t.idx
    ensures r.currentTick == t.currentTick + 1
    ensures r.log == t.log + [LogRecord(t)]
    ensures t.remaining >= 0 ==> r.remaining >= 0
  {
    var logged := t.(log := t.log + [LogRecord(t)], currentTick := t.currentTick + 1);
    var timed := if logged.remaining > 0 then logged.(remaining := logged.remaining - 1) else logged;
    if timed.state == Unloading && !unloadingComplete then
      timed
    else if timed.remaining == 0 then
      var moved := Transition(timed);
      moved.(remaining := StateDuration(moved.state, draw))
    else
      timed
  }

  /** Longest time a truck can have left in a state. */
  function MaxDuration(s: TruckState): int
  {
    match s
    case OnRoadToMine => TravelTime
    case OnRoadToUnload => TravelTime
    case AtMine => 60
    case Unloading => TimeToUnload
  }

  /** The timer is never negative and never exceeds the state's duration. */
  predicate TimerOk(t: TruckData)
  {
    0 <= t.remaining <= MaxDuration(t.state)
  }

  lemma NewTruckTimerOk(truckId: int, draw: int)
    requires IsMiningDraw(draw)
    ensures TimerOk(NewTruck(truckId, draw))
  {
  }

  /** A tick keeps the timer within the bounds of the (possibly new) state. */
  lemma TickKeepsTimer(t: TruckData, unloadingComplete: bool, draw: int)
    requires IsMiningDraw(draw) && TimerOk(t)
    ensures TimerOk(TickData(t, unloadingComplete, draw))
  {
  }

  /** A tick moves the truck at most one step along the cycle, and it moves
      exactly when the timer is used up and the truck is not parked. */
  lemma TickStepsCycle(t: TruckData, unloadingComplete: bool, draw: int)
    requires IsMiningDraw(draw) && t.remaining >= 0
    ensures var r := TickData(t, unloadingComplete, draw);
      var moves := t.remaining <= 1 && !(t.state == Unloading && !unloadingComplete);
      && (moves ==> r.state == Successor(t.state) && r.remaining == StateDuration(r.state, draw))
      && (moves && t.state != Unloading ==> r.unloadSiteId == t.unloadSiteId && r.unloadQueued == t.unloadQueued)
      && (moves && t.state == Unloading ==> r.unloadSiteId == -1 && !r.unloadQueued)
      && (!moves ==> r.state == t.state && r.remaining == (if t.remaining > 0 then t.remaining - 1 else 0)
                     && r.unloadSiteId == t.unloadSiteId && r.unloadQueued == t.unloadQueued)
  {
  }

  /** A truck parked in a queue makes no transition, whatever its timer. */
  lemma ParkedTruckStays(t: TruckData, draw: int)
    requires IsMiningDraw(draw) && t.state == Unloading && t.remaining >= 0
    ensures var r := TickData(t, false, draw);
      r.state == Unloading && r.unloadSiteId == t.unloadSiteId && r.unloadQueued == t.unloadQueued
      && r.remaining == (if t.remaining > 0 then t.remaining - 1 else 0)
  {
  }

  /** Since the Unloading timer is at most 1, the tick on which the station
      serves the truck always sends it back on the road to the mine. */
  lemma ServedTruckLeaves(t: TruckData, draw: int)
    requires IsMiningDraw(draw) && TimerOk(t) && t.state == Unloading
    ensures var r := TickData(t, true, draw);
      r.state == OnRoadToMine && r.remaining == TravelTime && r.unloadSiteId == -1 && !r.unloadQueued
  {
  }

  /** `n` ticks without unloading service. */
  function TickTimes(t: TruckData, n: nat, draw: int): TruckData
    requires IsMiningDraw(draw)
    decreases n
  {
    if n == 0 then t else TickTimes(TickData(t, false, draw), n - 1, draw)
  }

  /** From AtMine with the timer forced to 0: one tick starts the trip to the
      unloading site (6 ticks left, clock 1); six more reach Unloading with
      1 tick left and clock 7. */
  lemma TickScenario(truckId: int, draw: int)
    requires IsMiningDraw(draw)
    ensures var t0 := NewTruck(truckId, draw).(remaining := 0);
      var t1 := TickTimes(t0, 1, draw);
      var t7 := TickTimes(t1, 6, draw);
      && t1.state == OnRoadToUnload && t1.remaining == 6 && t1.currentTick == 1
      && t7.state == Unloading && t7.remaining == 1 && t7.currentTick == 7
  {
  }

  /** A mining truck; the fields are those the simulation updates in place. */
  class MiningTruck {
    const idx: int
    var currentTick: int
    var state: TruckState
    var remaining: int
    var unloadSiteId: int
    var unloadQueued: bool
    var dataLog: seq<TruckLog>

    function View(): TruckData
      reads this
    {
      TruckData(idx, currentTick, state, remaining, unloadSiteId, unloadQueued, dataLog)
    }

    constructor (truckId: int, draw: int)
      requires IsMiningDraw(draw)
      ensures View() == NewTruck(truckId, draw)
    {
      idx := truckId;
      currentTick := 0;
      state := AtMine;
      remaining := 6 * draw;
      unloadSiteId := -1;
      unloadQueued := false;
      dataLog := [];
    }

    /** `_next_state` */
    method NextState()
      modifies this
      ensures View() == Transition(old(View()))
    {
      if state == OnRoadToMine {
        state := AtMine;
      } else if state == AtMine {
        state := OnRoadToUnload;
      } else if state == OnRoadToUnload {
        state := Unloading;
      } else {
        state := OnRoadToMine;
        unloadSiteId := -1;
        unloadQueued := false;
      }
    }

    /** Route the truck to a station: only the assignment fields change. */
    method AssignUnloadSite(siteId: int)
      modifies this
      ensures View() == old(View()).(unloadSiteId := siteId, unloadQueued := true)
    {
      unloadSiteId := siteId;
      unloadQueued := true;
    }

    method LogData()
      modifies this
      ensures View() == old(View()).(log := old(dataLog) + [LogRecord(old(View()))])
    {
      dataLog := dataLog + [TruckLog(currentTick, idx, state, unloadSiteId)];
    }

    /** One clock tick; `unloadingComplete` tells whether the truck's station
        released it on this tick. */
    method Tick(unloadingComplete: bool, draw: int)
      requires IsMiningDraw(draw)
      modifies this
      ensures View() == TickData(old(View()), unloadingComplete, draw)
    {
      LogData();
      currentTick := currentTick + 1;
      if remaining > 0 {
        remaining := remaining - 1;
      }
      var current := state;
      if current == Unloading && !unloadingComplete {
        return;
      }
      if remaining == 0 {
        NextState();
        remaining := StateDuration(state, draw);
      }
    }
  }
}
