/** An unloading station: a FIFO queue of truck ids; each tick it admits the
    newly routed trucks at the tail and releases at most one truck from the
    head. */
module UnloadStation {
  import opened Wrappers
  import opened SimEnums

  /** The queue of truck ids waiting at one station, oldest first. */
  datatype UnloadQueue = UnloadQueue(stationId: int, items: seq<int>)

  /** `put_truck`: append at the tail. Like `QueueSize`, this models a
      one-line source function, so its contract is its definition; the queue
      law built on it is stated by `PutThenGet`, `TickFifo` and `FifoLaw`. */
  function PutTruck(q: UnloadQueue, truck: int): (r: UnloadQueue)
    ensures r.stationId == q.stationId && r.items == q.items + [truck]
  {
    q.(items := q.items + [truck])
  }

  /** `queue_size`: the number of trucks waiting. */
  function QueueSize(q: UnloadQueue): (n: nat)
    ensures n == |q.items|
  {
    |q.items|
  }

  /** `get_truck`: None on an empty queue, otherwise the head, removed. */
  function GetTruck(q: UnloadQueue): (r: (Option<int>, UnloadQueue))
    ensures r.1.stationId == q.stationId
    ensures r.0.None? <==> q.items == []
    ensures r.0.None? ==> r.1 == q
    ensures r.0.Some? ==> [r.0.value] + r.1.items == q.items
  {
    if q.items == [] then (None, q) else (Some(q.items[0]), q.(items := q.items[1..]))
  }

  /** What goes in first comes out first. */
  lemma PutThenGet(q: UnloadQueue, truck: int)
    ensures GetTruck(PutTruck(q, truck)).0 == Some(if q.items == [] then truck else q.items[0])
  {
  }

  /** One per-tick log record of a station. */
  datatype StationLog = StationLog(tick: int, id: int, truckUnloading: Option<int>, waitTime: int)

  /** The observable state of a station that its tick changes. */
  datatype StationData = StationData(idx: int, currentTick: int, queue: UnloadQueue, log: seq<StationLog>)

  function NewStation(stationId: int): (d: StationData)
    ensures d.queue.items == [] && d.currentTick == 0 && d.log == []
  {
    StationData(stationId, 0, UnloadQueue(stationId, []), [])
  }

  /** The wait estimate: one tick per queued truck. */
  function WaitTime(d: StationData): nat
  {
    1 * QueueSize(d.queue)
  }

  /** One tick of a station, stated on whole sequences: the admitted ids go to
      the tail in order, then the head (if any) leaves; the record carries
      the new tick and the wait after the release. */
  function TickStation(d: StationData, trucks: seq<int>): (r: (Option<int>, StationData))
    ensures r.1.idx == d.idx && r.1.currentTick == d.currentTick + 1
  {
    var all := d.queue.items + trucks;
    var out := if all == [] then None else Some(all[0]);
    var rest := if all == [] then [] else all[1..];
    var next := d.(currentTick := d.currentTick + 1, queue := d.queue.(items := rest));
    (out, next.(log := d.log + [StationLog(next.currentTick, d.idx, out, |rest|)]))
  }

  /** The ids released over a run of ticks, one admitted list per tick, and
      the state after the run. */
  function RunStation(d: StationData, admissions: seq<seq<int>>): (r: (seq<int>, StationData))
    decreases |admissions|
  {
    if |admissions| == 0 then ([], d)
    else
      var before := RunStation(d, admissions[..|admissions| - 1]);
      var step := TickStation(before.1, admissions[|admissions| - 1]);
      (before.0 + (if step.0.Some? then [step.0.value] else []), step.1)
  }

  /** One tick in the FIFO view: the released id (if any) followed by the
      new queue is the old queue followed by the admitted ids; a truck is
      released exactly when that is not empty, and the record carries the
      wait after the release. */
  lemma TickFifo(d: StationData, trucks: seq<int>)
    ensures var r := TickStation(d, trucks);
      && (if r.0.Some? then [r.0.value] else []) + r.1.queue.items == d.queue.items + trucks
      && r.1.queue.stationId == d.queue.stationId
      && (r.0.None? <==> d.queue.items + trucks == [])
      && (r.0.Some? ==> [r.0.value] + r.1.queue.items == d.queue.items + trucks)
      && (r.0.None? ==> r.1.queue.items == [])
      && |r.1.queue.items| == (if |d.queue.items| + |trucks| > 0 then |d.queue.items| + |trucks| - 1 else 0)
      && r.1.log == d.log + [StationLog(d.currentTick + 1, d.idx, r.0, WaitTime(r.1))]
  {
  }

  /** FIFO law: the released ids followed by what is still queued are exactly
      the initial queue followed by everything admitted, in order. */
  lemma {:induction false} FifoLaw(d: StationData, admissions: seq<seq<int>>)
    ensures RunStation(d, admissions).0 + RunStation(d, admissions).1.queue.items
            == d.queue.items + Flatten(admissions)
    ensures RunStation(d, admissions).1.currentTick == d.currentTick + |admissions|
    ensures |RunStation(d, admissions).1.log| == |d.log| + |admissions|
    decreases |admissions|
  {
    if |admissions| > 0 {
      var n := |admissions|;
      var init := admissions[..n - 1];
      var last := admissions[n - 1];
      FifoLaw(d, init);
      var before := RunStation(d, init);
      var step := TickStation(before.1, last);
      var out := if step.0.Some? then [step.0.value] else [];
      TickFifo(before.1, last);
      assert RunStation(d, admissions) == (before.0 + out, step.1);
      assert Flatten(admissions) == Flatten(init) + last;
      FifoCombine(before.0, before.1.queue.items, out, step.1.queue.items, last, d.queue.items, Flatten(init));
    }
  }

  /** The sequence arithmetic of one FIFO step. */
  lemma FifoCombine(released: seq<int>, queued: seq<int>, out: seq<int>, queued': seq<int>, admitted: seq<int>,
                    initial: seq<int>, earlier: seq<int>)
    requires released + queued == initial + earlier
    requires out + queued' == queued + admitted
    ensures (released + out) + queued' == initial + (earlier + admitted)
  {
    calc {
      (released + out) + queued';
      released + (out + queued');
      (released + queued) + admitted;
      (initial + earlier) + admitted;
    }
  }

  /** Hence the released ids are a prefix of all admitted ids: no reordering,
      no loss beyond what is still queued, no duplication. */
  lemma ReleasedIsPrefix(d: StationData, admissions: seq<seq<int>>)
    requires d.queue.items == []
    ensures var released := RunStation(d, admissions).0;
      |released| <= |Flatten(admissions)| && released == Flatten(admissions)[..|released|]
  {
    FifoLaw(d, admissions);
    var released := RunStation(d, admissions).0;
    assert [] + Flatten(admissions) == Flatten(admissions);
    assert released + RunStation(d, admissions).1.queue.items == Flatten(admissions);
  }

  /** A fresh station fed [1, 5, 13, 17, 25, 12] on its first tick releases 1
      with wait 5, then 5, 13, 17, 25, 12 on five empty ticks, the wait
      dropping by one each time. */
  lemma StationScenario()
    ensures var s0 := NewStation(1);
      var t1 := TickStation(s0, [1, 5, 13, 17, 25, 12]);
      var t2 := TickStation(t1.1, []);
      var t3 := TickStation(t2.1, []);
      var t4 := TickStation(t3.1, []);
      var t5 := TickStation(t4.1, []);
      var t6 := TickStation(t5.1, []);
      && WaitTime(s0) == 0
      && t1.0 == Some(1) && WaitTime(t1.1) == 5
      && t2.0 == Some(5) && WaitTime(t2.1) == 4
      && t3.0 == Some(13) && WaitTime(t3.1) == 3
      && t4.0 == Some(17) && WaitTime(t4.1) == 2
      && t5.0 == Some(25) && WaitTime(t5.1) == 1
      && t6.0 == Some(12) && WaitTime(t6.1) == 0
  {
    var s0 := NewStation(1);
    var list := [1, 5, 13, 17, 25, 12];
    assert s0.queue.items + list == list;
    TickFifo(s0, list);
    var t1 := TickStation(s0, list);
    assert t1.1.queue.items == [5, 13, 17, 25, 12];
    var t2 := EmptyTick(t1.1);
    assert t2.1.queue.items == [13, 17, 25, 12];
    var t3 := EmptyTick(t2.1);
    assert t3.1.queue.items == [17, 25, 12];
    var t4 := EmptyTick(t3.1);
    assert t4.1.queue.items == [25, 12];
    var t5 := EmptyTick(t4.1);
    assert t5.1.queue.items == [12];
    var t6 := EmptyTick(t5.1);
  }

  /** A tick that admits nothing pops the head of a non-empty queue. */
  lemma EmptyTick(d: StationData) returns (r: (Option<int>, StationData))
    requires d.queue.items != []
    ensures r == TickStation(d, [])
    ensures r.0 == Some(d.queue.items[0]) && r.1.queue.items == d.queue.items[1..]
  {
    assert d.queue.items + [] == d.queue.items;
    TickFifo(d, []);
    r := TickStation(d, []);
  }

  /** An unloading station; `state` and `unloadingTruckId` are set by the
      constructor and never updated. */
  class UnloadingStation {
    const idx: int
    var currentTick: int
    var state: UnloadStationState
    var unloadingTruckId: Option<int>
    var unloadQueue: UnloadQueue
    var dataLog: seq<StationLog>

    function View(): StationData
      reads this
    {
      StationData(idx, currentTick, unloadQueue, dataLog)
    }

    constructor (stationId: int)
      ensures View() == NewStation(stationId)
      ensures state == Unoccupied && unloadingTruckId == None
    {
      idx := stationId;
      currentTick := 0;
      state := Unoccupied;
      unloadingTruckId := None;
      unloadQueue := UnloadQueue(stationId, []);
      dataLog := [];
    }

    /** `get_wait_time`: the queue length. */
    function GetWaitTime(): (w: nat)
      reads this
      ensures w == |unloadQueue.items|
    {
      WaitTime(View())
    }

    method LogData(truckDequeued: Option<int>)
      modifies this
      ensures View() == old(View()).(log := old(dataLog) + [StationLog(currentTick, idx, truckDequeued, GetWaitTime())])
      ensures state == old(state) && unloadingTruckId == old(unloadingTruckId)
    {
      dataLog := dataLog + [StationLog(currentTick, idx, truckDequeued, GetWaitTime())];
    }

    /** One clock tick admitting `trucks`; returns the released id, if any. */
    method Tick(trucks: seq<int>) returns (dequeued: Option<int>)
      modifies this
      ensures (dequeued, View()) == TickStation(old(View()), trucks)
      ensures state == old(state) && unloadingTruckId == old(unloadingTruckId)
    {
      currentTick := currentTick + 1;
      if |trucks| > 0 {
        for i := 0 to |trucks|
          invariant unloadQueue == old(unloadQueue).(items := old(unloadQueue.items) + trucks[..i])
          invariant currentTick == old(currentTick) + 1 && dataLog == old(dataLog)
          invariant state == old(state) && unloadingTruckId == old(unloadingTruckId)
        {
          assert trucks[..i + 1] == trucks[..i] + [trucks[i]];
          unloadQueue := PutTruck(unloadQueue, trucks[i]);
        }
        assert trucks[..|trucks|] == trucks;
      } else {
        assert old(unloadQueue.items) + trucks == old(unloadQueue.items);
      }
      var got := GetTruck(unloadQueue);
      dequeued, unloadQueue := got.0, got.1;
      LogData(dequeued);
    }
  }
}
