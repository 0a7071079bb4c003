/** The station-assignment algorithm: a least-loaded balancer with
    round-robin tie-breaking, and its two helper scans. */
module Assignment {
  import opened Wrappers

  /** One station's entry in an assignment round: its id, its wait time
      when the round started, and the trucks routed to it. */
  datatype StationInfo = StationInfo(stationId: int, waitTime: int, qTrucks: seq<int>)

  /** One (truck, station) pair of the result. */
  datatype TruckAssignment = TruckAssignment(truckId: int, stationId: int)

  /** Effective load: the wait time plus the trucks routed in this round. */
  function Load(s: StationInfo): int
  {
    s.waitTime + |s.qTrucks|
  }

  // ---------------------------------------------------------------------
  // The two scans

  /** `find_station_info_by_id`: the first entry with the given id. */
  function FindStationInfoById(infos: seq<StationInfo>, stationId: int): (r: Option<StationInfo>)
    ensures r.None? <==> forall k :: 0 <= k < |infos| ==> infos[k].stationId != stationId
    ensures r.Some? ==> exists k :: 0 <= k < |infos| && infos[k] == r.value && infos[k].stationId == stationId
                                    && forall k' :: 0 <= k' < k ==> infos[k'].stationId != stationId
  {
    if |infos| == 0 then None
    else if infos[0].stationId == stationId then Some(infos[0])
    else FindStationInfoById(infos[1..], stationId)
  }

  /** All routed trucks, station by station, each station's in queue order. */
  function Queued(infos: seq<StationInfo>): seq<int>
  {
    if |infos| == 0 then [] else infos[0].qTrucks + Queued(infos[1..])
  }

  /** The pairs of one station, in queue order. */
  function StationPairs(s: StationInfo): (r: seq<TruckAssignment>)
    ensures |r| == |s.qTrucks|
    ensures forall p :: 0 <= p < |r| ==> r[p] == TruckAssignment(s.qTrucks[p], s.stationId)
  {
    seq(|s.qTrucks|, p requires 0 <= p < |s.qTrucks| => TruckAssignment(s.qTrucks[p], s.stationId))
  }

  /** `get_truck_assignments`: one pair per routed truck; the truck ids read
      in order are exactly the routed trucks, station by station. */
  function GetTruckAssignments(infos: seq<StationInfo>): (r: seq<TruckAssignment>)
    ensures |r| == |Queued(infos)|
    ensures forall i :: 0 <= i < |r| ==> r[i].truckId == Queued(infos)[i]
  {
    if |infos| == 0 then [] else StationPairs(infos[0]) + GetTruckAssignments(infos[1..])
  }

  /** Number of pairs that come before station `k`'s. */
  function Offset(infos: seq<StationInfo>, k: nat): nat
    requires k <= |infos|
  {
    |Queued(infos[..k])|
  }

  /** Truck `p` of station `k` sits at position Offset(k) + p, paired with
      station `k`'s id. */
  lemma {:induction false} AssignmentAt(infos: seq<StationInfo>, k: nat, p: nat)
    requires k < |infos| && p < |infos[k].qTrucks|
    ensures Offset(infos, k) + p < |GetTruckAssignments(infos)|
    ensures GetTruckAssignments(infos)[Offset(infos, k) + p]
            == TruckAssignment(infos[k].qTrucks[p], infos[k].stationId)
    decreases k
  {
    var r := GetTruckAssignments(infos);
    assert r == StationPairs(infos[0]) + GetTruckAssignments(infos[1..]);
    if k == 0 {
      assert infos[..0] == [];
    } else {
      AssignmentAt(infos[1..], k - 1, p);
      assert infos[..k][1..] == infos[1..][..k - 1];
      assert Queued(infos[..k]) == infos[0].qTrucks + Queued(infos[1..][..k - 1]);
    }
  }

  function TruckIds(tis: seq<TruckAssignment>): (r: seq<int>)
    ensures |r| == |tis| && forall i :: 0 <= i < |tis| ==> r[i] == tis[i].truckId
  {
    seq(|tis|, i requires 0 <= i < |tis| => tis[i].truckId)
  }

  lemma {:induction false} QueuedAppend(a: seq<StationInfo>, b: seq<StationInfo>)
    ensures Queued(a + b) == Queued(a) + Queued(b)
    decreases |a|
  {
    if |a| == 0 {
      assert a + b == b;
    } else {
      assert (a + b)[1..] == a[1..] + b;
      QueuedAppend(a[1..], b);
    }
  }

  // ---------------------------------------------------------------------
  // The specification: which station each truck goes to

  /** How often station `j` was picked in the trace `t`. */
  function Count(t: seq<nat>, j: nat): nat
  {
    if |t| == 0 then 0 else Count(t[..|t| - 1], j) + (if t[|t| - 1] == j then 1 else 0)
  }

  /** When station `j` was last picked in `t` (-1: never). */
  function LastPick(t: seq<nat>, j: nat): (r: int)
    ensures -1 <= r < |t|
  {
    if |t| == 0 then -1 else if t[|t| - 1] == j then |t| - 1 else LastPick(t[..|t| - 1], j)
  }

  /** Effective load of station `j` after the picks in `t`. */
  function LoadAt(infos: seq<StationInfo>, t: seq<nat>, j: nat): int
    requires j < |infos|
  {
    Load(infos[j]) + Count(t, j)
  }

  /** The order in which the algorithm serves stations after the picks `t`:
      lower effective load first; among equal loads, the one that reached it
      earlier (never picked counts as earliest); then the input position.
      This is the order the sorted working list keeps: a stable sort by
      load, and re-insertion to the right of equal loads. */
  predicate Precedes(infos: seq<StationInfo>, t: seq<nat>, a: nat, b: nat)
    requires a < |infos| && b < |infos|
  {
    var la, lb := LoadAt(infos, t, a), LoadAt(infos, t, b);
    la < lb || (la == lb && (LastPick(t, a) < LastPick(t, b) || (LastPick(t, a) == LastPick(t, b) && a < b)))
  }

  /** Station `j` comes first among all stations after the picks `t`. */
  predicate IsLeast(infos: seq<StationInfo>, t: seq<nat>, j: nat)
  {
    j < |infos| && forall b :: 0 <= b < |infos| && b != j ==> Precedes(infos, t, j, b)
  }

  /** Every pick of the trace was the first station at that moment. */
  predicate IsGreedy(infos: seq<StationInfo>, t: seq<nat>)
  {
    forall i :: 0 <= i < |t| ==> IsLeast(infos, t[..i], t[i])
  }

  /** The first of stations 0 .. k-1. */
  function LeastUpTo(infos: seq<StationInfo>, t: seq<nat>, k: nat): (j: nat)
    requires 0 < k <= |infos|
    ensures j < k && forall b :: 0 <= b < k && b != j ==> Precedes(infos, t, j, b)
    decreases k
  {
    if k == 1 then 0
    else
      var c := LeastUpTo(infos, t, k - 1);
      var j := if Precedes(infos, t, k - 1, c) then k - 1 else c;
      LeastStep(infos, t, k, c, j);
      j
  }

  lemma LeastStep(infos: seq<StationInfo>, t: seq<nat>, k: nat, c: nat, j: nat)
    requires 1 < k <= |infos| && c < k - 1
    requires forall b :: 0 <= b < k - 1 && b != c ==> Precedes(infos, t, c, b)
    requires j == if Precedes(infos, t, k - 1, c) then k - 1 else c
    ensures forall b :: 0 <= b < k && b != j ==> Precedes(infos, t, j, b)
  {
    PrecedesOrder(infos, t);
    forall b | 0 <= b < k && b != j
      ensures Precedes(infos, t, j, b)
    {
      if j == k - 1 && b != c {
        assert Precedes(infos, t, c, b);
      }
    }
  }

  /** `Precedes` is a strict total order on the stations. */
  lemma PrecedesOrder(infos: seq<StationInfo>, t: seq<nat>)
    ensures forall a :: 0 <= a < |infos| ==> !Precedes(infos, t, a, a)
    ensures forall a, b :: 0 <= a < |infos| && 0 <= b < |infos| && a != b ==>
              Precedes(infos, t, a, b) || Precedes(infos, t, b, a)
    ensures forall a, b, c ::
              (0 <= a < |infos| && 0 <= b < |infos| && 0 <= c < |infos| &&
               Precedes(infos, t, a, b) && Precedes(infos, t, b, c)) ==> Precedes(infos, t, a, c)
  {
  }

  /** The greedy trace of `m` picks: each truck goes to the first station. */
  function Greedy(infos: seq<StationInfo>, m: nat): (t: seq<nat>)
    requires |infos| > 0 || m == 0
    ensures |t| == m && IsGreedy(infos, t)
    decreases m
  {
    if m == 0 then []
    else
      var p := Greedy(infos, m - 1);
      var t := p + [LeastUpTo(infos, p, |infos|)];
      assert t[..m - 1] == p;
      assert forall i :: 0 <= i < m - 1 ==> t[..i] == p[..i];
      t
  }

  /** Two stations cannot both come first. */
  lemma LeastIsUnique(infos: seq<StationInfo>, t: seq<nat>, a: nat, b: nat)
    requires IsLeast(infos, t, a) && IsLeast(infos, t, b)
    ensures a == b
  {
    assert a != b ==> Precedes(infos, t, a, b);
    assert a != b ==> Precedes(infos, t, b, a);
  }

  /** The greedy trace is unique: the picks are fully determined. */
  lemma {:induction false} GreedyIsUnique(infos: seq<StationInfo>, t1: seq<nat>, t2: seq<nat>)
    requires IsGreedy(infos, t1) && IsGreedy(infos, t2) && |t1| == |t2|
    ensures t1 == t2
    decreases |t1|
  {
    var n := |t1|;
    if n > 0 {
      var p1, p2 := t1[..n - 1], t2[..n - 1];
      GreedyPrefix(infos, t1, n - 1);
      GreedyPrefix(infos, t2, n - 1);
      GreedyIsUnique(infos, p1, p2);
      assert IsLeast(infos, t1[..n - 1], t1[n - 1]) && IsLeast(infos, t2[..n - 1], t2[n - 1]);
      LeastIsUnique(infos, p1, t1[n - 1], t2[n - 1]);
      assert t1 == p1 + [t1[n - 1]] && t2 == p2 + [t2[n - 1]];
    }
  }

  /** Every prefix of a greedy trace is greedy. */
  lemma GreedyPrefix(infos: seq<StationInfo>, t: seq<nat>, n: nat)
    requires IsGreedy(infos, t) && n <= |t|
    ensures IsGreedy(infos, t[..n])
  {
    forall i | 0 <= i < n
      ensures IsLeast(infos, t[..n][..i], t[..n][i])
    {
      assert t[..n][..i] == t[..i];
    }
  }

  /** Every truck goes to a station whose effective load is minimal at the
      moment of the pick. */
  lemma GreedyPicksMinimalLoad(infos: seq<StationInfo>, m: nat, i: nat, j: nat)
    requires |infos| > 0 && i < m && j < |infos|
    ensures var t := Greedy(infos, m);
      t[i] < |infos| && LoadAt(infos, t[..i], t[i]) <= LoadAt(infos, t[..i], j)
  {
    var t := Greedy(infos, m);
    assert IsLeast(infos, t[..i], t[i]);
    if j != t[i] {
      assert Precedes(infos, t[..i], t[i], j);
    }
  }

  /** A trace that picks only station `j` counts every pick for `j` and none
      for any other station. */
  lemma {:induction false} CountOnly(t: seq<nat>, j: nat, k: nat)
    requires forall x :: 0 <= x < |t| ==> t[x] == j
    ensures Count(t, j) == |t|
    ensures k != j ==> Count(t, k) == 0
    decreases |t|
  {
    if |t| > 0 {
      CountOnly(t[..|t| - 1], j, k);
    }
  }

  /** A station whose effective load is lower than every other station's by
      at least the number of trucks receives every truck. The bound is tight:
      one less, and the last truck meets a tie that a never-picked station
      wins. */
  lemma LowestTakesAll(infos: seq<StationInfo>, m: nat, j: nat)
    requires j < |infos|
    requires forall k :: 0 <= k < |infos| && k != j ==> Load(infos[j]) + m <= Load(infos[k])
    ensures forall i :: 0 <= i < m ==> Greedy(infos, m)[i] == j
  {
    var t := Greedy(infos, m);
    var i := 0;
    while i < m
      invariant i <= m
      invariant forall x :: 0 <= x < i ==> t[x] == j
    {
      var p := t[..i];
      GreedyPicksMinimalLoad(infos, m, i, j);
      CountOnly(p, j, t[i]);
      i := i + 1;
    }
  }

  /** `LowestTakesAll` is tight: with loads 0 and 2 and three trucks, the
      first two trucks go to the lighter station, and the third meets a tie
      that the never-picked station wins. */
  lemma LowestTakesAllTight()
    ensures Greedy([StationInfo(1, 0, []), StationInfo(2, 2, [])], 3) == [0, 0, 1]
  {
    var infos := [StationInfo(1, 0, []), StationInfo(2, 2, [])];
    var t := [0, 0, 1];
    assert t[..0] == [] && t[..1] == [0] && t[..2] == [0, 0];
    assert [0, 0][..1] == [0] && [0][..0] == [];
    assert Count([0], 0) == 1 && Count([0], 1) == 0;
    assert Count([0, 0], 0) == 2 && Count([0, 0], 1) == 0;
    assert LastPick([0, 0], 0) == 1 && LastPick([0, 0], 1) == -1;
    assert IsLeast(infos, t[..0], t[0]);
    assert IsLeast(infos, t[..1], t[1]);
    assert IsLeast(infos, t[..2], t[2]);
    GreedyIsUnique(infos, t, Greedy(infos, 3));
  }

  /** The trucks routed to station `j` by the picks `t`, in arrival order. */
  function Routed(trucks: seq<int>, t: seq<nat>, j: nat): (r: seq<int>)
    requires |t| <= |trucks|
    ensures |r| == Count(t, j)
  {
    if |t| == 0 then []
    else Routed(trucks, t[..|t| - 1], j) + (if t[|t| - 1] == j then [trucks[|t| - 1]] else [])
  }

  /** Station `j` after the picks `t`: same id and wait, routed trucks appended. */
  function Served(infos: seq<StationInfo>, trucks: seq<int>, t: seq<nat>, j: nat): (r: StationInfo)
    requires j < |infos| && |t| <= |trucks|
    ensures r.stationId == infos[j].stationId && r.waitTime == infos[j].waitTime
    ensures Load(r) == LoadAt(infos, t, j)
  {
    infos[j].(qTrucks := infos[j].qTrucks + Routed(trucks, t, j))
  }

  /** The positions `ps` name stations and are listed in strict Precedes order. */
  ghost predicate Ordered(infos: seq<StationInfo>, t: seq<nat>, ps: seq<nat>)
  {
    && (forall q :: 0 <= q < |ps| ==> ps[q] < |infos|)
    && (forall a, b :: 0 <= a < b < |ps| ==> Precedes(infos, t, ps[a], ps[b]))
  }

  /** Entry `q` of `work` is station `pos[q]` as served by the picks `t`. */
  ghost predicate ServedEntries(infos: seq<StationInfo>, trucks: seq<int>, t: seq<nat>,
                                work: seq<StationInfo>, pos: seq<nat>)
  {
    && |t| <= |trucks| && |work| == |pos|
    && (forall q :: 0 <= q < |pos| ==> pos[q] < |infos| && work[q] == Served(infos, trucks, t, pos[q]))
  }

  // Appending picks that do not mention a station leaves its key alone.
  lemma {:induction false} ExtendAbsent(t: seq<nat>, u: seq<nat>, j: nat)
    requires j !in u
    ensures Count(t + u, j) == Count(t, j) && LastPick(t + u, j) == LastPick(t, j)
    decreases |u|
  {
    if |u| == 0 {
      assert t + u == t;
    } else {
      var u0 := u[..|u| - 1];
      assert (t + u)[..|t + u| - 1] == t + u0;
      ExtendAbsent(t, u0, j);
    }
  }

  // Appending distinct picks that mention station u[a] once.
  lemma {:induction false} ExtendPresent(t: seq<nat>, u: seq<nat>, a: nat)
    requires a < |u| && forall x, y :: 0 <= x < y < |u| ==> u[x] != u[y]
    ensures Count(t + u, u[a]) == Count(t, u[a]) + 1 && LastPick(t + u, u[a]) == |t| + a
    decreases |u|
  {
    var u0 := u[..|u| - 1];
    assert (t + u)[..|t + u| - 1] == t + u0;
    if a == |u| - 1 {
      assert u[a] !in u0;
      ExtendAbsent(t, u0, u[a]);
    } else {
      ExtendPresent(t, u0, a);
    }
  }

  lemma {:induction false} RoutedAbsent(trucks: seq<int>, t: seq<nat>, u: seq<nat>, j: nat)
    requires j !in u && |t + u| <= |trucks|
    ensures Routed(trucks, t + u, j) == Routed(trucks, t, j)
    decreases |u|
  {
    if |u| == 0 {
      assert t + u == t;
    } else {
      var u0 := u[..|u| - 1];
      assert (t + u)[..|t + u| - 1] == t + u0;
      RoutedAbsent(trucks, t, u0, j);
    }
  }

  lemma {:induction false} RoutedPresent(trucks: seq<int>, t: seq<nat>, u: seq<nat>, a: nat)
    requires a < |u| && |t + u| <= |trucks| && forall x, y :: 0 <= x < y < |u| ==> u[x] != u[y]
    ensures Routed(trucks, t + u, u[a]) == Routed(trucks, t, u[a]) + [trucks[|t| + a]]
    decreases |u|
  {
    var u0 := u[..|u| - 1];
    assert (t + u)[..|t + u| - 1] == t + u0;
    if a == |u| - 1 {
      assert u[a] !in u0;
      RoutedAbsent(trucks, t, u0, u[a]);
    } else {
      RoutedPresent(trucks, t, u0, a);
    }
  }

  // ---------------------------------------------------------------------
  // Sorted lists: bisect and the stable sort

  datatype SortKey = ByLoad | ById

  function KeyOf(key: SortKey, s: StationInfo): int
  {
    match key
    case ByLoad => Load(s)
    case ById => s.stationId
  }

  predicate SortedBy(s: seq<StationInfo>, key: SortKey)
  {
    forall a, b :: 0 <= a < b < |s| ==> KeyOf(key, s[a]) <= KeyOf(key, s[b])
  }

  /** `bisect.bisect_right` with a key: the first position whose key
      exceeds `v`. */
  method BisectRight(s: seq<StationInfo>, key: SortKey, v: int) returns (p: nat)
    requires SortedBy(s, key)
    ensures p <= |s|
    ensures forall k :: 0 <= k < p ==> KeyOf(key, s[k]) <= v
    ensures forall k :: p <= k < |s| ==> v < KeyOf(key, s[k])
  {
    var lo, hi := 0, |s|;
    while lo < hi
      invariant 0 <= lo <= hi <= |s|
      invariant forall k :: 0 <= k < lo ==> KeyOf(key, s[k]) <= v
      invariant forall k :: hi <= k < |s| ==> v < KeyOf(key, s[k])
    {
      var mid := (lo + hi) / 2;
      if v < KeyOf(key, s[mid]) {
        hi := mid;
      } else {
        lo := mid + 1;
      }
    }
    p := lo;
  }

  /** `list.insert(p, x)` */
  function Insert<T>(s: seq<T>, p: nat, x: T): (r: seq<T>)
    requires p <= |s|
    ensures |r| == |s| + 1 && r[p] == x
    ensures forall q :: 0 <= q < p ==> r[q] == s[q]
    ensures forall q :: p < q < |r| ==> r[q] == s[q - 1]
    ensures multiset(r) == multiset(s) + multiset{x}
  {
    assert s == s[..p] + s[p..];
    s[..p] + [x] + s[p..]
  }

  lemma QueuedInsert(s: seq<StationInfo>, p: nat, x: StationInfo)
    requires p <= |s|
    ensures multiset(Queued(Insert(s, p, x))) == multiset(Queued(s)) + multiset(x.qTrucks)
  {
    QueuedInsertSeq(s, p, x);
  }

  lemma QueuedInsertSeq(s: seq<StationInfo>, p: nat, x: StationInfo)
    requires p <= |s|
    ensures multiset(Queued(s[..p] + [x] + s[p..])) == multiset(Queued(s)) + multiset(x.qTrucks)
  {
    QueuedMid(s[..p], x, s[p..]);
    QueuedSplit(s, p);
    assert multiset(Queued(s[..p] + [x] + s[p..])) == multiset(Queued(s)) + multiset(x.qTrucks);
  }

  lemma QueuedSnoc(s: seq<StationInfo>, i: nat)
    requires i < |s|
    ensures Queued(s[..i + 1]) == Queued(s[..i]) + s[i].qTrucks
  {
    assert s[..i + 1] == s[..i] + [s[i]];
    QueuedAppend(s[..i], [s[i]]);
    assert [s[i]][1..] == [];
  }

  lemma QueuedCons(x: StationInfo, b: seq<StationInfo>)
    ensures Queued([x] + b) == x.qTrucks + Queued(b)
  {
    assert ([x] + b)[1..] == b;
  }

  lemma QueuedMid(a: seq<StationInfo>, x: StationInfo, b: seq<StationInfo>)
    ensures Queued(a + [x] + b) == Queued(a) + (x.qTrucks + Queued(b))
  {
    assert a + [x] + b == a + ([x] + b);
    QueuedAppend(a, [x] + b);
    QueuedCons(x, b);
  }

  lemma QueuedSplit(s: seq<StationInfo>, p: nat)
    requires p <= |s|
    ensures Queued(s) == Queued(s[..p]) + Queued(s[p..])
  {
    QueuedAppend(s[..p], s[p..]);
    assert s[..p] + s[p..] == s;
  }

  /** `r` is sorted by the key, equal keys in order of their input position `perm`. */
  predicate StablySorted(r: seq<StationInfo>, perm: seq<nat>, key: SortKey)
    requires |r| == |perm|
  {
    forall a, b :: 0 <= a < b < |r| ==>
      KeyOf(key, r[a]) < KeyOf(key, r[b]) || (KeyOf(key, r[a]) == KeyOf(key, r[b]) && perm[a] < perm[b])
  }

  /** `r` holds `s[..i]` rearranged, `perm[k]` being the position of `r[k]`. */
  predicate ArrangesPrefix(r: seq<StationInfo>, perm: seq<nat>, s: seq<StationInfo>, i: nat)
    requires i <= |s|
  {
    && |r| == i && |perm| == i
    && (forall k :: 0 <= k < i ==> perm[k] < i && r[k] == s[perm[k]])
    && (forall j :: 0 <= j < i ==> j in perm)
    && Distinct(perm)
  }

  /** Inserting element `i` at its bisect-right point keeps the order stable. */
  lemma SortStep(r: seq<StationInfo>, perm: seq<nat>, s: seq<StationInfo>, key: SortKey, i: nat, p: nat)
    requires i < |s| && ArrangesPrefix(r, perm, s, i) && StablySorted(r, perm, key)
    requires p <= |r|
    requires forall k :: 0 <= k < p ==> KeyOf(key, r[k]) <= KeyOf(key, s[i])
    requires forall k :: p <= k < |r| ==> KeyOf(key, s[i]) < KeyOf(key, r[k])
    ensures ArrangesPrefix(Insert(r, p, s[i]), Insert(perm, p, i), s, i + 1)
    ensures StablySorted(Insert(r, p, s[i]), Insert(perm, p, i), key)
  {
    SortStepArranges(r, perm, s, i, p);
    SortStepStable(r, perm, s, key, i, p);
  }

  lemma SortStepStable(r: seq<StationInfo>, perm: seq<nat>, s: seq<StationInfo>, key: SortKey, i: nat, p: nat)
    requires i < |s| && |r| == |perm| && StablySorted(r, perm, key)
    requires forall k :: 0 <= k < |perm| ==> perm[k] < i
    requires p <= |r|
    requires forall k :: 0 <= k < p ==> KeyOf(key, r[k]) <= KeyOf(key, s[i])
    requires forall k :: p <= k < |r| ==> KeyOf(key, s[i]) < KeyOf(key, r[k])
    ensures StablySorted(Insert(r, p, s[i]), Insert(perm, p, i), key)
  {
    var r', perm' := Insert(r, p, s[i]), Insert(perm, p, i);
    forall a, b | 0 <= a < b < |r'|
      ensures KeyOf(key, r'[a]) < KeyOf(key, r'[b]) || (KeyOf(key, r'[a]) == KeyOf(key, r'[b]) && perm'[a] < perm'[b])
    {
      if b < p {
      } else if b == p {
      } else if a < p {
      } else if a == p {
      } else {
        assert r'[a] == r[a - 1] && r'[b] == r[b - 1];
      }
    }
  }

  lemma SortStepArranges(r: seq<StationInfo>, perm: seq<nat>, s: seq<StationInfo>, i: nat, p: nat)
    requires i < |s| && ArrangesPrefix(r, perm, s, i) && p <= |r|
    ensures ArrangesPrefix(Insert(r, p, s[i]), Insert(perm, p, i), s, i + 1)
  {
    InsertCovers(perm, p, i);
  }

  /** Inserting `i` into a list that holds 0 .. i-1 gives one that holds 0 .. i. */
  lemma InsertCovers(perm: seq<nat>, p: nat, i: nat)
    requires p <= |perm| && forall j :: 0 <= j < i ==> j in perm
    ensures forall j :: 0 <= j < i + 1 ==> j in Insert(perm, p, i)
  {
    var perm' := Insert(perm, p, i);
    forall j | 0 <= j < i + 1
      ensures j in perm'
    {
      if j == i {
        assert perm'[p] == i;
      } else {
        assert j in perm;
        var q :| 0 <= q < |perm| && perm[q] == j;
        if q < p {
          assert perm'[q] == j;
        } else {
          assert perm'[q + 1] == j;
        }
      }
    }
  }

  /** `list.sort(key=...)`, which is stable: sorted by the key, equal keys in
      their input order; `perm[k]` is the input position of `r[k]`. */
  method SortStations(s: seq<StationInfo>, key: SortKey) returns (r: seq<StationInfo>, ghost perm: seq<nat>)
    ensures |r| == |s| && |perm| == |s|
    ensures forall k :: 0 <= k < |r| ==> perm[k] < |s| && r[k] == s[perm[k]]
    ensures forall j :: 0 <= j < |s| ==> j in perm
    ensures Distinct(perm)
    ensures forall a, b :: 0 <= a < b < |r| ==>
              KeyOf(key, r[a]) < KeyOf(key, r[b]) || (KeyOf(key, r[a]) == KeyOf(key, r[b]) && perm[a] < perm[b])
    ensures multiset(Queued(r)) == multiset(Queued(s))
  {
    r, perm := [], [];
    for i := 0 to |s|
      invariant ArrangesPrefix(r, perm, s, i) && StablySorted(r, perm, key)
      invariant multiset(Queued(r)) == multiset(Queued(s[..i]))
    {
      assert SortedBy(r, key);
      var p := BisectRight(r, key, KeyOf(key, s[i]));
      SortStep(r, perm, s, key, i, p);
      QueuedInsert(r, p, s[i]);
      QueuedSnoc(s, i);
      r := Insert(r, p, s[i]);
      perm := Insert(perm, p, i);
    }
    assert s[..|s|] == s;
  }

  // ---------------------------------------------------------------------
  // The algorithm

  /** The working list: a permutation `pos` of the stations, each entry the
      station as served by the picks `t`, in strict `Precedes` order; the
      routed trucks are the input's plus the consumed ones. */
  ghost predicate WorkInv(infos: seq<StationInfo>, trucks: seq<int>, t: seq<nat>, work: seq<StationInfo>, pos: seq<nat>)
  {
    && |pos| == |infos|
    && ServedEntries(infos, trucks, t, work, pos)
    && Ordered(infos, t, pos)
    && (forall j :: 0 <= j < |infos| ==> j in pos)
    && multiset(Queued(work)) == multiset(Queued(infos)) + multiset(trucks[..|t|])
  }

  /** Take the stations tied at the minimum off the front of the list. */
  method PopGroup(work: seq<StationInfo>) returns (group: seq<StationInfo>, rest: seq<StationInfo>)
    requires |work| > 0
    ensures group + rest == work && |group| >= 1
    ensures forall k :: 0 <= k < |group| ==> Load(group[k]) == Load(work[0])
    ensures rest == [] || Load(rest[0]) != Load(work[0])
  {
    var minWait := Load(work[0]);
    group, rest := [], work;
    while |rest| > 0 && Load(rest[0]) == minWait
      invariant group + rest == work
      invariant forall k :: 0 <= k < |group| ==> Load(group[k]) == minWait
      invariant group == [] ==> rest == work
      decreases |rest|
    {
      group := group + [rest[0]];
      rest := rest[1..];
    }
  }

  /** Station `k` of the group after the first `count` stations got a truck each. */
  function ServedUpTo(group: seq<StationInfo>, pending: seq<int>, count: nat, k: nat): StationInfo
    requires k < |group| && count <= |pending|
  {
    if k < count then group[k].(qTrucks := group[k].qTrucks + [pending[k]]) else group[k]
  }

  /** Hand one pending truck to each station of the group, in group order,
      until the group or the trucks run out. */
  method ServeGroup(group: seq<StationInfo>, pending: seq<int>)
    returns (served: seq<StationInfo>, left: seq<int>, count: nat)
    ensures count == if |pending| < |group| then |pending| else |group|
    ensures left == pending[count..] && |served| == |group|
    ensures forall k :: 0 <= k < |group| ==> served[k] == ServedUpTo(group, pending, count, k)
    ensures multiset(Queued(served)) == multiset(Queued(group)) + multiset(pending[..count])
  {
    served, left, count := group, pending, 0;
    while count < |group|
      invariant count <= |group| && count <= |pending| && left == pending[count..] && |served| == |group|
      invariant forall k :: 0 <= k < |group| ==> served[k] == ServedUpTo(group, pending, count, k)
      invariant multiset(Queued(served)) == multiset(Queued(group)) + multiset(pending[..count])
      invariant count < |group| && |left| == 0 ==> count == |pending|
    {
      if |left| == 0 {
        break;
      }
      ServeStep(served, group, pending, count);
      served := served[count := served[count].(qTrucks := served[count].qTrucks + [left[0]])];
      left := left[1..];
      count := count + 1;
    }
  }

  lemma ServeStep(served: seq<StationInfo>, group: seq<StationInfo>, pending: seq<int>, count: nat)
    requires count < |group| && count < |pending| && |served| == |group|
    requires forall k :: 0 <= k < |group| ==> served[k] == ServedUpTo(group, pending, count, k)
    requires multiset(Queued(served)) == multiset(Queued(group)) + multiset(pending[..count])
    ensures var next := served[count := served[count].(qTrucks := served[count].qTrucks + [pending[count]])];
      && (forall k :: 0 <= k < |group| ==> next[k] == ServedUpTo(group, pending, count + 1, k))
      && multiset(Queued(next)) == multiset(Queued(group)) + multiset(pending[..count + 1])
  {
    QueuedReplace(served, count, pending[count]);
    assert pending[..count + 1] == pending[..count] + [pending[count]];
  }

  lemma QueuedReplace(s: seq<StationInfo>, k: nat, y: int)
    requires k < |s|
    ensures multiset(Queued(s[k := s[k].(qTrucks := s[k].qTrucks + [y])]))
            == multiset(Queued(s)) + multiset{y}
  {
    var x := s[k].(qTrucks := s[k].qTrucks + [y]);
    var a, b := s[..k], s[k + 1..];
    assert s == a + [s[k]] + b;
    assert s[k := x] == a + [x] + b;
    QueuedMid(a, s[k], b);
    QueuedMid(a, x, b);
    assert multiset(Queued(s[k := x])) == multiset(Queued(s)) + multiset{y};
  }

  // ---------------------------------------------------------------------
  // One round of the algorithm

  /** The working list split at the start of a round: `gpos` are the
      stations tied at the minimal load `m`, in Precedes order; `rpos` the
      rest, all heavier, in Precedes order. */
  ghost predicate RoundSplit(infos: seq<StationInfo>, t: seq<nat>, gpos: seq<nat>, rpos: seq<nat>, m: int)
  {
    && (forall k :: 0 <= k < |gpos| ==> gpos[k] < |infos| && LoadAt(infos, t, gpos[k]) == m)
    && (forall k :: 0 <= k < |rpos| ==> rpos[k] < |infos| && LoadAt(infos, t, rpos[k]) > m)
    && (forall a, b :: 0 <= a < b < |gpos| ==> Precedes(infos, t, gpos[a], gpos[b]))
    && (forall a, b :: 0 <= a < b < |rpos| ==> Precedes(infos, t, rpos[a], rpos[b]))
    && (forall j :: 0 <= j < |infos| ==> j in gpos || j in rpos)
  }

  /** No station is both in the group and in the rest, and the group has no
      repeats. */
  lemma SplitDisjoint(infos: seq<StationInfo>, t: seq<nat>, gpos: seq<nat>, rpos: seq<nat>, m: int)
    requires RoundSplit(infos, t, gpos, rpos, m)
    ensures Distinct(gpos)
    ensures forall q :: 0 <= q < |rpos| ==> rpos[q] !in gpos
  {
  }

  /** The popped group and the rest, seen through the station positions. */
  lemma RoundSetup(infos: seq<StationInfo>, trucks: seq<int>, t: seq<nat>, work: seq<StationInfo>, pos: seq<nat>,
                   group: seq<StationInfo>, rest: seq<StationInfo>)
    requires WorkInv(infos, trucks, t, work, pos)
    requires group + rest == work && |group| >= 1
    requires forall k :: 0 <= k < |group| ==> Load(group[k]) == Load(work[0])
    requires rest == [] || Load(rest[0]) != Load(work[0])
    ensures RoundSplit(infos, t, pos[..|group|], pos[|group|..], Load(work[0]))
    ensures forall k :: 0 <= k < |group| ==> group[k] == Served(infos, trucks, t, pos[k])
    ensures forall q :: 0 <= q < |rest| ==> rest[q] == Served(infos, trucks, t, pos[|group| + q])
  {
    SplitServed(infos, trucks, t, work, pos, group, rest);
    SplitLoads(infos, t, pos, |group|, Load(work[0]));
    SplitCovers(|infos|, pos, |group|);
  }

  lemma SplitServed(infos: seq<StationInfo>, trucks: seq<int>, t: seq<nat>, work: seq<StationInfo>, pos: seq<nat>,
                    group: seq<StationInfo>, rest: seq<StationInfo>)
    requires |t| <= |trucks| && |work| == |pos| && group + rest == work
    requires forall k :: 0 <= k < |pos| ==> pos[k] < |infos| && work[k] == Served(infos, trucks, t, pos[k])
    ensures forall k :: 0 <= k < |group| ==> group[k] == Served(infos, trucks, t, pos[k])
    ensures forall q :: 0 <= q < |rest| ==> rest[q] == Served(infos, trucks, t, pos[|group| + q])
  {
    forall q | 0 <= q < |rest|
      ensures rest[q] == Served(infos, trucks, t, pos[|group| + q])
    {
      assert rest[q] == work[|group| + q];
    }
    forall k | 0 <= k < |group|
      ensures group[k] == Served(infos, trucks, t, pos[k])
    {
      assert group[k] == work[k];
    }
  }

  lemma SplitLoads(infos: seq<StationInfo>, t: seq<nat>, pos: seq<nat>, g: nat, m: int)
    requires 1 <= g <= |pos| && (forall k :: 0 <= k < |pos| ==> pos[k] < |infos|)
    requires forall a, b :: 0 <= a < b < |pos| ==> Precedes(infos, t, pos[a], pos[b])
    requires forall k :: 0 <= k < g ==> LoadAt(infos, t, pos[k]) == m
    requires g < |pos| ==> LoadAt(infos, t, pos[g]) != m
    ensures forall k :: 0 <= k < |pos| - g ==> LoadAt(infos, t, pos[g..][k]) > m
    ensures forall a, b :: 0 <= a < b < g ==> Precedes(infos, t, pos[..g][a], pos[..g][b])
    ensures forall a, b :: 0 <= a < b < |pos| - g ==> Precedes(infos, t, pos[g..][a], pos[g..][b])
  {
    forall q | g <= q < |pos|
      ensures LoadAt(infos, t, pos[q]) > m
    {
      assert Precedes(infos, t, pos[0], pos[g]);
      if q > g {
        assert Precedes(infos, t, pos[g], pos[q]);
      }
    }
  }

  lemma SplitCovers(n: nat, pos: seq<nat>, g: nat)
    requires g <= |pos| && forall j :: 0 <= j < n ==> j in pos
    ensures forall j :: 0 <= j < n ==> j in pos[..g] || j in pos[g..]
  {
    forall j | 0 <= j < n
      ensures j in pos[..g] || j in pos[g..]
    {
      assert j in pos;
      var q :| 0 <= q < |pos| && pos[q] == j;
      if q < g {
        assert pos[..g][q] == j;
      } else {
        assert pos[g..][q - g] == j;
      }
    }
  }

  /** Inside a round, the k-th handed-out truck goes to the first station
      at that moment: the group's earlier members are now one heavier, its
      later members and the rest are untouched. */
  lemma GroupPickIsLeast(infos: seq<StationInfo>, t: seq<nat>, gpos: seq<nat>, rpos: seq<nat>, m: int, k: nat)
    requires RoundSplit(infos, t, gpos, rpos, m) && k < |gpos|
    ensures IsLeast(infos, t + gpos[..k], gpos[k])
  {
    SplitDisjoint(infos, t, gpos, rpos, m);
    var u := gpos[..k];
    assert Distinct(u);
    var j := gpos[k];
    ExtendAbsent(t, u, j);
    forall b | 0 <= b < |infos| && b != j
      ensures Precedes(infos, t + u, j, b)
    {
      if b in gpos {
        var a :| 0 <= a < |gpos| && gpos[a] == b;
        if a < k {
          ExtendPresent(t, u, a);
        } else {
          assert b !in u;
          ExtendAbsent(t, u, b);
          assert Precedes(infos, t, j, b);
        }
      } else {
        var q :| 0 <= q < |rpos| && rpos[q] == b;
        assert b !in u;
        ExtendAbsent(t, u, b);
      }
    }
  }

  /** The effect of a round's hand-outs on the keys. */
  lemma KeysAfterRound(infos: seq<StationInfo>, t: seq<nat>, gpos: seq<nat>, rpos: seq<nat>, m: int, served: nat, j: nat)
    requires RoundSplit(infos, t, gpos, rpos, m) && served <= |gpos| && j < |infos|
    ensures var t' := t + gpos[..served];
      && (j in rpos ==> LoadAt(infos, t', j) == LoadAt(infos, t, j) > m && LastPick(t', j) == LastPick(t, j) < |t|)
      && (forall a :: 0 <= a < served && gpos[a] == j ==> LoadAt(infos, t', j) == m + 1 && LastPick(t', j) == |t| + a)
      && (forall a :: served <= a < |gpos| && gpos[a] == j ==>
            LoadAt(infos, t', j) == m && LastPick(t', j) == LastPick(t, j))
  {
    SplitDisjoint(infos, t, gpos, rpos, m);
    var u := gpos[..served];
    assert Distinct(u);
    if j in rpos {
      assert j !in gpos;
      ExtendAbsent(t, u, j);
    }
    forall a | 0 <= a < served && gpos[a] == j
      ensures LoadAt(infos, t + u, j) == m + 1 && LastPick(t + u, j) == |t| + a
    {
      ExtendPresent(t, u, a);
    }
    forall a | served <= a < |gpos| && gpos[a] == j
      ensures LoadAt(infos, t + u, j) == m && LastPick(t + u, j) == LastPick(t, j)
    {
      assert j !in u;
      ExtendAbsent(t, u, j);
    }
  }

  /** A station still waiting to be re-inserted goes after every listed
      station whose load is not larger. */
  lemma InsertPointOrder(infos: seq<StationInfo>, t: seq<nat>, gpos: seq<nat>, rpos: seq<nat>, m: int,
                         served: nat, k: nat, e: nat)
    requires RoundSplit(infos, t, gpos, rpos, m) && served <= |gpos| && k < |gpos|
    requires e in rpos || e in gpos[..k]
    requires e < |infos| && LoadAt(infos, t + gpos[..served], e) <= LoadAt(infos, t + gpos[..served], gpos[k])
    ensures Precedes(infos, t + gpos[..served], e, gpos[k])
  {
    var j := gpos[k];
    KeysAfterRound(infos, t, gpos, rpos, m, served, j);
    KeysAfterRound(infos, t, gpos, rpos, m, served, e);
    SplitDisjoint(infos, t, gpos, rpos, m);
    if e in gpos[..k] {
      var a :| 0 <= a < k && gpos[a] == e;
      if a >= served {
        assert Precedes(infos, t, e, j);
      }
    }
  }

  /** Inserting at a point that separates predecessors from successors keeps
      a strictly ordered position list ordered. */
  lemma InsertKeepsOrder(infos: seq<StationInfo>, t: seq<nat>, ps: seq<nat>, p: nat, j: nat)
    requires p <= |ps| && j < |infos| && Ordered(infos, t, ps)
    requires forall q :: 0 <= q < p ==> Precedes(infos, t, ps[q], j)
    requires forall q :: p <= q < |ps| ==> Precedes(infos, t, j, ps[q])
    ensures Ordered(infos, t, Insert(ps, p, j))
  {
    var r := Insert(ps, p, j);
    forall a, b | 0 <= a < b < |r|
      ensures Precedes(infos, t, r[a], r[b])
    {
      if b < p {
      } else if b == p {
      } else if a < p {
        assert r[b] == ps[b - 1];
      } else if a == p {
        assert r[b] == ps[b - 1];
      } else {
        assert r[a] == ps[a - 1] && r[b] == ps[b - 1];
      }
    }
  }

  /** After the hand-outs, the group and the rest are the stations as
      served by the extended trace. */
  lemma ServedAfterRound(infos: seq<StationInfo>, trucks: seq<int>, t: seq<nat>, gpos: seq<nat>, rpos: seq<nat>, m: int,
                         group: seq<StationInfo>, rest: seq<StationInfo>, pending: seq<int>, served: seq<StationInfo>, count: nat)
    requires RoundSplit(infos, t, gpos, rpos, m) && |group| == |gpos| && |rest| == |rpos|
    requires |t| <= |trucks| && pending == trucks[|t|..]
    requires count <= |gpos| && count <= |pending| && |served| == |group|
    requires forall k :: 0 <= k < |group| ==> group[k] == Served(infos, trucks, t, gpos[k])
    requires forall q :: 0 <= q < |rest| ==> rest[q] == Served(infos, trucks, t, rpos[q])
    requires forall k :: 0 <= k < |group| ==> served[k] == ServedUpTo(group, pending, count, k)
    ensures |t + gpos[..count]| <= |trucks|
    ensures forall k :: 0 <= k < |group| ==> served[k] == Served(infos, trucks, t + gpos[..count], gpos[k])
    ensures forall q :: 0 <= q < |rest| ==> rest[q] == Served(infos, trucks, t + gpos[..count], rpos[q])
  {
    SplitDisjoint(infos, t, gpos, rpos, m);
    var u := gpos[..count];
    assert Distinct(u);
    forall k | 0 <= k < |group|
      ensures served[k] == Served(infos, trucks, t + u, gpos[k])
    {
      if k < count {
        RoutedPresent(trucks, t, u, k);
      } else {
        assert gpos[k] !in u;
        RoutedAbsent(trucks, t, u, gpos[k]);
      }
    }
    forall q | 0 <= q < |rest|
      ensures rest[q] == Served(infos, trucks, t + u, rpos[q])
    {
      assert rpos[q] !in u;
      RoutedAbsent(trucks, t, u, rpos[q]);
    }
  }

  /** A round keeps the trace greedy. */
  lemma GreedyAfterRound(infos: seq<StationInfo>, t: seq<nat>, gpos: seq<nat>, rpos: seq<nat>, m: int, count: nat)
    requires RoundSplit(infos, t, gpos, rpos, m) && count <= |gpos| && IsGreedy(infos, t)
    ensures IsGreedy(infos, t + gpos[..count])
  {
    var t' := t + gpos[..count];
    forall i | 0 <= i < |t'|
      ensures IsLeast(infos, t'[..i], t'[i])
    {
      if i < |t| {
        assert t'[..i] == t[..i];
      } else {
        var k := i - |t|;
        assert t'[..i] == t + gpos[..k];
        GroupPickIsLeast(infos, t, gpos, rpos, m, k);
      }
    }
  }

  /** One round of the outer loop: pop the stations tied at the minimum,
      hand them one truck each in order, and re-insert all of them to the
      right of equal loads. */
  method Round(ghost infos: seq<StationInfo>, ghost trucks: seq<int>, work: seq<StationInfo>, pending: seq<int>,
               ghost pos: seq<nat>, ghost t: seq<nat>)
    returns (work': seq<StationInfo>, pending': seq<int>, ghost pos': seq<nat>, ghost t': seq<nat>)
    requires |infos| > 0 && |pending| > 0 && |t| <= |trucks| && pending == trucks[|t|..]
    requires IsGreedy(infos, t) && WorkInv(infos, trucks, t, work, pos)
    ensures |t| < |t'| <= |trucks| && pending' == trucks[|t'|..]
    ensures IsGreedy(infos, t') && WorkInv(infos, trucks, t', work', pos')
  {
    var group, rest := PopGroup(work);
    ghost var m := Load(work[0]);
    ghost var gpos, rpos := pos[..|group|], pos[|group|..];
    var served, count;
    served, pending', count := ServeGroup(group, pending);
    t' := t + gpos[..count];
    RoundMiddle(infos, trucks, t, work, pos, group, rest, pending, served, count);
    work', pos' := Reinsert(infos, trucks, t, gpos, rpos, m, count, rest, served);
    RoundFinish(infos, trucks, t, work, pos, group, rest, gpos, rpos, pending, count, served, work', pos');
  }

  /** The hand-outs of a round, seen through the station positions: the
      split is in place, the trace is still greedy, and every station of the
      list is as served by the extended trace. */
  lemma RoundMiddle(infos: seq<StationInfo>, trucks: seq<int>, t: seq<nat>, work: seq<StationInfo>, pos: seq<nat>,
                    group: seq<StationInfo>, rest: seq<StationInfo>, pending: seq<int>, served: seq<StationInfo>,
                    count: nat)
    requires |pending| > 0 && |t| <= |trucks| && pending == trucks[|t|..]
    requires IsGreedy(infos, t) && WorkInv(infos, trucks, t, work, pos)
    requires group + rest == work && |group| >= 1
    requires forall k :: 0 <= k < |group| ==> Load(group[k]) == Load(work[0])
    requires rest == [] || Load(rest[0]) != Load(work[0])
    requires count == if |pending| < |group| then |pending| else |group|
    requires |served| == |group|
    requires forall k :: 0 <= k < |group| ==> served[k] == ServedUpTo(group, pending, count, k)
    ensures RoundSplit(infos, t, pos[..|group|], pos[|group|..], Load(work[0]))
    ensures IsGreedy(infos, t + pos[..|group|][..count])
    ensures |t + pos[..|group|][..count]| <= |trucks|
    ensures forall k :: 0 <= k < |served| ==>
              served[k] == Served(infos, trucks, t + pos[..|group|][..count], pos[..|group|][k])
    ensures forall q :: 0 <= q < |rest| ==>
              rest[q] == Served(infos, trucks, t + pos[..|group|][..count], pos[|group|..][q])
  {
    var m, gpos, rpos := Load(work[0]), pos[..|group|], pos[|group|..];
    RoundSetup(infos, trucks, t, work, pos, group, rest);
    GreedyAfterRound(infos, t, gpos, rpos, m, count);
    ServedAfterRound(infos, trucks, t, gpos, rpos, m, group, rest, pending, served, count);
  }

  /** The bookkeeping that closes a round: the re-inserted list covers every
      station and holds exactly the routed trucks. */
  lemma RoundFinish(infos: seq<StationInfo>, trucks: seq<int>, t: seq<nat>, work: seq<StationInfo>, pos: seq<nat>,
                    group: seq<StationInfo>, rest: seq<StationInfo>, gpos: seq<nat>, rpos: seq<nat>,
                    pending: seq<int>, count: nat, served: seq<StationInfo>, work': seq<StationInfo>, pos': seq<nat>)
    requires WorkInv(infos, trucks, t, work, pos) && group + rest == work
    requires gpos == pos[..|group|] && rpos == pos[|group|..] && |served| == |gpos|
    requires pending == trucks[|t|..] && count <= |pending| && count <= |gpos|
    requires multiset(Queued(served)) == multiset(Queued(group)) + multiset(pending[..count])
    requires ReinsertInv(infos, trucks, t + gpos[..count], gpos, rpos, rest, served, |served|, work', pos')
    ensures WorkInv(infos, trucks, t + gpos[..count], work', pos')
    ensures |t + gpos[..count]| == |t| + count && pending[count..] == trucks[|t + gpos[..count]|..]
  {
    var t' := t + gpos[..count];
    assert pos[..|group|] + pos[|group|..] == pos;
    assert gpos[..|gpos|] == gpos;
    assert served[..|served|] == served;
    PositionsCover(|infos|, pos, gpos, rpos, pos');
    TruckPrefixStep(trucks, |t|, |t'|, pending, count);
    QueuedAppend(group, rest);
    MultisetBookkeeping(Queued(work), Queued(group), Queued(rest), Queued(served), Queued(work'), Queued(infos),
                        trucks[..|t|], pending[..count], trucks[..|t'|]);
  }

  /** The trucks consumed after a round are the earlier ones followed by
      the round's, and the rest are still pending. Stated apart from
      `RoundFinish`, whose large context makes these slices costly. */
  lemma TruckPrefixStep(trucks: seq<int>, n: nat, n': nat, pending: seq<int>, count: nat)
    requires n <= |trucks| && pending == trucks[n..] && count <= |pending| && n' == n + count
    ensures trucks[..n'] == trucks[..n] + pending[..count]
    ensures pending[count..] == trucks[n'..]
  {
  }

  /** The re-inserted list still covers every station. */
  lemma PositionsCover(n: nat, pos: seq<nat>, gpos: seq<nat>, rpos: seq<nat>, pos': seq<nat>)
    requires pos == gpos + rpos && multiset(pos') == multiset(rpos) + multiset(gpos)
    requires forall j :: 0 <= j < n ==> j in pos
    ensures forall j :: 0 <= j < n ==> j in pos'
  {
    forall j | 0 <= j < n
      ensures j in pos'
    {
      assert j in pos;
      assert j in multiset(pos);
      assert multiset(pos) == multiset(gpos) + multiset(rpos);
      assert j in multiset(pos');
    }
  }

  /** The routed trucks after a round are those before it plus the ones
      handed out. */
  lemma MultisetBookkeeping(qw: seq<int>, qg: seq<int>, qr: seq<int>, qs: seq<int>, qw': seq<int>, qi: seq<int>,
                            before: seq<int>, handed: seq<int>, after: seq<int>)
    requires qw == qg + qr && after == before + handed
    requires multiset(qw) == multiset(qi) + multiset(before)
    requires multiset(qs) == multiset(qg) + multiset(handed)
    requires multiset(qw') == multiset(qr) + multiset(qs)
    ensures multiset(qw') == multiset(qi) + multiset(after)
  {
    calc {
      multiset(qw');
      multiset(qr) + (multiset(qg) + multiset(handed));
      (multiset(qg) + multiset(qr)) + multiset(handed);
      { assert multiset(qw) == multiset(qg) + multiset(qr); }
      multiset(qw) + multiset(handed);
      (multiset(qi) + multiset(before)) + multiset(handed);
      { assert multiset(after) == multiset(before) + multiset(handed); }
      multiset(qi) + multiset(after);
    }
  }

  /** The state of the re-insertion loop after `k` members of the group:
      the rest and those `k` members, each as served, in Precedes order. */
  ghost predicate ReinsertInv(infos: seq<StationInfo>, trucks: seq<int>, t': seq<nat>, gpos: seq<nat>, rpos: seq<nat>,
                              rest: seq<StationInfo>, served: seq<StationInfo>, k: nat,
                              work': seq<StationInfo>, pos': seq<nat>)
  {
    && k <= |served| == |gpos| && |pos'| == |rest| + k
    && ServedEntries(infos, trucks, t', work', pos')
    && Ordered(infos, t', pos')
    && multiset(pos') == multiset(rpos) + multiset(gpos[..k])
    && multiset(Queued(work')) == multiset(Queued(rest)) + multiset(Queued(served[..k]))
  }

  lemma ReinsertStart(infos: seq<StationInfo>, trucks: seq<int>, t: seq<nat>, gpos: seq<nat>,
                      rpos: seq<nat>, m: int, count: nat, rest: seq<StationInfo>, served: seq<StationInfo>)
    requires RoundSplit(infos, t, gpos, rpos, m) && count <= |gpos| && |t + gpos[..count]| <= |trucks|
    requires |served| == |gpos| && |rest| == |rpos|
    requires forall q :: 0 <= q < |rest| ==> rest[q] == Served(infos, trucks, t + gpos[..count], rpos[q])
    ensures ReinsertInv(infos, trucks, t + gpos[..count], gpos, rpos, rest, served, 0, rest, rpos)
  {
    var t' := t + gpos[..count];
    forall a, b | 0 <= a < b < |rpos|
      ensures Precedes(infos, t', rpos[a], rpos[b])
    {
      KeysAfterRound(infos, t, gpos, rpos, m, count, rpos[a]);
      KeysAfterRound(infos, t, gpos, rpos, m, count, rpos[b]);
    }
    assert gpos[..0] == [] && served[..0] == [];
    assert Queued(served[..0]) == [];
  }

  lemma ReinsertSorted(infos: seq<StationInfo>, trucks: seq<int>, t': seq<nat>, gpos: seq<nat>, rpos: seq<nat>,
                       rest: seq<StationInfo>, served: seq<StationInfo>, k: nat, work': seq<StationInfo>, pos': seq<nat>)
    requires ReinsertInv(infos, trucks, t', gpos, rpos, rest, served, k, work', pos')
    ensures SortedBy(work', ByLoad)
  {
    forall a, b | 0 <= a < b < |work'|
      ensures Load(work'[a]) <= Load(work'[b])
    {
      assert Precedes(infos, t', pos'[a], pos'[b]);
    }
  }

  /** Inserting group member `k` at its bisection point keeps the loop state. */
  lemma ReinsertStep(infos: seq<StationInfo>, trucks: seq<int>, t': seq<nat>, gpos: seq<nat>, rpos: seq<nat>,
                     rest: seq<StationInfo>, served: seq<StationInfo>, k: nat, work': seq<StationInfo>, pos': seq<nat>,
                     p: nat)
    requires ReinsertInv(infos, trucks, t', gpos, rpos, rest, served, k, work', pos') && k < |served|
    requires gpos[k] < |infos| && served[k] == Served(infos, trucks, t', gpos[k]) && p <= |pos'|
    requires forall q :: 0 <= q < p ==> Precedes(infos, t', pos'[q], gpos[k])
    requires forall q :: p <= q < |pos'| ==> Precedes(infos, t', gpos[k], pos'[q])
    ensures ReinsertInv(infos, trucks, t', gpos, rpos, rest, served, k + 1,
                        Insert(work', p, served[k]), Insert(pos', p, gpos[k]))
  {
    assert gpos[..k + 1] == gpos[..k] + [gpos[k]];
    var w2, p2 := Insert(work', p, served[k]), Insert(pos', p, gpos[k]);
    InsertKeepsOrder(infos, t', pos', p, gpos[k]);
    QueuedInsert(work', p, served[k]);
    QueuedSnoc(served, k);
    assert multiset(Queued(w2)) == multiset(Queued(rest)) + multiset(Queued(served[..k + 1]));
    InsertServed(infos, trucks, t', work', pos', p, served[k], gpos[k]);
  }

  /** Inserting a station and its position at the same point keeps the
      entries in step. */
  lemma InsertServed(infos: seq<StationInfo>, trucks: seq<int>, t: seq<nat>, work: seq<StationInfo>, pos: seq<nat>,
                     p: nat, x: StationInfo, j: nat)
    requires ServedEntries(infos, trucks, t, work, pos) && p <= |pos| && j < |infos|
    requires x == Served(infos, trucks, t, j)
    ensures ServedEntries(infos, trucks, t, Insert(work, p, x), Insert(pos, p, j))
  {
  }

  lemma ReinsertBefore(infos: seq<StationInfo>, trucks: seq<int>, t: seq<nat>, gpos: seq<nat>,
                       rpos: seq<nat>, m: int, count: nat, rest: seq<StationInfo>, served: seq<StationInfo>,
                       k: nat, work': seq<StationInfo>, pos': seq<nat>, p: nat)
    requires RoundSplit(infos, t, gpos, rpos, m) && count <= |gpos| && k < |served|
    requires ReinsertInv(infos, trucks, t + gpos[..count], gpos, rpos, rest, served, k, work', pos')
    requires served[k] == Served(infos, trucks, t + gpos[..count], gpos[k])
    requires p <= |work'|
    requires forall q :: 0 <= q < p ==> KeyOf(ByLoad, work'[q]) <= Load(served[k])
    ensures forall q :: 0 <= q < p ==> Precedes(infos, t + gpos[..count], pos'[q], gpos[k])
  {
    forall q | 0 <= q < p
      ensures Precedes(infos, t + gpos[..count], pos'[q], gpos[k])
    {
      assert pos'[q] in multiset(pos');
      assert pos'[q] in rpos || pos'[q] in gpos[..k];
      InsertPointOrder(infos, t, gpos, rpos, m, count, k, pos'[q]);
    }
  }

  lemma ReinsertAfter(infos: seq<StationInfo>, trucks: seq<int>, t': seq<nat>, gpos: seq<nat>, rpos: seq<nat>,
                      rest: seq<StationInfo>, served: seq<StationInfo>, k: nat, work': seq<StationInfo>, pos': seq<nat>,
                      p: nat)
    requires ReinsertInv(infos, trucks, t', gpos, rpos, rest, served, k, work', pos') && k < |served|
    requires gpos[k] < |infos| && served[k] == Served(infos, trucks, t', gpos[k])
    requires p <= |work'|
    requires forall q :: p <= q < |work'| ==> Load(served[k]) < KeyOf(ByLoad, work'[q])
    ensures forall q :: p <= q < |pos'| ==> Precedes(infos, t', gpos[k], pos'[q])
  {
    forall q | p <= q < |pos'|
      ensures Precedes(infos, t', gpos[k], pos'[q])
    {
      assert Load(work'[q]) == LoadAt(infos, t', pos'[q]);
    }
  }

  /** Re-insert the group with `insort` (to the right of equal loads). */
  method Reinsert(ghost infos: seq<StationInfo>, ghost trucks: seq<int>, ghost t: seq<nat>, ghost gpos: seq<nat>,
                  ghost rpos: seq<nat>, ghost m: int, ghost count: nat, rest: seq<StationInfo>, served: seq<StationInfo>)
    returns (work': seq<StationInfo>, ghost pos': seq<nat>)
    requires RoundSplit(infos, t, gpos, rpos, m) && count <= |gpos| && |t + gpos[..count]| <= |trucks|
    requires |served| == |gpos| && |rest| == |rpos|
    requires forall k :: 0 <= k < |served| ==> served[k] == Served(infos, trucks, t + gpos[..count], gpos[k])
    requires forall q :: 0 <= q < |rest| ==> rest[q] == Served(infos, trucks, t + gpos[..count], rpos[q])
    ensures ReinsertInv(infos, trucks, t + gpos[..count], gpos, rpos, rest, served, |served|, work', pos')
  {
    ReinsertStart(infos, trucks, t, gpos, rpos, m, count, rest, served);
    work', pos' := rest, rpos;
    for k := 0 to |served|
      invariant ReinsertInv(infos, trucks, t + gpos[..count], gpos, rpos, rest, served, k, work', pos')
    {
      ReinsertSorted(infos, trucks, t + gpos[..count], gpos, rpos, rest, served, k, work', pos');
      var p := BisectRight(work', ByLoad, Load(served[k]));
      ReinsertBefore(infos, trucks, t, gpos, rpos, m, count, rest, served, k, work', pos', p);
      ReinsertAfter(infos, trucks, t + gpos[..count], gpos, rpos, rest, served, k, work', pos', p);
      ReinsertStep(infos, trucks, t + gpos[..count], gpos, rpos, rest, served, k, work', pos', p);
      work' := Insert(work', p, served[k]);
      pos' := Insert(pos', p, gpos[k]);
    }
  }

  // ---------------------------------------------------------------------
  // The whole algorithm

  /** The routed-nothing state: each station as it came in, ordered by
      load and then by input position, which is what the stable sort by
      load produces. */
  lemma WorkInvStart(infos: seq<StationInfo>, trucks: seq<int>, work: seq<StationInfo>, perm: seq<nat>)
    requires |work| == |infos| && |perm| == |infos|
    requires forall k :: 0 <= k < |work| ==> perm[k] < |infos| && work[k] == infos[perm[k]]
    requires forall j :: 0 <= j < |infos| ==> j in perm
    requires forall a, b :: 0 <= a < b < |work| ==>
               KeyOf(ByLoad, work[a]) < KeyOf(ByLoad, work[b])
               || (KeyOf(ByLoad, work[a]) == KeyOf(ByLoad, work[b]) && perm[a] < perm[b])
    requires multiset(Queued(work)) == multiset(Queued(infos))
    ensures WorkInv(infos, trucks, [], work, perm) && IsGreedy(infos, [])
  {
    forall k | 0 <= k < |perm|
      ensures work[k] == Served(infos, trucks, [], perm[k])
    {
      assert infos[perm[k]].qTrucks + [] == infos[perm[k]].qTrucks;
    }
    forall a, b | 0 <= a < b < |perm|
      ensures Precedes(infos, [], perm[a], perm[b])
    {
      assert LoadAt(infos, [], perm[a]) == Load(work[a]) && LoadAt(infos, [], perm[b]) == Load(work[b]);
    }
    assert trucks[..0] == [];
  }

  /** `assign_stations_algo` on the list of station infos: every new truck
      is handed out (the list of new trucks ends empty), the stations come
      back sorted by id, each one the input station with the trucks the
      greedy trace routes to it appended, and the assignments name every
      routed truck exactly once. Having at least one station when trucks
      are pending is the caller's duty: with none, the source fails on the
      empty list. */
  method AssignStations(newTrucks: seq<int>, stationInfos: seq<StationInfo>)
    returns (unassigned: seq<int>, stations: seq<StationInfo>, truckInfos: seq<TruckAssignment>, ghost order: seq<nat>)
    requires |stationInfos| > 0 || |newTrucks| == 0
    ensures unassigned == []
    ensures |stations| == |stationInfos| && |order| == |stationInfos|
    ensures forall j :: 0 <= j < |stationInfos| ==> j in order
    ensures forall k :: 0 <= k < |order| ==> order[k] < |stationInfos|
    ensures forall k :: 0 <= k < |stations| ==>
              stations[k] == Served(stationInfos, newTrucks, Greedy(stationInfos, |newTrucks|), order[k])
    ensures SortedBy(stations, ById)
    ensures forall a, b :: 0 <= a < b < |stations| && stations[a].stationId == stations[b].stationId ==>
              Precedes(stationInfos, Greedy(stationInfos, |newTrucks|), order[a], order[b])
    ensures truckInfos == GetTruckAssignments(stations)
    ensures multiset(TruckIds(truckInfos)) == multiset(Queued(stationInfos)) + multiset(newTrucks)
  {
    var sorted, perm := SortStations(stationInfos, ByLoad);
    WorkInvStart(stationInfos, newTrucks, sorted, perm);
    var work;
    ghost var pos, t;
    unassigned, work, pos, t := HandOut(stationInfos, newTrucks, sorted, perm);
    ghost var byId;
    stations, byId := SortStations(work, ById);
    order := Compose(pos, byId);
    truckInfos := GetTruckAssignments(stations);
    AssignFinish(stationInfos, newTrucks, t, work, pos, stations, byId);
    assert t == Greedy(stationInfos, |newTrucks|) by {
      GreedyIsUnique(stationInfos, t, Greedy(stationInfos, |newTrucks|));
    }
  }

  /** The outer loop: rounds until no truck is pending; every round hands
      out at least one truck. */
  method HandOut(ghost infos: seq<StationInfo>, newTrucks: seq<int>, sorted: seq<StationInfo>, ghost perm: seq<nat>)
    returns (pending: seq<int>, work: seq<StationInfo>, ghost pos: seq<nat>, ghost t: seq<nat>)
    requires |infos| > 0 || |newTrucks| == 0
    requires WorkInv(infos, newTrucks, [], sorted, perm) && IsGreedy(infos, [])
    ensures pending == [] && |t| == |newTrucks|
    ensures IsGreedy(infos, t) && WorkInv(infos, newTrucks, t, work, pos)
  {
    pending, work, pos, t := newTrucks, sorted, perm, [];
    while |pending| > 0
      invariant |t| <= |newTrucks| && pending == newTrucks[|t|..]
      invariant IsGreedy(infos, t) && WorkInv(infos, newTrucks, t, work, pos)
      decreases |pending|
    {
      work, pending, pos, t := Round(infos, newTrucks, work, pending, pos, t);
    }
  }

  /** After the last round: the trace is the greedy one, and sorting by id
      only rearranges the working list. */
  lemma AssignFinish(infos: seq<StationInfo>, trucks: seq<int>, t: seq<nat>, work: seq<StationInfo>, pos: seq<nat>,
                     stations: seq<StationInfo>, byId: seq<nat>)
    requires |t| == |trucks| && |pos| == |infos| && ServedEntries(infos, trucks, t, work, pos)
    requires forall j :: 0 <= j < |infos| ==> j in pos
    requires multiset(Queued(work)) == multiset(Queued(infos)) + multiset(trucks[..|t|])
    requires |stations| == |work| && |byId| == |work|
    requires forall k :: 0 <= k < |stations| ==> byId[k] < |work| && stations[k] == work[byId[k]]
    requires forall j :: 0 <= j < |work| ==> j in byId
    requires forall a, b :: 0 <= a < b < |stations| ==>
               KeyOf(ById, stations[a]) < KeyOf(ById, stations[b])
               || (KeyOf(ById, stations[a]) == KeyOf(ById, stations[b]) && byId[a] < byId[b])
    requires multiset(Queued(stations)) == multiset(Queued(work))
    requires Ordered(infos, t, pos)
    ensures SortedBy(stations, ById)
    ensures forall j :: 0 <= j < |infos| ==> j in Compose(pos, byId)
    ensures forall k :: 0 <= k < |stations| ==>
              Compose(pos, byId)[k] < |infos| && stations[k] == Served(infos, trucks, t, Compose(pos, byId)[k])
    ensures forall a, b :: 0 <= a < b < |stations| && stations[a].stationId == stations[b].stationId ==>
              Precedes(infos, t, Compose(pos, byId)[a], Compose(pos, byId)[b])
    ensures multiset(TruckIds(GetTruckAssignments(stations))) == multiset(Queued(infos)) + multiset(trucks)
  {
    assert trucks[..|trucks|] == trucks;
    ComposeCovers(|infos|, pos, byId);
    ServedCompose(infos, trucks, t, work, pos, stations, byId);
    TruckIdsQueued(stations);
    EqualIdsKeepOrder(infos, t, pos, stations, byId);
  }

  /** Sorting by id is stable: stations with equal ids keep the working
      list's order, which is the Precedes order. */
  lemma EqualIdsKeepOrder(infos: seq<StationInfo>, t: seq<nat>, pos: seq<nat>, stations: seq<StationInfo>, byId: seq<nat>)
    requires Ordered(infos, t, pos) && |byId| == |stations|
    requires forall k :: 0 <= k < |stations| ==> byId[k] < |pos|
    requires forall a, b :: 0 <= a < b < |stations| ==>
               KeyOf(ById, stations[a]) < KeyOf(ById, stations[b])
               || (KeyOf(ById, stations[a]) == KeyOf(ById, stations[b]) && byId[a] < byId[b])
    ensures forall a, b :: 0 <= a < b < |stations| && stations[a].stationId == stations[b].stationId ==>
              Precedes(infos, t, Compose(pos, byId)[a], Compose(pos, byId)[b])
  {
    var c := Compose(pos, byId);
    forall a, b | 0 <= a < b < |stations| && stations[a].stationId == stations[b].stationId
      ensures Precedes(infos, t, c[a], c[b])
    {
      assert KeyOf(ById, stations[a]) == KeyOf(ById, stations[b]);
      assert byId[a] < byId[b];
    }
  }

  /** The sorted list's entries, traced back through both permutations. */
  lemma ServedCompose(infos: seq<StationInfo>, trucks: seq<int>, t: seq<nat>, work: seq<StationInfo>, pos: seq<nat>,
                      stations: seq<StationInfo>, byId: seq<nat>)
    requires ServedEntries(infos, trucks, t, work, pos)
    requires |byId| == |stations|
    requires forall k :: 0 <= k < |stations| ==> byId[k] < |work| && stations[k] == work[byId[k]]
    ensures forall k :: 0 <= k < |stations| ==>
              Compose(pos, byId)[k] < |infos| && stations[k] == Served(infos, trucks, t, Compose(pos, byId)[k])
  {
  }

  /** The truck ids of the pairs, in order, are the routed trucks. */
  lemma TruckIdsQueued(infos: seq<StationInfo>)
    ensures TruckIds(GetTruckAssignments(infos)) == Queued(infos)
  {
  }

  /** Position `k` of the sorted list, traced back to the input. */
  ghost function Compose(pos: seq<nat>, perm: seq<nat>): (r: seq<nat>)
    requires forall k :: 0 <= k < |perm| ==> perm[k] < |pos|
    ensures |r| == |perm| && forall k :: 0 <= k < |perm| ==> r[k] == pos[perm[k]]
  {
    seq(|perm|, k requires 0 <= k < |perm| => pos[perm[k]])
  }

  /** Two permutations composed still reach every station. */
  lemma ComposeCovers(n: nat, pos: seq<nat>, perm: seq<nat>)
    requires forall k :: 0 <= k < |perm| ==> perm[k] < |pos|
    requires forall j :: 0 <= j < n ==> j in pos
    requires forall q :: 0 <= q < |pos| ==> q in perm
    ensures forall j :: 0 <= j < n ==> j in Compose(pos, perm)
  {
    var r := Compose(pos, perm);
    forall j | 0 <= j < n
      ensures j in r
    {
      assert j in pos;
      var q :| 0 <= q < |pos| && pos[q] == j;
      assert q in perm;
      var k :| 0 <= k < |perm| && perm[k] == q;
      assert r[k] == j;
    }
  }

  /** Stations that start a round with no routed trucks contribute none. */
  lemma {:induction false} QueuedNone(infos: seq<StationInfo>)
    requires forall k :: 0 <= k < |infos| ==> infos[k].qTrucks == []
    ensures Queued(infos) == []
    decreases |infos|
  {
    if |infos| > 0 {
      assert forall k :: 0 <= k < |infos[1..]| ==> infos[1..][k] == infos[k + 1];
      QueuedNone(infos[1..]);
    }
  }

  /** Completeness: when no station has routed trucks yet, the result
      keeps every station and the pairs name each input truck exactly as
      often as the input does. */
  method AssignAll(newTrucks: seq<int>, stationInfos: seq<StationInfo>)
    returns (stations: seq<StationInfo>, truckInfos: seq<TruckAssignment>)
    requires |stationInfos| > 0 || |newTrucks| == 0
    requires forall k :: 0 <= k < |stationInfos| ==> stationInfos[k].qTrucks == []
    ensures |stations| == |stationInfos| && |truckInfos| == |newTrucks|
    ensures multiset(TruckIds(truckInfos)) == multiset(newTrucks)
  {
    var unassigned;
    ghost var order;
    unassigned, stations, truckInfos, order := AssignStations(newTrucks, stationInfos);
    QueuedNone(stationInfos);
    assert multiset(Queued(stationInfos)) == multiset{};
    assert |TruckIds(truckInfos)| == |multiset(TruckIds(truckInfos))|;
  }

  /** The round of the unit test: ten stations with ids 1 to 10 and wait
      times 2, 3, 4, 5, 6, 7, 1, 2, 3, 4 take twenty trucks; the result keeps
      the ten stations and names all twenty trucks, each exactly once. */
  method AssignScenario() returns (stations: seq<StationInfo>, truckInfos: seq<TruckAssignment>)
    ensures |stations| == 10 && |truckInfos| == 20
    ensures multiset(TruckIds(truckInfos))
            == multiset([1, 3, 5, 7, 2, 4, 6, 8, 9, 10, 11, 12, 13, 14, 15, 16, 17, 18, 19, 20])
  {
    var infos := [StationInfo(1, 2, []), StationInfo(2, 3, []), StationInfo(3, 4, []), StationInfo(4, 5, []),
                  StationInfo(5, 6, []), StationInfo(6, 7, []), StationInfo(7, 1, []), StationInfo(8, 2, []),
                  StationInfo(9, 3, []), StationInfo(10, 4, [])];
    var trucks := [1, 3, 5, 7, 2, 4, 6, 8, 9, 10, 11, 12, 13, 14, 15, 16, 17, 18, 19, 20];
    stations, truckInfos := AssignAll(trucks, infos);
  }
}
