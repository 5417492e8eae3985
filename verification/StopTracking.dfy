/** The stop detector's state machine for one trip, over any sequence of ticks, positions,
    clock readings and failed writes; and what its readers make of the stop table. */
module StopTracking {
  import opened Domain

  datatype Status = Pending | Arrived | Departed | Missed

  /** A route stop joined with the trip's progress row; `writes` counts the row's updates. */
  datatype Stop = Stop(
    number: int, radius: real, status: Status,
    arrivedAt: Option<int>, departedAt: Option<int>, writes: nat)

  /** The stops are in route order. `log` holds the positions of the stops marked ARRIVED,
      `broadcasts` those announced as such, both oldest first; `clock` is the last time read. */
  datatype Trip = Trip(completed: bool, stops: seq<Stop>, log: seq<nat>, broadcasts: seq<nat>, clock: int)

  /** What one tick meets: no usable position, or for each stop its distance from the vehicle,
      the time read if it is marked, and whether the update took effect (it does not when the
      write fails or the progress row is missing); and the same for completing the trip. */
  datatype Observation =
    | NoPosition
    | Position(dist: seq<real>, now: seq<int>, applied: seq<bool>, completeApplied: bool)

  predicate Reached(st: Stop) {
    st.status.Arrived? || st.status.Departed?
  }

  /** The schema's promise: 1-based stop numbers, here without repetition and in order. */
  ghost predicate Route(stops: seq<Stop>) {
    && (forall i :: 0 <= i < |stops| ==> stops[i].number >= 1)
    && (forall i, j :: 0 <= i < j < |stops| ==> stops[i].number < stops[j].number)
  }

  ghost predicate IsFurthest(stops: seq<Stop>, m: int) {
    && m >= 0
    && (forall i :: 0 <= i < |stops| && Reached(stops[i]) ==> stops[i].number <= m)
    && (m > 0 ==> exists i :: 0 <= i < |stops| && Reached(stops[i]) && stops[i].number == m)
  }

  /** The first pass: the largest number among reached stops, 0 if there is none. */
  function Furthest(stops: seq<Stop>): (m: int)
    ensures IsFurthest(stops, m)
    decreases |stops|
  {
    if stops == [] then 0
    else
      var n := |stops| - 1;
      var m := Furthest(stops[..n]);
      if Reached(stops[n]) && stops[n].number > m then stops[n].number else m
  }

  predicate IsFinal(stops: seq<Stop>, i: nat)
    requires i < |stops|
  {
    forall j :: 0 <= j < |stops| ==> stops[j].number <= stops[i].number
  }

  predicate Arrives(st: Stop, furthest: int, dist: real) {
    st.status.Pending? && st.number >= furthest && dist <= st.radius
  }

  /** What the second pass does to one stop. */
  function Marked(st: Stop, furthest: int, dist: real, now: int, applied: bool): Stop {
    if !applied then st
    else if st.status.Pending? && st.number < furthest then st.(status := Missed, writes := st.writes + 1)
    else if Arrives(st, furthest, dist) then
      st.(status := Arrived, arrivedAt := Some(now), writes := st.writes + 1)
    else if st.status.Arrived? && dist > st.radius then
      st.(status := Departed, departedAt := Some(now), writes := st.writes + 1)
    else st
  }

  /** The positions below n of the stops that arrive and for which `mark` holds. */
  function Arrivals(stops: seq<Stop>, furthest: int, dist: seq<real>, mark: seq<bool>, n: nat): seq<nat>
    requires n <= |stops| == |dist| == |mark|
  {
    if n == 0 then []
    else
      Arrivals(stops, furthest, dist, mark, n - 1)
      + if Arrives(stops[n - 1], furthest, dist[n - 1]) && mark[n - 1] then [n - 1] else []
  }

  predicate FinalArrival(stops: seq<Stop>, furthest: int, dist: seq<real>)
    requires |stops| == |dist|
  {
    exists i {:trigger IsFinal(stops, i)} ::
      0 <= i < |stops| && IsFinal(stops, i) && Arrives(stops[i], furthest, dist[i])
  }

  /** The observation is about this trip's stops and its clock does not run backwards. */
  predicate Fits(t: Trip, o: Observation) {
    o.Position? ==>
      && Covers(o, |t.stops|)
      && (forall i :: 0 <= i < |o.now| ==> t.clock <= o.now[i])
      && (forall i, j :: 0 <= i < j < |o.now| ==> o.now[i] <= o.now[j])
  }

  predicate Covers(o: Observation, n: nat) {
    o.Position? && |o.dist| == |o.now| == |o.applied| == n
  }

  /** The second pass. */
  function MarkedStops(stops: seq<Stop>, m: int, o: Observation): (r: seq<Stop>)
    requires Covers(o, |stops|)
    ensures |r| == |stops|
    ensures forall i :: 0 <= i < |r| ==> r[i] == Marked(stops[i], m, o.dist[i], o.now[i], o.applied[i])
  {
    seq(|stops|, i requires 0 <= i < |stops| => Marked(stops[i], m, o.dist[i], o.now[i], o.applied[i]))
  }

  function Everywhere(n: nat): seq<bool> {
    seq(n, _ => true)
  }

  /** Both passes of `processTrip`, with m the result of the first. */
  function Processed(t: Trip, m: int, o: Observation): Trip
    requires Covers(o, |t.stops|)
  {
    var n := |t.stops|;
    Trip(FinalArrival(t.stops, m, o.dist) && o.completeApplied,
         MarkedStops(t.stops, m, o),
         t.log + Arrivals(t.stops, m, o.dist, o.applied, n),
         t.broadcasts + Arrivals(t.stops, m, o.dist, Everywhere(n), n),
         if n > 0 then o.now[n - 1] else t.clock)
  }

  /** One tick; `loadActiveTrips` no longer selects a completed trip. */
  function Tick(t: Trip, o: Observation): Trip {
    if t.completed || !o.Position? || !Fits(t, o) then t else Processed(t, Furthest(t.stops), o)
  }

  function Run(t: Trip, obs: seq<Observation>): Trip
    decreases |obs|
  {
    if obs == [] then t else Tick(Run(t, obs[..|obs| - 1]), obs[|obs| - 1])
  }

  /** A trip as it is started: every progress row PENDING. */
  ghost predicate Fresh(t: Trip) {
    && !t.completed && t.log == [] && t.broadcasts == [] && Route(t.stops)
    && forall i :: 0 <= i < |t.stops| ==> Untouched(t.stops[i])
  }

  ghost predicate Untouched(st: Stop) {
    st.status.Pending? && st.arrivedAt == None && st.departedAt == None && st.writes == 0
  }

  // ------------------------------------------------------------- order of arrivals

  ghost predicate Increasing(s: seq<nat>) {
    forall i, j :: 0 <= i < j < |s| ==> s[i] < s[j]
  }

  lemma IncreasingConcat(a: seq<nat>, b: seq<nat>)
    requires Increasing(a) && Increasing(b) && forall x, y :: x in a && y in b ==> x < y
    ensures Increasing(a + b)
  {
    forall i, j | 0 <= i < j < |a + b| ensures (a + b)[i] < (a + b)[j] {
      if i < |a| <= j { assert a[i] in a && b[j - |a|] in b; }
    }
  }

  lemma {:induction false} ArrivalsSorted(stops: seq<Stop>, m: int, dist: seq<real>, mark: seq<bool>, n: nat)
    requires n <= |stops| == |dist| == |mark|
    ensures var a := Arrivals(stops, m, dist, mark, n);
            Increasing(a) && forall i: nat :: i in a <==> i < n && Arrives(stops[i], m, dist[i]) && mark[i]
  {
    if n > 0 {
      ArrivalsSorted(stops, m, dist, mark, n - 1);
      var a := Arrivals(stops, m, dist, mark, n - 1);
      IncreasingConcat(a, [n - 1]);
    }
  }

  /** The log lists exactly the reached stops, in route order. */
  ghost predicate LogInv(stops: seq<Stop>, log: seq<nat>) {
    Increasing(log) && forall i: nat :: i in log <==> i < |stops| && Reached(stops[i])
  }

  /** Beyond the furthest reached stop m everything is PENDING; every MISSED stop lies before it. */
  ghost predicate BeyondInv(stops: seq<Stop>, m: int) {
    && (forall i :: 0 <= i < |stops| && stops[i].number > m ==> stops[i].status.Pending?)
    && (forall i :: 0 <= i < |stops| && stops[i].status.Missed? ==> stops[i].number < m)
  }

  ghost predicate OrderInv(t: Trip) {
    Route(t.stops) && LogInv(t.stops, t.log) && BeyondInv(t.stops, Furthest(t.stops))
  }

  lemma MarkReaches(st: Stop, m: int, dist: real, now: int, applied: bool)
    ensures Reached(Marked(st, m, dist, now, applied)) <==> Reached(st) || (Arrives(st, m, dist) && applied)
  {
  }

  /** A stop that arrives lies strictly beyond everything reached before. */
  lemma ArrivalIsBeyond(stops: seq<Stop>, m: int, i: nat, j: nat, dist: real)
    requires Route(stops) && IsFurthest(stops, m)
    requires i < |stops| && Reached(stops[i]) && j < |stops| && Arrives(stops[j], m, dist)
    ensures i < j
  {
  }

  lemma LogGrows(stops: seq<Stop>, m: int, log: seq<nat>, o: Observation)
    requires Route(stops) && IsFurthest(stops, m) && LogInv(stops, log) && Covers(o, |stops|)
    ensures LogInv(MarkedStops(stops, m, o), log + Arrivals(stops, m, o.dist, o.applied, |stops|))
  {
    var a, stops' := Arrivals(stops, m, o.dist, o.applied, |stops|), MarkedStops(stops, m, o);
    ArrivalsSorted(stops, m, o.dist, o.applied, |stops|);
    forall x, y | x in log && y in a ensures x < y { ArrivalIsBeyond(stops, m, x, y, o.dist[y]); }
    IncreasingConcat(log, a);
    forall i: nat ensures i in log + a <==> i < |stops'| && Reached(stops'[i]) {
      if i < |stops| { MarkReaches(stops[i], m, o.dist[i], o.now[i], o.applied[i]); }
    }
  }

  /** One tick never moves the furthest stop back. */
  lemma FurthestAdvances(stops: seq<Stop>, m: int, o: Observation, m': int)
    requires IsFurthest(stops, m) && Covers(o, |stops|) && IsFurthest(MarkedStops(stops, m, o), m')
    ensures m <= m'
  {
    if m > 0 {
      var i :| 0 <= i < |stops| && Reached(stops[i]) && stops[i].number == m;
      assert Reached(MarkedStops(stops, m, o)[i]);
    }
  }

  lemma BeyondAdvances(stops: seq<Stop>, m: int, o: Observation, m': int)
    requires IsFurthest(stops, m) && BeyondInv(stops, m)
             && Covers(o, |stops|) && IsFurthest(MarkedStops(stops, m, o), m')
    ensures BeyondInv(MarkedStops(stops, m, o), m')
  {
    FurthestAdvances(stops, m, o, m');
  }

  lemma RouteStays(stops: seq<Stop>, m: int, o: Observation)
    requires Route(stops) && Covers(o, |stops|)
    ensures Route(MarkedStops(stops, m, o))
  {
    forall i | 0 <= i < |stops| ensures MarkedStops(stops, m, o)[i].number == stops[i].number {}
  }

  lemma ProcessedKeepsOrder(t: Trip, m: int, o: Observation, m': int)
    requires Route(t.stops) && IsFurthest(t.stops, m) && LogInv(t.stops, t.log) && BeyondInv(t.stops, m)
    requires Covers(o, |t.stops|) && IsFurthest(Processed(t, m, o).stops, m')
    ensures var t' := Processed(t, m, o); Route(t'.stops) && LogInv(t'.stops, t'.log) && BeyondInv(t'.stops, m')
  {
    RouteStays(t.stops, m, o);
    LogGrows(t.stops, m, t.log, o);
    BeyondAdvances(t.stops, m, o, m');
  }

  lemma TickKeepsOrder(t: Trip, o: Observation)
    requires OrderInv(t)
    ensures OrderInv(Tick(t, o))
  {
    if !t.completed && o.Position? && Fits(t, o) {
      ProcessedKeepsOrder(t, Furthest(t.stops), o, Furthest(Tick(t, o).stops));
    }
  }

  lemma {:induction false} RunKeepsOrder(t: Trip, obs: seq<Observation>)
    requires OrderInv(t)
    ensures OrderInv(Run(t, obs))
    decreases |obs|
  {
    if obs != [] {
      RunKeepsOrder(t, obs[..|obs| - 1]);
      TickKeepsOrder(Run(t, obs[..|obs| - 1]), obs[|obs| - 1]);
    }
  }

  /** Over any run, whatever positions are seen and whichever writes fail: arrivals are recorded
      in strictly increasing stop order, every stop beyond the furthest reached is PENDING, and
      every MISSED stop has a later reached one. */
  lemma ArrivalsInOrder(t: Trip, obs: seq<Observation>)
    requires Fresh(t)
    ensures OrderInv(Run(t, obs))
    ensures var t' := Run(t, obs);
            && (forall k :: 0 <= k < |t'.log| ==> t'.log[k] < |t'.stops|)
            && (forall k, l :: 0 <= k < l < |t'.log| ==> t'.stops[t'.log[k]].number < t'.stops[t'.log[l]].number)
            && (forall i :: 0 <= i < |t'.stops| && t'.stops[i].status.Missed? ==>
                  exists j :: i < j < |t'.stops| && Reached(t'.stops[j]))
  {
    RunKeepsOrder(t, obs);
    OrderMeans(Run(t, obs));
  }

  lemma OrderMeans(t: Trip)
    requires OrderInv(t)
    ensures forall k :: 0 <= k < |t.log| ==> t.log[k] < |t.stops|
    ensures forall k, l :: 0 <= k < l < |t.log| ==> t.stops[t.log[k]].number < t.stops[t.log[l]].number
    ensures forall i :: 0 <= i < |t.stops| && t.stops[i].status.Missed? ==>
              exists j :: i < j < |t.stops| && Reached(t.stops[j])
  {
    forall k | 0 <= k < |t.log| ensures t.log[k] < |t.stops| { assert t.log[k] in t.log; }
    forall i | 0 <= i < |t.stops| && t.stops[i].status.Missed?
      ensures exists j :: i < j < |t.stops| && Reached(t.stops[j]) {
      var j :| 0 <= j < |t.stops| && Reached(t.stops[j]) && t.stops[j].number == Furthest(t.stops);
      assert i < j;
    }
  }

  // ------------------------------------------------ what the order rests on

  /** A trip as it is started, its stops sorted by a number that is at least 1. The query sorts;
      that no number repeats is nowhere enforced. */
  ghost predicate Started(t: Trip) {
    && !t.completed && t.log == [] && t.broadcasts == []
    && (forall i :: 0 <= i < |t.stops| ==> t.stops[i].number >= 1 && Untouched(t.stops[i]))
    && (forall i, j :: 0 <= i < j < |t.stops| ==> t.stops[i].number <= t.stops[j].number)
  }

  ghost predicate DistinctNumbers(stops: seq<Stop>) {
    forall i, j :: 0 <= i < j < |stops| ==> stops[i].number != stops[j].number
  }

  /** Arrivals were logged in strictly increasing stop number. */
  ghost predicate Rising(t: Trip) {
    && (forall k :: 0 <= k < |t.log| ==> t.log[k] < |t.stops|)
    && (forall k, l :: 0 <= k < l < |t.log| ==> t.stops[t.log[k]].number < t.stops[t.log[l]].number)
  }

  /** The tick of a vehicle that is at every stop at once, with every write applied. */
  function Everything(t: Trip): Observation {
    var n := |t.stops|;
    Position(seq(n, i requires 0 <= i < n => t.stops[i].radius), seq(n, _ => t.clock), Everywhere(n), true)
  }

  lemma EverythingArrives(t: Trip)
    requires Started(t)
    ensures var t' := Run(t, [Everything(t)]);
            && |t'.stops| == |t.stops| && Increasing(t'.log) && (forall i: nat :: i in t'.log <==> i < |t.stops|)
            && forall i :: 0 <= i < |t.stops| ==> t'.stops[i].number == t.stops[i].number
  {
    var o, n := Everything(t), |t.stops|;
    var m := Furthest(t.stops);
    assert m == 0;
    assert [o][..0] == [] && Run(t, [o]) == Tick(t, o);
    assert Fits(t, o) && Tick(t, o) == Processed(t, m, o);
    ArrivalsSorted(t.stops, m, o.dist, o.applied, n);
    assert t.log + Arrivals(t.stops, m, o.dist, o.applied, n) == Arrivals(t.stops, m, o.dist, o.applied, n);
  }

  lemma RepeatedNumberFalls(t: Trip, i: nat, j: nat)
    requires Started(t) && i < j < |t.stops| && t.stops[i].number == t.stops[j].number
    ensures !Rising(Run(t, [Everything(t)]))
  {
    var t' := Run(t, [Everything(t)]);
    EverythingArrives(t);
    assert i in t'.log && j in t'.log;
    var k :| 0 <= k < |t'.log| && t'.log[k] == i;
    var l :| 0 <= l < |t'.log| && t'.log[l] == j;
    assert k < l;
  }

  /** Exactly when: every run of a started trip logs its arrivals in strictly increasing stop
      number if and only if no stop number repeats. */
  lemma RisingExactly(t: Trip)
    requires Started(t)
    ensures (forall obs :: Rising(Run(t, obs))) <==> DistinctNumbers(t.stops)
  {
    if DistinctNumbers(t.stops) {
      assert Fresh(t);
      forall obs ensures Rising(Run(t, obs)) { ArrivalsInOrder(t, obs); }
    } else {
      var i, j :| 0 <= i < j < |t.stops| && t.stops[i].number == t.stops[j].number;
      RepeatedNumberFalls(t, i, j);
    }
  }

  ghost predicate AllApplied(o: Observation) {
    o.Position? ==> forall i :: 0 <= i < |o.applied| ==> o.applied[i]
  }

  lemma {:induction false} SameArrivals(stops: seq<Stop>, m: int, dist: seq<real>, a: seq<bool>, b: seq<bool>, n: nat)
    requires n <= |stops| == |dist| == |a| == |b| && forall i :: 0 <= i < n ==> a[i] == b[i]
    ensures Arrivals(stops, m, dist, a, n) == Arrivals(stops, m, dist, b, n)
  {
    if n > 0 { SameArrivals(stops, m, dist, a, b, n - 1); }
  }

  /** An arrival is announced whether or not its mark took effect: a tick announces exactly the
      PENDING stops at or beyond the furthest reached one that are within their radius. */
  lemma AnnouncesExactly(t: Trip, o: Observation)
    requires !t.completed && o.Position? && Fits(t, o)
    ensures var t', m := Tick(t, o), Furthest(t.stops);
            && t.broadcasts <= t'.broadcasts
            && forall i: nat :: i in t'.broadcasts[|t.broadcasts|..] <==>
                 i < |t.stops| && t.stops[i].status.Pending? && t.stops[i].number >= m && o.dist[i] <= t.stops[i].radius
  {
    var n := |t.stops|;
    ArrivalsSorted(t.stops, Furthest(t.stops), o.dist, Everywhere(n), n);
    assert Tick(t, o).broadcasts[|t.broadcasts|..] == Arrivals(t.stops, Furthest(t.stops), o.dist, Everywhere(n), n);
  }

  /** A completed trip, or a tick without a position, leaves everything as it is. */
  lemma IdleTick(t: Trip, o: Observation)
    requires t.completed || o.NoPosition?
    ensures Tick(t, o) == t
  {
  }

  /** With every row present and every write successful, each arrival is announced exactly once. */
  lemma {:induction false} AnnouncedOnce(t: Trip, obs: seq<Observation>)
    requires Fresh(t) && forall k :: 0 <= k < |obs| ==> AllApplied(obs[k])
    ensures Run(t, obs).broadcasts == Run(t, obs).log
    decreases |obs|
  {
    if obs != [] {
      var n := |obs| - 1;
      var t', o := Run(t, obs[..n]), obs[n];
      AnnouncedOnce(t, obs[..n]);
      if o.Position? && Fits(t', o) {
        SameArrivals(t'.stops, Furthest(t'.stops), o.dist, o.applied, Everywhere(|t'.stops|), |t'.stops|);
      }
    }
  }

  // -------------------------------------------------- times, writes and completion

  /** A stop's row tells its own story: how often it was written, and when. */
  ghost predicate RowOk(st: Stop, clock: int) {
    && st.writes == (match st.status case Pending => 0 case Departed => 2 case _ => 1)
    && (st.arrivedAt.Some? <==> Reached(st)) && (st.departedAt.Some? <==> st.status.Departed?)
    && (st.arrivedAt.Some? ==> st.arrivedAt.value <= clock)
    && (st.departedAt.Some? ==> st.arrivedAt.value <= st.departedAt.value <= clock)
  }

  ghost predicate RowsOk(t: Trip) {
    forall i :: 0 <= i < |t.stops| ==> RowOk(t.stops[i], t.clock)
  }

  lemma MarkKeepsRow(st: Stop, m: int, dist: real, now: int, applied: bool, clock: int, clock': int)
    requires RowOk(st, clock) && clock <= now <= clock'
    ensures RowOk(Marked(st, m, dist, now, applied), clock')
  {
  }

  lemma TickKeepsRows(t: Trip, o: Observation)
    requires RowsOk(t)
    ensures RowsOk(Tick(t, o)) && |Tick(t, o).stops| == |t.stops|
  {
    if !t.completed && o.Position? && Fits(t, o) {
      var t' := Tick(t, o);
      forall i | 0 <= i < |t'.stops| ensures RowOk(t'.stops[i], t'.clock) {
        MarkKeepsRow(t.stops[i], Furthest(t.stops), o.dist[i], o.now[i], o.applied[i], t.clock, t'.clock);
      }
    }
  }

  lemma TickOnlyAdds(t: Trip, o: Observation, i: nat)
    requires RowsOk(t) && i < |t.stops|
    ensures |Tick(t, o).stops| == |t.stops|
    ensures t.stops[i].arrivedAt.Some? ==> Tick(t, o).stops[i].arrivedAt == t.stops[i].arrivedAt
    ensures Reached(t.stops[i]) ==> Reached(Tick(t, o).stops[i])
  {
  }

  /** The number shown as stops_completed. */
  function StopsCompleted(stops: seq<Stop>): nat
    decreases |stops|
  {
    if stops == [] then 0
    else
      var n := |stops| - 1;
      StopsCompleted(stops[..n]) + if Reached(stops[n]) then 1 else 0
  }

  function ReachedPositions(stops: seq<Stop>): set<int> {
    set i | 0 <= i < |stops| && (stops[i].status.Arrived? || stops[i].status.Departed?)
  }

  /** It is how many stops are ARRIVED or DEPARTED. */
  lemma {:induction false} CountIsCardinality(stops: seq<Stop>)
    ensures StopsCompleted(stops) == |ReachedPositions(stops)|
    decreases |stops|
  {
    if stops != [] {
      var n := |stops| - 1;
      CountIsCardinality(stops[..n]);
      assert ReachedPositions(stops) == ReachedPositions(stops[..n]) + if Reached(stops[n]) then {n} else {};
    }
  }

  lemma {:induction false} CountGrows(a: seq<Stop>, b: seq<Stop>)
    requires |a| == |b| && forall i :: 0 <= i < |a| && Reached(a[i]) ==> Reached(b[i])
    ensures StopsCompleted(a) <= StopsCompleted(b)
    decreases |a|
  {
    if a != [] { CountGrows(a[..|a| - 1], b[..|b| - 1]); }
  }

  lemma {:induction false} RunKeepsRows(t: Trip, obs: seq<Observation>)
    requires RowsOk(t)
    ensures RowsOk(Run(t, obs)) && |Run(t, obs).stops| == |t.stops|
    decreases |obs|
  {
    if obs != [] {
      RunKeepsRows(t, obs[..|obs| - 1]);
      TickKeepsRows(Run(t, obs[..|obs| - 1]), obs[|obs| - 1]);
    }
  }

  /** Over any run each stop's row is written at most twice, its arrival time is set once and
      not after its departure time, and stops_completed never decreases from tick to tick. */
  lemma RowsTellOneStory(t: Trip, obs: seq<Observation>, o: Observation, i: nat)
    requires Fresh(t) && i < |t.stops|
    ensures var t1, t2 := Run(t, obs), Tick(Run(t, obs), o);
            && |t1.stops| == |t2.stops| == |t.stops|
            && t2.stops[i].writes <= 2
            && (t1.stops[i].arrivedAt.Some? ==> t2.stops[i].arrivedAt == t1.stops[i].arrivedAt)
            && (t2.stops[i].departedAt.Some? ==>
                  t2.stops[i].arrivedAt.Some? && t2.stops[i].arrivedAt.value <= t2.stops[i].departedAt.value)
            && StopsCompleted(t1.stops) <= StopsCompleted(t2.stops)
  {
    RunKeepsRows(t, obs);
    TickKeepsRows(Run(t, obs), o);
    forall k | 0 <= k < |t.stops| && Reached(Run(t, obs).stops[k]) ensures Reached(Tick(Run(t, obs), o).stops[k]) {
      TickOnlyAdds(Run(t, obs), o, k);
    }
    TickOnlyAdds(Run(t, obs), o, i);
    CountGrows(Run(t, obs).stops, Tick(Run(t, obs), o).stops);
  }

  /** With a furthest stop m, a tick newly reaches exactly the PENDING stops beyond m that are
      within their radius and whose update takes effect; an ARRIVED stop departs exactly when
      it is out of its radius and the update takes effect. */
  lemma TickReachesExactly(t: Trip, o: Observation, i: nat)
    requires OrderInv(t) && !t.completed && o.Position? && Fits(t, o) && i < |t.stops|
    ensures var st, st', m := t.stops[i], Tick(t, o).stops[i], Furthest(t.stops);
            && ((!Reached(st) && Reached(st')) <==>
                  st.status.Pending? && st.number > m && o.dist[i] <= st.radius && o.applied[i])
            && (!Reached(st) && Reached(st') ==> st'.status.Arrived? && st'.arrivedAt == Some(o.now[i]))
            && (st.status.Arrived? ==> (st'.status.Departed? <==> o.dist[i] > st.radius && o.applied[i]))
            && (st.status.Pending? ==> (st'.status.Missed? <==> st.number < m && o.applied[i]))
            && (st.status.Arrived? && st'.status.Departed? ==> st'.departedAt == Some(o.now[i]))
            && (!(st.status.Arrived? && st'.status.Departed?) ==> st'.departedAt == st.departedAt)
            && (Reached(st) || !Reached(st') ==> st'.arrivedAt == st.arrivedAt)
            && st'.number == st.number && st'.radius == st.radius
            && st'.writes == st.writes + (if st'.status == st.status then 0 else 1)
            && (st.status.Departed? || st.status.Missed? ==> st' == st)
  {
    var m := Furthest(t.stops);
    MarkReaches(t.stops[i], m, o.dist[i], o.now[i], o.applied[i]);
  }

  /** The trip is COMPLETED exactly when its final stop is ARRIVED, and the final stop is never
      MISSED or DEPARTED. */
  ghost predicate CompletionInv(t: Trip) {
    if t.stops == [] then !t.completed
    else
      var last := t.stops[|t.stops| - 1];
      (t.completed <==> last.status.Arrived?) && (last.status.Arrived? || last.status.Pending?)
  }

  /** When the final stop arrives, its mark and the trip's completion take effect both or neither. */
  ghost predicate Agrees(t: Trip, o: Observation) {
    !t.completed && o.Position? && Fits(t, o) && FinalArrival(t.stops, Furthest(t.stops), o.dist) ==>
      o.applied[|t.stops| - 1] == o.completeApplied
  }

  lemma FinalIsLast(stops: seq<Stop>, m: int, dist: seq<real>)
    requires Route(stops) && stops != [] && |dist| == |stops|
    ensures var n := |stops| - 1; FinalArrival(stops, m, dist) <==> Arrives(stops[n], m, dist[n])
  {
    var n := |stops| - 1;
    assert IsFinal(stops, n);
    forall i | 0 <= i < |stops| && IsFinal(stops, i) ensures i == n { assert stops[n].number <= stops[i].number; }
  }

  /** A tick keeps completion and the final stop in step if and only if the two writes agree. */
  lemma CompletionExact(t: Trip, o: Observation)
    requires OrderInv(t) && CompletionInv(t)
    ensures CompletionInv(Tick(t, o)) <==> Agrees(t, o)
  {
    if !t.completed && o.Position? && Fits(t, o) && t.stops != [] {
      var n, m := |t.stops| - 1, Furthest(t.stops);
      FinalIsLast(t.stops, m, o.dist);
      TickReachesExactly(t, o, n);
    }
  }

  ghost predicate AgreeingRun(t: Trip, obs: seq<Observation>) {
    forall k :: 0 <= k < |obs| ==> Agrees(Run(t, obs[..k]), obs[k])
  }

  lemma AgreeingPrefix(t: Trip, obs: seq<Observation>, n: nat)
    requires AgreeingRun(t, obs) && n <= |obs|
    ensures AgreeingRun(t, obs[..n])
  {
    forall k | 0 <= k < n ensures Agrees(Run(t, obs[..n][..k]), obs[..n][k]) { assert obs[..n][..k] == obs[..k]; }
  }

  lemma LastAgrees(t: Trip, obs: seq<Observation>)
    requires AgreeingRun(t, obs) && obs != []
    ensures Agrees(Run(t, obs[..|obs| - 1]), obs[|obs| - 1])
  {
  }

  lemma FreshOrder(t: Trip)
    requires Fresh(t)
    ensures OrderInv(t) && CompletionInv(t)
  {
  }

  /** Over any run in which they agree, in particular with all writes successful and all rows
      present, a trip is COMPLETED exactly when its final stop is ARRIVED. */
  lemma {:induction false} CompletedIffFinalArrived(t: Trip, obs: seq<Observation>)
    requires Fresh(t) && AgreeingRun(t, obs)
    ensures CompletionInv(Run(t, obs))
    decreases |obs|
  {
    if obs != [] {
      var n := |obs| - 1;
      AgreeingPrefix(t, obs, n);
      CompletedIffFinalArrived(t, obs[..n]);
      FreshOrder(t);
      RunKeepsOrder(t, obs[..n]);
      LastAgrees(t, obs);
      CompletionExact(Run(t, obs[..n]), obs[n]);
    } else {
      FreshOrder(t);
    }
  }

  /** The final stop arrives and is marked, but the completion does not take effect. */
  lemma ArrivesUncompleted(t: Trip, m: int, o: Observation)
    requires Route(t.stops) && t.stops != [] && Covers(o, |t.stops|) && FinalArrival(t.stops, m, o.dist)
    requires o.applied[|t.stops| - 1] && !o.completeApplied
    ensures var t', n := Processed(t, m, o), |t.stops| - 1;
            !t'.completed && |t'.stops| == n + 1 && t'.stops[n].status.Arrived?
            && t'.stops[n].radius == t.stops[n].radius
  {
    FinalIsLast(t.stops, m, o.dist);
  }

  /** An ARRIVED final stop is departed from like any other, and completes nothing. */
  lemma FinalDeparts(t: Trip, m: int, o: Observation)
    requires Route(t.stops) && t.stops != [] && Covers(o, |t.stops|)
    requires var n := |t.stops| - 1; t.stops[n].status.Arrived? && o.applied[n] && o.dist[n] > t.stops[n].radius
    ensures var t', n := Processed(t, m, o), |t.stops| - 1;
            !t'.completed && |t'.stops| == n + 1 && t'.stops[n].status.Departed?
  {
    FinalIsLast(t.stops, m, o.dist);
  }

  /** A failed completion is never made up for: the final stop is ARRIVED while the trip stays
      in progress, and driving on marks the final stop DEPARTED. */
  lemma LostCompletion(t: Trip, o1: Observation, o2: Observation)
    requires Route(t.stops) && !t.completed && t.stops != []
    requires o1.Position? && Fits(t, o1) && FinalArrival(t.stops, Furthest(t.stops), o1.dist)
    requires o1.applied[|t.stops| - 1] && !o1.completeApplied
    requires o2.Position? && Fits(Tick(t, o1), o2)
    requires var n := |t.stops| - 1; o2.applied[n] && o2.dist[n] > t.stops[n].radius
    ensures var t2 := Tick(Tick(t, o1), o2); !t2.completed && t2.stops[|t.stops| - 1].status.Departed?
  {
    var t1 := Tick(t, o1);
    RouteStays(t.stops, Furthest(t.stops), o1);
    ArrivesUncompleted(t, Furthest(t.stops), o1);
    FinalDeparts(t1, Furthest(t1.stops), o2);
  }

  // ------------------------------------------------------------- readers of the table

  /** The PENDING stops are exactly those beyond the furthest reached one. */
  ghost predicate Clear(stops: seq<Stop>) {
    forall i :: 0 <= i < |stops| ==> (stops[i].status.Pending? <==> stops[i].number > Furthest(stops))
  }

  /** What is left PENDING by a tick that records no arrival. */
  lemma QuietPending(t: Trip, m: int, o: Observation, i: nat)
    requires Covers(o, |t.stops|) && i < |t.stops| && LogInv(t.stops, t.log)
    requires var t' := Processed(t, m, o); LogInv(t'.stops, t'.log) && t'.log == t.log
    ensures Processed(t, m, o).stops[i].status.Pending?
            <==> t.stops[i].status.Pending? && (t.stops[i].number >= m || !o.applied[i])
  {
    assert Reached(Processed(t, m, o).stops[i]) <==> i in t.log;
    assert Reached(t.stops[i]) <==> i in t.log;
    MarkReaches(t.stops[i], m, o.dist[i], o.now[i], o.applied[i]);
  }

  lemma PendingNotFurthest(stops: seq<Stop>, m: int, i: nat)
    requires Route(stops) && IsFurthest(stops, m) && BeyondInv(stops, m) && i < |stops|
    ensures stops[i].number > m ==> stops[i].status.Pending?
    ensures stops[i].status.Pending? ==> stops[i].number != m
  {
  }

  /** The same with m for the furthest stop before and m' after. */
  lemma QuietClears(t: Trip, m: int, o: Observation, m': int)
    requires Route(t.stops) && IsFurthest(t.stops, m) && LogInv(t.stops, t.log) && BeyondInv(t.stops, m)
    requires Covers(o, |t.stops|) && m' == Furthest(Processed(t, m, o).stops) && Processed(t, m, o).log == t.log
    ensures Clear(Processed(t, m, o).stops) <==>
            forall i :: 0 <= i < |t.stops| && t.stops[i].status.Pending? && t.stops[i].number < m ==> o.applied[i]
  {
    var t' := Processed(t, m, o);
    ProcessedKeepsOrder(t, m, o, m');
    QuietKeepsFurthest(t, m, t', m');
    forall i | 0 <= i < |t.stops|
      ensures t'.stops[i].number == t.stops[i].number
      ensures t'.stops[i].status.Pending? <==> t.stops[i].status.Pending? && (t.stops[i].number > m || !o.applied[i])
      ensures t.stops[i].number > m ==> t.stops[i].status.Pending?
      ensures t.stops[i].status.Pending? ==> t.stops[i].number != m
    {
      QuietPending(t, m, o, i);
      PendingNotFurthest(t.stops, m, i);
    }
    ClearMeans(t.stops, t'.stops, o.applied, m);
  }

  /** After a positioned tick without a new arrival this holds if and only if every skipped
      stop's mark took effect. */
  lemma QuietTickClears(t: Trip, o: Observation)
    requires OrderInv(t) && !t.completed && o.Position? && Fits(t, o)
    requires Tick(t, o).log == t.log
    ensures Clear(Tick(t, o).stops) <==>
            forall i :: 0 <= i < |t.stops| && t.stops[i].status.Pending? && t.stops[i].number < Furthest(t.stops) ==>
              o.applied[i]
  {
    QuietClears(t, Furthest(t.stops), o, Furthest(Tick(t, o).stops));
  }

  lemma ClearMeans(stops: seq<Stop>, stops': seq<Stop>, applied: seq<bool>, m: int)
    requires |stops'| == |stops| == |applied| && Furthest(stops') == m
    requires forall i :: 0 <= i < |stops| ==>
               && stops'[i].number == stops[i].number
               && (stops'[i].status.Pending? <==> stops[i].status.Pending? && (stops[i].number > m || !applied[i]))
               && (stops[i].number > m ==> stops[i].status.Pending?)
               && (stops[i].status.Pending? ==> stops[i].number != m)
    ensures Clear(stops') <==>
            forall i :: 0 <= i < |stops| && stops[i].status.Pending? && stops[i].number < m ==> applied[i]
  {
  }

  lemma QuietKeepsFurthest(t: Trip, m: int, t': Trip, m': int)
    requires IsFurthest(t.stops, m) && IsFurthest(t'.stops, m')
    requires LogInv(t.stops, t.log) && LogInv(t'.stops, t'.log) && t'.log == t.log && |t'.stops| == |t.stops|
    requires forall i :: 0 <= i < |t.stops| ==> t'.stops[i].number == t.stops[i].number
    ensures m' == m
  {
    forall i | 0 <= i < |t.stops| ensures Reached(t.stops[i]) <==> Reached(t'.stops[i]) {
      assert Reached(t.stops[i]) <==> i in t.log;
      assert Reached(t'.stops[i]) <==> i in t'.log;
    }
    SameFurthest(t.stops, m, t'.stops, m');
  }

  lemma SameFurthest(a: seq<Stop>, m: int, b: seq<Stop>, n: int)
    requires |a| == |b| && IsFurthest(a, m) && IsFurthest(b, n)
    requires forall i :: 0 <= i < |a| ==> a[i].number == b[i].number && (Reached(a[i]) <==> Reached(b[i]))
    ensures m == n
  {
  }
}
