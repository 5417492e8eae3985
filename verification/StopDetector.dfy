/** The stop detector's tick and the ETA estimator's selection of the next stop, as loops over
    the rows they read. */
module StopDetector {
  import opened Domain
  import opened StopTracking

  class TripRecord {
    var completed: bool
    var stops: seq<Stop>
    var log: seq<nat>
    var broadcasts: seq<nat>
    var clock: int

    ghost function View(): Trip
      reads this
    {
      Trip(completed, stops, log, broadcasts, clock)
    }

    /** UPDATE ... SET status = $1, arrived_at = COALESCE($2, arrived_at), ... */
    method MarkStop(i: nat, status: Status, arrivedAt: Option<int>, departedAt: Option<int>, applied: bool)
      requires i < |stops|
      modifies this`stops
      ensures !applied ==> stops == old(stops)
      ensures applied ==> stops == old(stops)[i := old(stops)[i].(
                status := status, writes := old(stops)[i].writes + 1,
                arrivedAt := if arrivedAt.Some? then arrivedAt else old(stops)[i].arrivedAt,
                departedAt := if departedAt.Some? then departedAt else old(stops)[i].departedAt)]
    {
      if applied {
        var st := stops[i];
        stops := stops[i := st.(status := status, writes := st.writes + 1,
                                arrivedAt := if arrivedAt.Some? then arrivedAt else st.arrivedAt,
                                departedAt := if departedAt.Some? then departedAt else st.departedAt)];
      }
    }

    /** The first loop of `processTrip`. */
    method MaxArrived() returns (max: int)
      ensures max == Furthest(stops)
    {
      max := 0;
      for i := 0 to |stops|
        invariant max == Furthest(stops[..i])
      {
        assert stops[..i + 1][..i] == stops[..i];
        if Reached(stops[i]) && stops[i].number > max {
          max := stops[i].number;
        }
      }
      assert stops[..|stops|] == stops;
    }

    /** One round of the second loop, on the row as it was read. */
    method VisitStop(i: nat, st: Stop, isFinal: bool, max: int, dist: real,
                     at: int, applied: bool, completeApplied: bool)
      requires i < |stops| && stops[i] == st
      modifies this
      ensures View() == Visit(old(View()), i, isFinal, max, dist, at, applied, completeApplied)
    {
      match st.status {
        case Pending =>
          if st.number < max {
            MarkStop(i, Missed, None, None, applied);
          } else if dist <= st.radius {
            MarkStop(i, Arrived, Some(at), None, applied);
            if applied { log := log + [i]; }
            broadcasts := broadcasts + [i];
            if isFinal && completeApplied {
              completed := true;
            }
          }
        case Arrived =>
          if dist > st.radius {
            MarkStop(i, Departed, None, Some(at), applied);
          }
        case _ =>
      }
      clock := at;
    }

    /** The second loop of `processTrip`, over the rows as they were read. */
    method VisitAll(max: int, o: Observation)
      requires Covers(o, |stops|) && !completed
      modifies this
      ensures View() == Processed(old(View()), max, o)
    {
      ghost var t := View();
      var rows := stops;
      for i := 0 to |rows|
        invariant Visited(t, View(), i, max, o)
      {
        VisitedNext(t, View(), i, max, o);
        VisitStop(i, rows[i], IsFinal(rows, i), max, o.dist[i], o.now[i], o.applied[i], o.completeApplied);
      }
      VisitedAll(t, View(), max, o);
    }

    /** `processTrip` on one tick's observation. */
    method ProcessTrip(o: Observation)
      requires Fits(View(), o)
      modifies this
      ensures View() == Tick(old(View()), o)
    {
      if completed || !o.Position? {
        return;
      }
      var max := MaxArrived();
      VisitAll(max, o);
    }
  }

  /** The trip after one round of the second loop. */
  ghost function Visit(t: Trip, i: nat, isFinal: bool, max: int, dist: real, at: int,
                       applied: bool, completeApplied: bool): Trip
    requires i < |t.stops|
  {
    var st := t.stops[i];
    var arrives := Arrives(st, max, dist);
    Trip(t.completed || (arrives && isFinal && completeApplied),
         t.stops[i := Marked(st, max, dist, at, applied)],
         t.log + if arrives && applied then [i] else [],
         t.broadcasts + if arrives then [i] else [],
         at)
  }

  ghost predicate FinalAmong(rows: seq<Stop>, max: int, dist: seq<real>, n: nat)
    requires n <= |rows| == |dist|
  {
    exists k {:trigger IsFinal(rows, k)} :: 0 <= k < n && IsFinal(rows, k) && Arrives(rows[k], max, dist[k])
  }

  lemma FinalStep(rows: seq<Stop>, max: int, dist: seq<real>, n: nat)
    requires n < |rows| == |dist|
    ensures FinalAmong(rows, max, dist, n + 1)
            <==> FinalAmong(rows, max, dist, n) || (IsFinal(rows, n) && Arrives(rows[n], max, dist[n]))
  {
  }

  /** The first n rows have been visited, the others are as they were read. */
  ghost predicate PartlyMarked(rows: seq<Stop>, now: seq<Stop>, n: nat, max: int, o: Observation)
    requires Covers(o, |rows|)
  {
    && |now| == |rows|
    && forall k :: 0 <= k < |rows| ==>
         now[k] == if k < n then Marked(rows[k], max, o.dist[k], o.now[k], o.applied[k]) else rows[k]
  }

  /** From trip t, the second loop has come as far as t' after n rounds. */
  ghost predicate Visited(t: Trip, t': Trip, n: nat, max: int, o: Observation)
    requires Covers(o, |t.stops|)
  {
    && n <= |t.stops| && PartlyMarked(t.stops, t'.stops, n, max, o)
    && t'.log == t.log + Arrivals(t.stops, max, o.dist, o.applied, n)
    && t'.broadcasts == t.broadcasts + Arrivals(t.stops, max, o.dist, Everywhere(|t.stops|), n)
    && (t'.completed <==> FinalAmong(t.stops, max, o.dist, n) && o.completeApplied)
    && t'.clock == if n > 0 then o.now[n - 1] else t.clock
  }

  lemma VisitedNext(t: Trip, t': Trip, n: nat, max: int, o: Observation)
    requires Covers(o, |t.stops|) && n < |t.stops| && Visited(t, t', n, max, o)
    ensures n < |t'.stops| && t'.stops[n] == t.stops[n]
    ensures Visited(t, Visit(t', n, IsFinal(t.stops, n), max, o.dist[n], o.now[n], o.applied[n], o.completeApplied),
                    n + 1, max, o)
  {
    FinalStep(t.stops, max, o.dist, n);
    assert Everywhere(|t.stops|)[n];
  }

  lemma VisitedAll(t: Trip, t': Trip, max: int, o: Observation)
    requires Covers(o, |t.stops|) && Visited(t, t', |t.stops|, max, o)
    ensures t' == Processed(t, max, o)
  {
    AllMarked(t.stops, t'.stops, max, o);
  }

  lemma AllMarked(rows: seq<Stop>, now: seq<Stop>, max: int, o: Observation)
    requires Covers(o, |rows|) && PartlyMarked(rows, now, |rows|, max, o)
    ensures now == MarkedStops(rows, max, o)
    ensures FinalAmong(rows, max, o.dist, |rows|) == FinalArrival(rows, max, o.dist)
  {
  }

  // -------------------------------------------------------------------- ETA targets

  /** A row of the estimator's query: a trip in progress and the position of a PENDING stop. */
  datatype Row = Row(tripId: string, stop: nat)
  datatype Active = Active(id: string, trip: Trip)

  function PendingRows(id: string, stops: seq<Stop>, n: nat): seq<Row>
    requires n <= |stops|
  {
    if n == 0 then []
    else PendingRows(id, stops, n - 1) + if stops[n - 1].status.Pending? then [Row(id, n - 1)] else []
  }

  /** The query: trips in progress, each with its PENDING stops in stop order. */
  function Query(trips: seq<Active>): seq<Row>
    decreases |trips|
  {
    if trips == [] then []
    else
      var a := trips[|trips| - 1];
      Query(trips[..|trips| - 1])
      + if a.trip.completed then [] else PendingRows(a.id, a.trip.stops, |a.trip.stops|)
  }

  /** The stop of the first row about this trip. */
  function FirstStop(rows: seq<Row>, id: string): Option<nat> {
    if rows == [] then None
    else if rows[0].tripId == id then Some(rows[0].stop)
    else FirstStop(rows[1..], id)
  }

  lemma {:induction false} FirstStopConcat(a: seq<Row>, b: seq<Row>, id: string)
    ensures FirstStop(a + b, id) == if FirstStop(a, id).Some? then FirstStop(a, id) else FirstStop(b, id)
    decreases a
  {
    if a == [] {
      assert a + b == b;
    } else {
      FirstStopConcat(a[1..], b, id);
      assert (a + b)[1..] == a[1..] + b;
    }
  }

  lemma FirstStopSnoc(rows: seq<Row>, i: nat, id: string)
    requires i < |rows|
    ensures FirstStop(rows[..i + 1], id)
            == if FirstStop(rows[..i], id).Some? then FirstStop(rows[..i], id)
               else if rows[i].tripId == id then Some(rows[i].stop) else None
  {
    assert rows[..i + 1] == rows[..i] + [rows[i]];
    FirstStopConcat(rows[..i], [rows[i]], id);
  }

  function Lookup(next: map<string, nat>, id: string): Option<nat> {
    if id in next then Some(next[id]) else None
  }

  /** The estimator's loop: the first row of each trip wins. */
  method NextStops(rows: seq<Row>) returns (next: map<string, nat>)
    ensures forall id :: Lookup(next, id) == FirstStop(rows, id)
  {
    next := map[];
    for i := 0 to |rows|
      invariant forall id :: Lookup(next, id) == FirstStop(rows[..i], id)
    {
      ghost var before := next;
      if rows[i].tripId !in next {
        next := next[rows[i].tripId := rows[i].stop];
      }
      forall id ensures Lookup(next, id) == FirstStop(rows[..i + 1], id) {
        FirstStopSnoc(rows, i, id);
        assert Lookup(before, id) == FirstStop(rows[..i], id);
      }
    }
    assert rows[..|rows|] == rows;
  }

  ghost predicate IsFirstPending(stops: seq<Stop>, n: nat, r: Option<nat>)
    requires n <= |stops|
  {
    match r
    case None => forall i :: 0 <= i < n ==> !stops[i].status.Pending?
    case Some(k) => k < n && stops[k].status.Pending? && forall i :: 0 <= i < k ==> !stops[i].status.Pending?
  }

  lemma {:induction false} FirstOfTrip(id: string, stops: seq<Stop>, n: nat, other: string)
    requires n <= |stops|
    ensures IsFirstPending(stops, n, FirstStop(PendingRows(id, stops, n), id))
    ensures other != id ==> FirstStop(PendingRows(id, stops, n), other) == None
  {
    if n > 0 {
      FirstOfTrip(id, stops, n - 1, other);
      var last := if stops[n - 1].status.Pending? then [Row(id, n - 1)] else [];
      FirstStopConcat(PendingRows(id, stops, n - 1), last, id);
      FirstStopConcat(PendingRows(id, stops, n - 1), last, other);
    }
  }

  ghost predicate DistinctIds(trips: seq<Active>) {
    forall p, q :: 0 <= p < q < |trips| ==> trips[p].id != trips[q].id
  }

  lemma {:induction false} NoRowsForStranger(trips: seq<Active>, id: string)
    requires forall p :: 0 <= p < |trips| ==> trips[p].id != id || trips[p].trip.completed
    ensures FirstStop(Query(trips), id) == None
    decreases |trips|
  {
    if trips != [] {
      var n := |trips| - 1;
      var a := trips[n];
      NoRowsForStranger(trips[..n], id);
      FirstOfTrip(a.id, a.trip.stops, |a.trip.stops|, id);
      var last := if a.trip.completed then [] else PendingRows(a.id, a.trip.stops, |a.trip.stops|);
      FirstStopConcat(Query(trips[..n]), last, id);
    }
  }

  lemma {:induction false} QueryFirst(trips: seq<Active>, p: nat)
    requires DistinctIds(trips) && p < |trips| && !trips[p].trip.completed
    ensures FirstStop(Query(trips), trips[p].id)
            == FirstStop(PendingRows(trips[p].id, trips[p].trip.stops, |trips[p].trip.stops|), trips[p].id)
    decreases |trips|
  {
    var n := |trips| - 1;
    var a, id := trips[n], trips[p].id;
    var last := if a.trip.completed then [] else PendingRows(a.id, a.trip.stops, |a.trip.stops|);
    FirstStopConcat(Query(trips[..n]), last, id);
    if p < n {
      QueryFirst(trips[..n], p);
      FirstOfTrip(a.id, a.trip.stops, |a.trip.stops|, id);
    } else {
      NoRowsForStranger(trips[..n], id);
    }
  }

  /** `target` is the stop right after the furthest reached one m, or there is no stop left. */
  ghost predicate FollowsFurthest(stops: seq<Stop>, m: int, target: Option<nat>) {
    match target
    case None => forall i :: 0 <= i < |stops| ==> stops[i].number <= m
    case Some(k) =>
      && k < |stops| && stops[k].number > m
      && (forall i :: 0 <= i < k ==> stops[i].number <= m)
      && (k > 0 ==> stops[k - 1].number == m && Reached(stops[k - 1]))
  }

  lemma FirstPendingFollows(stops: seq<Stop>, m: int, target: Option<nat>)
    requires Route(stops) && IsFurthest(stops, m) && IsFirstPending(stops, |stops|, target)
    requires forall i :: 0 <= i < |stops| ==> (stops[i].status.Pending? <==> stops[i].number > m)
    ensures FollowsFurthest(stops, m, target)
  {
    if target.Some? && target.value > 0 {
      var k := target.value;
      assert 1 <= stops[k - 1].number <= m;
      var j :| 0 <= j < |stops| && Reached(stops[j]) && stops[j].number == m;
      assert j < k;
    }
  }

  /** For every trip in progress whose table is clear, the estimator's target is the stop right
      after the furthest reached one, and there is none only when no stop is left. */
  lemma TargetFollowsFurthest(trips: seq<Active>, p: nat)
    requires DistinctIds(trips) && p < |trips| && !trips[p].trip.completed
    requires Route(trips[p].trip.stops) && Clear(trips[p].trip.stops)
    ensures FollowsFurthest(trips[p].trip.stops, Furthest(trips[p].trip.stops), FirstStop(Query(trips), trips[p].id))
  {
    var stops, id := trips[p].trip.stops, trips[p].id;
    QueryFirst(trips, p);
    FirstOfTrip(id, stops, |stops|, id);
    FirstPendingFollows(stops, Furthest(stops), FirstStop(PendingRows(id, stops, |stops|), id));
  }

  /** The estimator's tick: query, then the first row of each trip. For every trip in progress
      whose table is clear the map holds the stop right after the furthest reached one. */
  method EtaTargets(trips: seq<Active>) returns (next: map<string, nat>)
    requires DistinctIds(trips)
    ensures forall p :: 0 <= p < |trips| && EtaReady(trips[p].trip) ==>
              var stops := trips[p].trip.stops; FollowsFurthest(stops, Furthest(stops), Lookup(next, trips[p].id))
    ensures forall id :: id in next ==> exists p :: 0 <= p < |trips| && trips[p].id == id && !trips[p].trip.completed
    ensures forall p :: 0 <= p < |trips| && trips[p].trip.completed ==> trips[p].id !in next
  {
    next := NextStops(Query(trips));
    forall p | 0 <= p < |trips| && EtaReady(trips[p].trip)
      ensures var stops := trips[p].trip.stops; FollowsFurthest(stops, Furthest(stops), Lookup(next, trips[p].id))
    {
      TargetFollowsFurthest(trips, p);
      assert Lookup(next, trips[p].id) == FirstStop(Query(trips), trips[p].id);
    }
    forall id | id in next ensures exists p :: 0 <= p < |trips| && trips[p].id == id && !trips[p].trip.completed {
      if forall p :: 0 <= p < |trips| ==> trips[p].id != id || trips[p].trip.completed { NoRowsForStranger(trips, id); }
      assert Lookup(next, id) == FirstStop(Query(trips), id);
    }
  }

  ghost predicate EtaReady(t: Trip) {
    !t.completed && Route(t.stops) && Clear(t.stops)
  }

  /** End to end: a trip started afresh, any run of ticks, then a tick with a position in which
      every mark takes effect and no stop is newly reached. If the trip is still in progress the
      estimator's next target is the stop right after the furthest reached one. */
  lemma EtaAfterQuietTick(t: Trip, obs: seq<Observation>, o: Observation, trips: seq<Active>, p: nat)
    requires Fresh(t) && DistinctIds(trips) && p < |trips| && trips[p].trip == Tick(Run(t, obs), o)
    requires o.Position? && Fits(Run(t, obs), o) && AllApplied(o) && Tick(Run(t, obs), o).log == Run(t, obs).log
    requires !Tick(Run(t, obs), o).completed
    ensures EtaReady(trips[p].trip)
    ensures var stops := trips[p].trip.stops;
            FollowsFurthest(stops, Furthest(stops), FirstStop(Query(trips), trips[p].id))
  {
    RunKeepsOrder(t, obs);
    TickKeepsOrder(Run(t, obs), o);
    QuietTickClears(Run(t, obs), o);
    TargetFollowsFurthest(trips, p);
  }
}
