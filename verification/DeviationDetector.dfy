/** `checkTrip` with `fireAlert` and `autoResolve`, as the detector's goroutine runs them. */
module DeviationDetector {
  import opened Domain
  import opened Deviation
  import opened Geo
  import AlertDedup

  /** Which of the calls of one check fail. An unanswered claim may have been applied. */
  datatype Faults = Faults(flag: bool, claim: bool, claimApplied: bool, insert: bool, resolve: bool, delete: bool)

  /** The trip's ten-minute key is set and has not expired. */
  predicate Held(keys: map<string, int>, now: int, trip: string) {
    trip in keys && now < keys[trip]
  }

  /** A row was created less than five minutes from now. */
  predicate Crowded(rows: seq<Row>, now: int) {
    exists i :: 0 <= i < |rows| && -300_000_000 < rows[i].created - now < 300_000_000
  }

  lemma CrowdedIsExcluded(rows: seq<Row>, now: int)
    ensures Crowded(rows, now) <==> Excluded(rows, now)
  {
    if Excluded(rows, now) {
      var i :| 0 <= i < |rows| && AlertDedup.Near(rows[i].created, now);
      assert -300_000_000 < rows[i].created - now < 300_000_000;
    }
  }

  class Vehicle {
    var now: int
    var flag: Option<bool>
    var keys: map<string, int>
    var rows: seq<Row>
    var phase: Phase

    ghost function View(): State
      reads this
    {
      State(now, flag, keys, rows, phase)
    }

    constructor (now: int)
      ensures View() == Init(now)
    {
      this.now, flag, keys, rows, phase := now, None, map[], [], Idle;
    }

    method FireAlert(f: Faults, ghost s0: State, ghost before: seq<Action>) returns (ghost schedule: seq<Action>)
      requires phase.Deviating? && View() == Exec(s0, before)
      modifies this`keys, this`rows, this`phase
      ensures View() == Exec(s0, schedule) && phase.Idle?
      ensures rows == old(rows) + if Held(old(keys), now, old(phase).trip) || Crowded(old(rows), now)
                                     || f.claim || f.insert
                                  then [] else [Row(old(phase).trip, now, now, false)]
      ensures keys == if Held(old(keys), now, old(phase).trip) || (f.claim && !f.claimApplied) then old(keys)
                      else old(keys)[old(phase).trip := now + 600_000_000]
    {
      var trip := phase.trip;
      CrowdedIsExcluded(rows, now);
      ExecSnoc(s0, before, Claim(!f.claim, f.claimApplied));
      schedule := before + [Claim(!f.claim, f.claimApplied)];
      if (trip in keys && now < keys[trip]) || (f.claim && !f.claimApplied) {
        phase := Idle;
        return;
      }
      keys := keys[trip := now + CLAIM_TTL];
      if f.claim {
        phase := Idle;
        return;
      }
      phase := Claimed(trip, now);
      ExecSnoc(s0, schedule, Insert(now, !f.insert));
      schedule := schedule + [Insert(now, !f.insert)];
      if !f.insert && !Excluded(rows, now) {
        rows := rows + [Row(trip, now, now, false)];
      }
      phase := Idle;
    }

    method ResolveAll()
      modifies this`rows
      ensures rows == AllResolved(old(rows))
    {
      for i := 0 to |rows|
        invariant |rows| == |old(rows)|
        invariant forall k :: 0 <= k < |rows| ==>
                    rows[k] == if k < i then old(rows)[k].(resolved := true) else old(rows)[k]
      {
        rows := rows[i := rows[i].(resolved := true)];
      }
    }

    method ResolveAlerts(f: Faults, ghost s0: State, ghost before: seq<Action>) returns (ghost schedule: seq<Action>)
      requires phase.OnRoute? && View() == Exec(s0, before)
      modifies this`keys, this`rows, this`phase
      ensures View() == Exec(s0, schedule) && phase.Idle?
      ensures rows == if f.resolve then old(rows) else AllResolved(old(rows))
      ensures keys == if f.resolve || f.delete then old(keys) else old(keys) - {old(phase).trip}
    {
      var trip := phase.trip;
      ExecSnoc(s0, before, AutoResolve(!f.resolve));
      schedule := before + [AutoResolve(!f.resolve)];
      if f.resolve {
        phase := Idle;
        return;
      }
      ResolveAll();
      phase := Resolved(trip);
      ExecSnoc(s0, schedule, DeleteKey(!f.delete));
      schedule := schedule + [DeleteKey(!f.delete)];
      if !f.delete {
        keys := keys - {trip};
      }
      phase := Idle;
    }

    /** One check of a trip at a known position. It is a schedule of the detector's machine, so
        the results on its runs apply; undisturbed, unless its own write failed, the flag says
        whether the vehicle is outside the corridor, and inside it nothing stays open. */
    method CheckTrip(trip: string, km: Distance, position: Point, stops: seq<Point>, corridorKm: real, f: Faults)
      returns (minDist: real, ghost schedule: seq<Action>)
      requires phase.Idle?
      modifies this
      ensures View() == Exec(old(View()), schedule) && phase.Idle? && now == old(now)
      ensures flag == if f.flag then old(flag) else Some(minDist > corridorKm)
      ensures minDist <= corridorKm ==>
                && rows == (if f.resolve then old(rows) else AllResolved(old(rows)))
                && keys == (if f.resolve || f.delete then old(keys) else old(keys) - {trip})
      ensures minDist > corridorKm ==>
                && rows == old(rows) + (if Held(old(keys), now, trip) || Crowded(old(rows), now) || f.claim || f.insert
                                        then [] else [Row(trip, now, now, false)])
                && keys == (if Held(old(keys), now, trip) || (f.claim && !f.claimApplied) then old(keys)
                            else old(keys)[trip := now + 600_000_000])
      ensures RouteDistance(km, position, stops, minDist)
    {
      ghost var s0 := View();
      minDist := MinDistanceToRoute(km, position, stops);
      if minDist > corridorKm {
        ExecSnoc(s0, [], SeeDeviated(trip, !f.flag));
        if !f.flag {
          flag := Some(true);
        }
        phase := Deviating(trip);
        schedule := FireAlert(f, s0, [] + [SeeDeviated(trip, !f.flag)]);
      } else {
        ExecSnoc(s0, [], SeeOnRoute(trip, !f.flag));
        if !f.flag {
          flag := Some(false);
        }
        phase := OnRoute(trip);
        schedule := ResolveAlerts(f, s0, [] + [SeeOnRoute(trip, !f.flag)]);
      }
    }
  }
}
