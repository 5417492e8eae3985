/** `evaluate` as the worker runs it: a loop over the rules that changes Redis and the alert
    table in place. */
module AlertEvaluator {
  import opened Domain
  import opened AlertDedup

  const RULES: seq<AlertType> := [Speeding, LowFuel, EngineOverheat]

  predicate Fires(m: Telemetry, t: AlertType) {
    match t
    case Speeding => m.speedKmh > 100.0
    case LowFuel => m.fuelPct < 10.0
    case EngineOverheat => m.engineTempC > 100.0
    case RouteDeviation => false
  }

  /** What goes wrong while one rule is handled. */
  datatype Fault = NoFault | ClaimFails | InsertFails(releaseFails: bool)

  function KeyOf(m: Telemetry, t: AlertType): Key {
    Key(m.vehicleId, t)
  }

  /** A rule leads to a publication exactly when it fires, its key is free and nothing fails. */
  predicate Publishes(s: State, m: Telemetry, t: AlertType, fault: Fault) {
    Fires(m, t) && !Live(s, KeyOf(m, t)) && fault.NoFault?
  }

  function Published(s: State, m: Telemetry, t: AlertType, faults: AlertType -> Fault): seq<Publication> {
    if Publishes(s, m, t, faults(t)) then [Publication(KeyOf(m, t), s.now)] else []
  }

  function Publications(s: State, m: Telemetry, faults: AlertType -> Fault, n: nat): seq<Publication>
    requires n <= |RULES|
  {
    if n == 0 then []
    else
      Publications(s, m, faults, n - 1) + Published(s, m, RULES[n - 1], faults)
  }

  /** A row of this vehicle and type was created less than five minutes from now. */
  predicate Crowded(rows: seq<Row>, k: Key, now: int) {
    exists i :: 0 <= i < |rows| && rows[i].key == k && -300_000_000 < rows[i].created - now < 300_000_000
  }

  lemma CrowdedIsExcluded(rows: seq<Row>, k: Key, now: int)
    ensures Crowded(rows, k, now) <==> Excluded(rows, k, now)
  {
    if Excluded(rows, k, now) {
      var i :| 0 <= i < |rows| && rows[i].key == k && Near(rows[i].created, now);
      assert rows[i].key == k;
    }
  }

  /** Whether the key is taken after its rule was handled: as before unless the rule fired on a
      free key; then it stays taken, except after a failed claim or a successful release. */
  predicate TakenAfter(s: State, m: Telemetry, t: AlertType, fault: Fault) {
    Live(s, KeyOf(m, t)) || (Fires(m, t) && (fault.NoFault? || fault == InsertFails(true)))
  }

  /** Redis holds an unexpired key for this vehicle and type. */
  predicate Taken(leases: map<Key, Lease>, now: int, vehicle: string, t: AlertType) {
    Key(vehicle, t) in leases && now < leases[Key(vehicle, t)].expiry
  }

  /** The alert went out, or neither it nor the release of its key did. */
  predicate KeepsKey(fault: Fault) {
    fault == NoFault || fault == InsertFails(true)
  }

  lemma KeysExactly(s: State, s': State, m: Telemetry, faults: AlertType -> Fault)
    requires forall j :: 0 <= j < |RULES| ==>
               Live(s', KeyOf(m, RULES[j])) == TakenAfter(s, m, RULES[j], faults(RULES[j]))
    ensures var v := m.vehicleId;
            && (Taken(s'.leases, s'.now, v, Speeding) <==>
                  Taken(s.leases, s.now, v, Speeding) || (m.speedKmh > 100.0 && KeepsKey(faults(Speeding))))
            && (Taken(s'.leases, s'.now, v, LowFuel) <==>
                  Taken(s.leases, s.now, v, LowFuel) || (m.fuelPct < 10.0 && KeepsKey(faults(LowFuel))))
            && (Taken(s'.leases, s'.now, v, EngineOverheat) <==>
                  Taken(s.leases, s.now, v, EngineOverheat)
                  || (m.engineTempC > 100.0 && KeepsKey(faults(EngineOverheat))))
  {
    assert RULES[0] == Speeding && RULES[1] == LowFuel && RULES[2] == EngineOverheat;
  }

  /** Among the publications from position n on there is one of this vehicle and type. */
  ghost predicate Announced(published: seq<Publication>, n: nat, vehicle: string, t: AlertType) {
    exists i :: n <= i < |published| && published[i].key == Key(vehicle, t)
  }

  /** What a message leads to, by its readings: at most one publication per type, all of them for
      the vehicle that sent it. */
  lemma PublicationsExactly(s: State, m: Telemetry, faults: AlertType -> Fault)
    ensures var ps, v := Publications(s, m, faults, |RULES|), m.vehicleId;
            && (Announced(ps, 0, v, Speeding) <==>
                  m.speedKmh > 100.0 && !Taken(s.leases, s.now, v, Speeding) && faults(Speeding).NoFault?)
            && (Announced(ps, 0, v, LowFuel) <==>
                  m.fuelPct < 10.0 && !Taken(s.leases, s.now, v, LowFuel) && faults(LowFuel).NoFault?)
            && (Announced(ps, 0, v, EngineOverheat) <==>
                  m.engineTempC > 100.0 && !Taken(s.leases, s.now, v, EngineOverheat)
                  && faults(EngineOverheat).NoFault?)
            && !Announced(ps, 0, v, RouteDeviation)
            && (forall i :: 0 <= i < |ps| ==> ps[i].key.vehicleId == v && ps[i].attempt == s.now)
            && (forall i, j :: 0 <= i < j < |ps| ==> ps[i].key != ps[j].key)
  {
    var p1, p2 := Publications(s, m, faults, 1), Publications(s, m, faults, 2);
    assert RULES[0] == Speeding && RULES[1] == LowFuel && RULES[2] == EngineOverheat;
    assert Publications(s, m, faults, 0) == [] && p1 == Published(s, m, Speeding, faults);
    assert p2 == p1 + Published(s, m, LowFuel, faults);
    assert Publications(s, m, faults, 3) == p2 + Published(s, m, EngineOverheat, faults);
    PublishedExactly(s, m, Speeding, faults);
    PublishedExactly(s, m, LowFuel, faults);
    PublishedExactly(s, m, EngineOverheat, faults);
    AnnouncedConcat(p1, Published(s, m, LowFuel, faults), m.vehicleId);
    AnnouncedConcat(p2, Published(s, m, EngineOverheat, faults), m.vehicleId);
  }

  lemma PublishedExactly(s: State, m: Telemetry, t: AlertType, faults: AlertType -> Fault)
    ensures forall u :: Announced(Published(s, m, t, faults), 0, m.vehicleId, u) <==>
              u == t && Fires(m, t) && !Taken(s.leases, s.now, m.vehicleId, t) && faults(t).NoFault?
  {
    if Publishes(s, m, t, faults(t)) {
      assert Published(s, m, t, faults)[0].key == Key(m.vehicleId, t);
    }
  }

  lemma AnnouncedLater(before: seq<Publication>, more: seq<Publication>, v: string)
    ensures forall t :: Announced(before + more, |before|, v, t) <==> Announced(more, 0, v, t)
  {
    forall t ensures Announced(before + more, |before|, v, t) <==> Announced(more, 0, v, t) {
      if Announced(more, 0, v, t) {
        var i :| 0 <= i < |more| && more[i].key == Key(v, t);
        assert (before + more)[|before| + i].key == Key(v, t);
      }
    }
  }

  lemma AnnouncedConcat(a: seq<Publication>, b: seq<Publication>, v: string)
    ensures forall t :: Announced(a + b, 0, v, t) <==> Announced(a, 0, v, t) || Announced(b, 0, v, t)
  {
    forall t ensures Announced(a + b, 0, v, t) <==> Announced(a, 0, v, t) || Announced(b, 0, v, t) {
      if Announced(a, 0, v, t) {
        var i :| 0 <= i < |a| && a[i].key == Key(v, t);
        assert (a + b)[i].key == Key(v, t);
      }
      if Announced(b, 0, v, t) {
        var i :| 0 <= i < |b| && b[i].key == Key(v, t);
        assert (a + b)[|a| + i].key == Key(v, t);
      }
    }
  }

  class Evaluator {
    var now: int
    var leases: map<Key, Lease>
    var rows: seq<Row>
    var workers: seq<Phase>
    var published: seq<Publication>
    var released: seq<Release>

    ghost function View(): State
      reads this
    {
      State(now, leases, rows, workers, published, released)
    }

    constructor (n: nat, start: int)
      ensures View() == Init(n, start)
    {
      now, leases, rows, workers, published, released := start, map[], [], seq(n, _ => Idle), [], [];
    }

    /** SET key NX EX: true for exactly the caller that found the key free. */
    method TryClaim(w: nat, k: Key) returns (claimed: bool)
      requires w < |workers| && workers[w] == Idle
      modifies this`leases, this`workers
      ensures claimed <==> !(k in old(leases) && now < old(leases)[k].expiry)
      ensures leases == if claimed then old(leases)[k := Lease(now + 300_000_000, Some(w))] else old(leases)
      ensures View() == Step(old(View()), Claim(w, k))
    {
      if k in leases && now < leases[k].expiry {
        return false;
      }
      leases := leases[k := Lease(now + WINDOW, Some(w))];
      workers := workers[w := Claimed(k, now)];
      return true;
    }

    /** INSERT ... ON CONFLICT DO NOTHING; a suppressed row is not an error. */
    method InsertAlert(w: nat, fails: bool)
      requires w < |workers| && workers[w].Claimed?
      modifies this`rows, this`workers
      ensures View() == Step(old(View()),
                             if fails then InsertError(w, now, false) else AlertDedup.Action.Insert(w, now))
      ensures var k := old(workers)[w].key;
              rows == old(rows) + if fails || Crowded(old(rows), k, now) then [] else [Row(k, now)]
    {
      var p := workers[w];
      CrowdedIsExcluded(rows, p.key, now);
      if fails {
        workers := workers[w := Failed(p.key, p.at)];
        return;
      }
      var clash := false;
      for i := 0 to |rows|
        invariant clash <==> Excluded(rows[..i], p.key, now)
      {
        if rows[i].key == p.key && Near(rows[i].created, now) {
          clash := true;
          assert rows[..i + 1][i] == rows[i];
        }
        assert forall j :: 0 <= j < i ==> rows[..i + 1][j] == rows[..i][j];
      }
      assert rows[..|rows|] == rows;
      if !clash {
        rows := rows + [Row(p.key, now)];
      }
      workers := workers[w := Stored(p.key, now)];
    }

    method ReleaseClaim(w: nat, fails: bool)
      requires w < |workers| && workers[w].Failed?
      modifies this`leases, this`workers, this`released
      ensures View() == Step(old(View()), Delete(w, !fails))
      ensures !fails ==> !Live(View(), old(workers)[w].key)
      ensures forall k :: k != old(workers)[w].key || fails ==> Live(View(), k) == Live(old(View()), k)
    {
      var k := workers[w].key;
      if !fails && k in leases && now < leases[k].expiry {
        released := released + [Release(w, leases[k].owner)];
        leases := leases - {k};
      }
      workers := workers[w := Idle];
    }

    method PublishAlert(w: nat)
      requires w < |workers| && workers[w].Stored?
      modifies this`published, this`workers
      ensures View() == Step(old(View()), Publish(w))
    {
      published := published + [Publication(workers[w].key, workers[w].attempt)];
      workers := workers[w := Idle];
    }

    /** The loop body for one rule. */
    method EvaluateRule(w: nat, m: Telemetry, t: AlertType, fault: Fault) returns (ghost schedule: seq<Action>)
      requires w < |workers| && workers[w] == Idle
      modifies this
      ensures View() == Exec(old(View()), schedule)
      ensures workers == old(workers) && now == old(now)
      ensures published == old(published)
                + if Publishes(old(View()), m, t, fault) then [Publication(KeyOf(m, t), now)] else []
      ensures forall k :: k != KeyOf(m, t) ==> Live(View(), k) == Live(old(View()), k)
      ensures Live(View(), KeyOf(m, t)) == TakenAfter(old(View()), m, t, fault)
      ensures rows == old(rows) + if Publishes(old(View()), m, t, fault) && !Crowded(old(rows), KeyOf(m, t), now)
                                  then [Row(KeyOf(m, t), now)] else []
    {
      ghost var s0 := View();
      var k := KeyOf(m, t);
      schedule := [];
      if !Fires(m, t) || fault.ClaimFails? {
        return;
      }
      ExecSnoc(s0, schedule, Claim(w, k));
      schedule := schedule + [Claim(w, k)];
      var claimed := TryClaim(w, k);
      if !claimed {
        return;
      }
      if fault.InsertFails? {
        ExecSnoc(s0, schedule, InsertError(w, now, false));
        schedule := schedule + [InsertError(w, now, false)];
        InsertAlert(w, true);
        ExecSnoc(s0, schedule, Delete(w, !fault.releaseFails));
        schedule := schedule + [Delete(w, !fault.releaseFails)];
        ReleaseClaim(w, fault.releaseFails);
        return;
      }
      ExecSnoc(s0, schedule, AlertDedup.Action.Insert(w, now));
      schedule := schedule + [AlertDedup.Action.Insert(w, now)];
      InsertAlert(w, false);
      ExecSnoc(s0, schedule, Publish(w));
      schedule := schedule + [Publish(w)];
      PublishAlert(w);
    }

    /** `evaluate`: the rules in order. What worker w does is a schedule of the protocol, so
        everything proved of its runs applies; undisturbed, it publishes exactly the rules that
        fired on a free key and met no fault, in rule order, and a failed insert whose release
        went through leaves its key free for the next message. */
    method Evaluate(w: nat, m: Telemetry, faults: AlertType -> Fault) returns (ghost schedule: seq<Action>)
      requires w < |workers| && workers[w] == Idle
      modifies this
      ensures View() == Exec(old(View()), schedule)
      ensures workers == old(workers) && now == old(now)
      ensures published == old(published) + Publications(old(View()), m, faults, |RULES|)
      ensures forall j :: 0 <= j < |RULES| ==>
                Live(View(), KeyOf(m, RULES[j])) == TakenAfter(old(View()), m, RULES[j], faults(RULES[j]))
      ensures forall k: Key :: k.vehicleId != m.vehicleId ==>
                (k in leases && now < leases[k].expiry <==> k in old(leases) && now < old(leases)[k].expiry)
      ensures old(published) <= published && old(rows) <= rows
      ensures forall i :: |old(published)| <= i < |published| ==> published[i].key.vehicleId == m.vehicleId
      ensures forall i :: |old(rows)| <= i < |rows| ==> rows[i].key.vehicleId == m.vehicleId && rows[i].created == now
      ensures var n, v := |old(published)|, m.vehicleId;
              && (Announced(published, n, v, Speeding) <==>
                    m.speedKmh > 100.0 && !Taken(old(leases), now, v, Speeding) && faults(Speeding).NoFault?)
              && (Announced(published, n, v, LowFuel) <==>
                    m.fuelPct < 10.0 && !Taken(old(leases), now, v, LowFuel) && faults(LowFuel).NoFault?)
              && (Announced(published, n, v, EngineOverheat) <==>
                    m.engineTempC > 100.0 && !Taken(old(leases), now, v, EngineOverheat)
                    && faults(EngineOverheat).NoFault?)
              && !Announced(published, n, v, RouteDeviation)
      ensures var v := m.vehicleId;
              && (Taken(leases, now, v, Speeding) <==>
                    Taken(old(leases), now, v, Speeding) || (m.speedKmh > 100.0 && KeepsKey(faults(Speeding))))
              && (Taken(leases, now, v, LowFuel) <==>
                    Taken(old(leases), now, v, LowFuel) || (m.fuelPct < 10.0 && KeepsKey(faults(LowFuel))))
              && (Taken(leases, now, v, EngineOverheat) <==>
                    Taken(old(leases), now, v, EngineOverheat)
                    || (m.engineTempC > 100.0 && KeepsKey(faults(EngineOverheat))))
    {
      ghost var s0 := View();
      schedule := [];
      for i := 0 to |RULES|
        invariant View() == Exec(s0, schedule) && workers == old(workers) && now == old(now)
        invariant published == old(published) + Publications(s0, m, faults, i)
        invariant old(rows) <= rows
        invariant forall j :: |old(rows)| <= j < |rows| ==>
                    rows[j].key.vehicleId == m.vehicleId && rows[j].created == now
        invariant forall k: Key :: k.vehicleId != m.vehicleId ==> Live(View(), k) == Live(s0, k)
        invariant forall j :: 0 <= j < i ==>
                    Live(View(), KeyOf(m, RULES[j])) == TakenAfter(s0, m, RULES[j], faults(RULES[j]))
        invariant forall j :: i <= j < |RULES| ==> Live(View(), KeyOf(m, RULES[j])) == Live(s0, KeyOf(m, RULES[j]))
      {
        ghost var more := EvaluateRule(w, m, RULES[i], faults(RULES[i]));
        ExecAppend(s0, schedule, more);
        schedule := schedule + more;
      }
      KeysExactly(s0, View(), m, faults);
      PublicationsExactly(s0, m, faults);
      AnnouncedLater(old(published), Publications(s0, m, faults, |RULES|), m.vehicleId);
    }
  }
}
