/** `FleetID` and `Validate` as one call runs them: a method that loads, deletes and stores
    cache entries. Both services contain this code; they differ in how a zero ttl is read. */
module Authenticator {
  import opened AuthCache

  const DEFAULT_TTL: int := 300

  /** The serving side's constructor replaces a ttl of zero; the ingestion side's does not. */
  function ServingTtl(seconds: int): (ttl: int)
    ensures ttl != 0 && (seconds != 0 ==> ttl == seconds) && (seconds == 0 ==> ttl == 300)
  {
    if seconds == 0 then DEFAULT_TTL else seconds
  }

  function FromEntry(e: Entry, now: int): Answer {
    Fleet(e.fleet, now, e.lookup, e.storedAt)
  }

  /** The cache holds an unexpired entry for this key. */
  predicate LiveEntry(cache: map<string, Entry>, key: string, now: int) {
    key in cache && now < cache[key].expiresAt
  }

  lemma ExecThree(s: State, before: seq<Action>, a: Action, b: Action, c: Action)
    ensures Exec(s, before + [a] + [b] + [c]) == Step(Step(Step(Exec(s, before), a), b), c)
  {
    ExecSnoc(s, before, a);
    ExecSnoc(s, before + [a], b);
    ExecSnoc(s, before + [a] + [b], c);
  }

  /** Reading the clock, storing and returning, undisturbed: one entry more, and the answer. */
  lemma RememberIsSteps(s: State, c: nat, n: nat)
    requires c < |s.calls| && s.calls[c].phase == Found(n)
    ensures Step(Step(Step(s, Stamp(c)), Store(c)), Return(c))
            == s.(cache := s.cache[s.calls[c].key := Entry(Seen(s, n), s.now + s.ttl, n, s.now)],
                  calls := s.calls[c := s.calls[c].(phase := Done(Fleet(Seen(s, n), s.now, n, s.now)))])
  {
    var s1 := StampStep(s, c);
    assert s1 == Move(s, c, Storing(n, s.now)) && Seen(s1, n) == Seen(s, n);
    var s2 := StoreStep(s1, c);
    assert s2.calls == s.calls[c := s.calls[c].(phase := Stored(n, s.now))] && Seen(s2, n) == Seen(s, n);
    assert ReturnStep(s2, c).calls == s.calls[c := s.calls[c].(phase := Done(Fleet(Seen(s, n), s.now, n, s.now)))];
  }

  class Cache {
    const ttl: int
    const staticKeys: set<string>
    var now: int
    var versions: seq<map<string, string>>
    var cache: map<string, Entry>
    var lookups: seq<Lookup>
    var failures: seq<Failure>
    var calls: seq<Call>

    ghost function View(): State
      reads this
    {
      State(now, ttl, staticKeys, versions, cache, lookups, failures, calls)
    }

    /** `configured` is the list of static keys as configured; empty ones are skipped. */
    constructor Ingestion(configured: set<string>, ttl: int, now: int, table: map<string, string>)
      ensures View() == Init(now, ttl, configured - {""}, table) && Inv(View())
    {
      this.ttl, staticKeys := ttl, configured - {""};
      this.now, versions, cache, lookups, failures, calls := now, [table], map[], [], [], [];
    }

    constructor Serving(configured: set<string>, seconds: int, now: int, table: map<string, string>)
      ensures View() == Init(now, ServingTtl(seconds), configured - {""}, table) && Inv(View())
    {
      this.ttl, staticKeys := ServingTtl(seconds), configured - {""};
      this.now, versions, cache, lookups, failures, calls := now, [table], map[], [], [], [];
    }

    /** The cache level: a live entry answers, an expired one is deleted. */
    method FromCache(c: nat, ghost s0: State, ghost before: seq<Action>)
      returns (hit: bool, ghost schedule: seq<Action>)
      requires c < |calls| && calls[c].phase.Start? && View() == Exec(s0, before)
      modifies this`cache, this`calls
      ensures View() == Exec(s0, schedule) && |calls| == |old(calls)| && calls[c].key == old(calls)[c].key
      ensures hit == LiveEntry(old(cache), calls[c].key, now)
      ensures hit ==> cache == old(cache) && calls[c].phase == Done(FromEntry(cache[calls[c].key], now))
      ensures !hit ==> cache == old(cache) - {calls[c].key} && calls[c].phase == Asking
    {
      var key := calls[c].key;
      ExecSnoc(s0, before, Load(c));
      schedule := before + [Load(c)];
      if key !in cache {
        calls := calls[c := calls[c].(phase := Asking)];
        return false, schedule;
      }
      var e := cache[key];
      calls := calls[c := calls[c].(phase := Loaded(e))];
      ExecSnoc(s0, schedule, Check(c));
      schedule := schedule + [Check(c)];
      if now < e.expiresAt {
        calls := calls[c := calls[c].(phase := Done(Fleet(e.fleet, now, e.lookup, e.storedAt)))];
        return true, schedule;
      }
      calls := calls[c := calls[c].(phase := Stale)];
      ExecSnoc(s0, schedule, Delete(c));
      schedule := schedule + [Delete(c)];
      cache := cache - {key};
      calls := calls[c := calls[c].(phase := Asking)];
      return false, schedule;
    }

    /** The store level: ask, and remember what was found for ttl from now. */
    method FromStore(c: nat, storeOk: bool, ghost s0: State, ghost before: seq<Action>)
      returns (fleet: string, ghost schedule: seq<Action>)
      requires c < |calls| && calls[c].phase.Asking? && View() == Exec(s0, before) && |versions| > 0
      modifies this`cache, this`calls, this`lookups, this`failures
      ensures View() == Exec(s0, schedule)
      ensures var key := old(calls)[c].key;
              && fleet == (if storeOk then Value(versions[|versions| - 1], key) else "")
              && cache == (if fleet != "" then old(cache)[key := Entry(fleet, now + ttl, |old(lookups)|, now)]
                           else old(cache))
      ensures |lookups| == |old(lookups)| + if storeOk then 1 else 0
    {
      var key := calls[c].key;
      ExecSnoc(s0, before, Ask(c, storeOk));
      schedule := before + [Ask(c, storeOk)];
      if !storeOk {
        calls := calls[c := calls[c].(phase := Done(Rejected(StoreError(|failures|))))];
        failures := failures + [Failure(key, now)];
        return "", schedule;
      }
      var n := |lookups|;
      fleet := Value(versions[|versions| - 1], key);
      lookups := lookups + [Lookup(key, now, |versions| - 1)];
      if fleet == "" {
        calls := calls[c := calls[c].(phase := Done(Rejected(NotFound(n))))];
        return;
      }
      calls := calls[c := calls[c].(phase := Found(n))];
      schedule := Remember(c, n, fleet, s0, schedule);
    }

    method Remember(c: nat, n: nat, fleet: string, ghost s0: State, ghost before: seq<Action>)
      returns (ghost schedule: seq<Action>)
      requires c < |calls| && calls[c].phase == Found(n) && View() == Exec(s0, before) && fleet == Seen(View(), n)
      modifies this`cache, this`calls
      ensures View() == Exec(s0, schedule)
      ensures cache == old(cache)[old(calls)[c].key := Entry(fleet, now + ttl, n, now)]
    {
      RememberIsSteps(View(), c, n);
      ExecThree(s0, before, Stamp(c), Store(c), Return(c));
      schedule := before + [Stamp(c)] + [Store(c)] + [Return(c)];
      cache := cache[calls[c].key := Entry(fleet, now + ttl, n, now)];
      calls := calls[c := calls[c].(phase := Done(Fleet(fleet, now, n, now)))];
    }

    /** One undisturbed call is a schedule of the protocol, so its answer obeys the staleness
        bound; and it is accepted exactly for a configured key, a live entry, or a key the
        store knows, asking the store only when the first two fail. */
    method FleetID(key: string, storeOk: bool) returns (fleet: string, ok: bool, ghost schedule: seq<Action>)
      requires |versions| > 0
      modifies this`cache, this`calls, this`lookups, this`failures
      ensures View() == Exec(old(View()), schedule)
      ensures var table := versions[|versions| - 1];
              var known := storeOk && key in table && table[key] != "";
              var asks := key != "" && key !in staticKeys && !(key in old(cache) && now < old(cache)[key].expiresAt);
              && ok == (key != "" && (!asks || known))
              && fleet == (if !ok || key in staticKeys then "" else if asks then table[key] else old(cache)[key].fleet)
              && |lookups| == |old(lookups)| + (if asks && storeOk then 1 else 0)
              && cache == (if !asks then old(cache)
                           else if ok then old(cache)[key := Entry(table[key], now + ttl, |old(lookups)|, now)]
                           else old(cache) - {key})
    {
      ghost var s0 := View();
      ExecSnoc(s0, [], Begin(key));
      schedule := [] + [Begin(key)];
      var c := |calls|;
      if key == "" {
        calls := calls + [Call(key, now, Done(Rejected(EmptyKey)))];
        return "", false, schedule;
      }
      if key in staticKeys {
        calls := calls + [Call(key, now, Done(Static))];
        return "", true, schedule;
      }
      calls := calls + [Call(key, now, Start)];
      var hit;
      hit, schedule := FromCache(c, s0, schedule);
      if hit {
        return cache[key].fleet, true, schedule;
      }
      fleet, schedule := FromStore(c, storeOk, s0, schedule);
      assert (old(cache) - {key})[key := Entry(fleet, now + ttl, |old(lookups)|, now)]
          == old(cache)[key := Entry(fleet, now + ttl, |old(lookups)|, now)];
      ok := fleet != "";
    }

    method Validate(key: string, storeOk: bool) returns (ok: bool, ghost schedule: seq<Action>)
      requires |versions| > 0
      modifies this`cache, this`calls, this`lookups, this`failures
      ensures View() == Exec(old(View()), schedule)
      ensures var table := versions[|versions| - 1];
              ok == (key != "" && (key in staticKeys || (key in old(cache) && now < old(cache)[key].expiresAt)
                                   || (storeOk && key in table && table[key] != "")))
    {
      var fleet;
      fleet, ok, schedule := FleetID(key, storeOk);
    }
  }
}
