/** The API-key cache in front of Redis: any number of overlapping calls, each interruptible
    between its loads, clock readings, lookups and stores, over a store that changes freely. */
module AuthCache {
  /** A cached answer. The code keeps `fleet` and `expiresAt`; `lookup` and `storedAt` say for
      the proof which lookup it came from and when its lifetime was stamped. */
  datatype Entry = Entry(fleet: string, expiresAt: int, lookup: nat, storedAt: int)

  /** A GET that was answered: the key, the time, and the version of the store it saw. */
  datatype Lookup = Lookup(key: string, at: int, version: nat)

  /** A GET that ended in an error. */
  datatype Failure = Failure(key: string, at: int)

  datatype Reason = EmptyKey | StoreError(failure: nat) | NotFound(lookup: nat)

  /** Fleet: accepted at time `at` on the strength of a lookup. */
  datatype Answer = Rejected(reason: Reason) | Static | Fleet(fleet: string, at: int, lookup: nat, storedAt: int)

  datatype Phase =
    | Start                               // about to load from the cache
    | Loaded(entry: Entry)                // about to compare its expiry with the clock
    | Stale                               // about to delete the key from the cache
    | Asking                              // about to ask the store
    | Found(lookup: nat)                  // about to read the clock for the new entry
    | Storing(lookup: nat, storedAt: int) // about to store the new entry
    | Stored(lookup: nat, storedAt: int)  // about to return
    | Done(answer: Answer)

  datatype Call = Call(key: string, begun: int, phase: Phase)

  datatype State = State(
    now: int, ttl: int, staticKeys: set<string>, versions: seq<map<string, string>>,
    cache: map<string, Entry>, lookups: seq<Lookup>, failures: seq<Failure>, calls: seq<Call>)

  datatype Action =
    | Advance(d: nat)
    | Change(table: map<string, string>)
    | Begin(key: string)
    | Load(c: nat) | Check(c: nat) | Delete(c: nat) | Ask(c: nat, ok: bool)
    | Stamp(c: nat) | Store(c: nat) | Return(c: nat)

  function Init(now: int, ttl: int, staticKeys: set<string>, table: map<string, string>): State {
    State(now, ttl, staticKeys, [table], map[], [], [], [])
  }

  /** What GET answers: the stored fleet, or the empty string for a missing key. */
  function Value(table: map<string, string>, key: string): string {
    if key in table then table[key] else ""
  }

  /** The value a lookup saw. */
  function Seen(s: State, i: nat): string {
    if i < |s.lookups| && s.lookups[i].version < |s.versions| then
      Value(s.versions[s.lookups[i].version], s.lookups[i].key)
    else ""
  }

  function Move(s: State, c: nat, p: Phase): State
    requires c < |s.calls|
  {
    s.(calls := s.calls[c := s.calls[c].(phase := p)])
  }

  function BeginStep(s: State, key: string): State {
    var p := if key == "" then Done(Rejected(EmptyKey))
             else if key in s.staticKeys then Done(Static)
             else Start;
    s.(calls := s.calls + [Call(key, s.now, p)])
  }

  function LoadStep(s: State, c: nat): State {
    if c < |s.calls| && s.calls[c].phase.Start? then
      var key := s.calls[c].key;
      Move(s, c, if key in s.cache then Loaded(s.cache[key]) else Asking)
    else s
  }

  function CheckStep(s: State, c: nat): State {
    if c < |s.calls| && s.calls[c].phase.Loaded? then
      var e := s.calls[c].phase.entry;
      Move(s, c, if s.now < e.expiresAt then Done(Fleet(e.fleet, s.now, e.lookup, e.storedAt)) else Stale)
    else s
  }

  function DeleteStep(s: State, c: nat): State {
    if c < |s.calls| && s.calls[c].phase.Stale? then Move(s.(cache := s.cache - {s.calls[c].key}), c, Asking) else s
  }

  function AskStep(s: State, c: nat, ok: bool): State {
    if c < |s.calls| && s.calls[c].phase.Asking? then
      var key := s.calls[c].key;
      if !ok || |s.versions| == 0 then
        Move(s.(failures := s.failures + [Failure(key, s.now)]), c, Done(Rejected(StoreError(|s.failures|))))
      else
        var v, n := |s.versions| - 1, |s.lookups|;
        var s' := s.(lookups := s.lookups + [Lookup(key, s.now, v)]);
        Move(s', c, if Value(s.versions[v], key) == "" then Done(Rejected(NotFound(n))) else Found(n))
    else s
  }

  function StampStep(s: State, c: nat): State {
    if c < |s.calls| && s.calls[c].phase.Found? then Move(s, c, Storing(s.calls[c].phase.lookup, s.now)) else s
  }

  function StoreStep(s: State, c: nat): State {
    if c < |s.calls| && s.calls[c].phase.Storing? then
      var p := s.calls[c].phase;
      Move(s.(cache := s.cache[s.calls[c].key := Entry(Seen(s, p.lookup), p.storedAt + s.ttl, p.lookup, p.storedAt)]),
           c, Stored(p.lookup, p.storedAt))
    else s
  }

  function ReturnStep(s: State, c: nat): State {
    if c < |s.calls| && s.calls[c].phase.Stored? then
      var p := s.calls[c].phase;
      Move(s, c, Done(Fleet(Seen(s, p.lookup), s.now, p.lookup, p.storedAt)))
    else s
  }

  function Step(s: State, a: Action): State {
    match a
    case Advance(d) => s.(now := s.now + d)
    case Change(table) => s.(versions := s.versions + [table])
    case Begin(key) => BeginStep(s, key)
    case Load(c) => LoadStep(s, c)
    case Check(c) => CheckStep(s, c)
    case Delete(c) => DeleteStep(s, c)
    case Ask(c, ok) => AskStep(s, c, ok)
    case Stamp(c) => StampStep(s, c)
    case Store(c) => StoreStep(s, c)
    case Return(c) => ReturnStep(s, c)
  }

  function Exec(s: State, schedule: seq<Action>): State
    decreases |schedule|
  {
    if schedule == [] then s
    else Step(Exec(s, schedule[..|schedule| - 1]), schedule[|schedule| - 1])
  }

  lemma ExecSnoc(s: State, schedule: seq<Action>, a: Action)
    ensures Exec(s, schedule + [a]) == Step(Exec(s, schedule), a)
  {
    assert (schedule + [a])[..|schedule|] == schedule;
  }

  // ------------------------------------------------------------------- invariant

  /** Lookup i was for this key, found this fleet, and was made between the two times. */
  ghost predicate Vouches(s: State, i: nat, key: string, fleet: string, from: int, to: int) {
    && i < |s.lookups| && s.lookups[i].key == key && s.lookups[i].version < |s.versions|
    && Seen(s, i) == fleet && from <= s.lookups[i].at <= to
  }

  /** An entry repeats what some lookup found, and expires ttl after its stamp. */
  ghost predicate EntryOk(s: State, key: string, e: Entry) {
    && e.fleet != "" && e.expiresAt == e.storedAt + s.ttl && e.storedAt <= s.now
    && e.lookup < |s.lookups| && Vouches(s, e.lookup, key, e.fleet, s.lookups[e.lookup].at, e.storedAt)
  }

  ghost predicate CallOk(s: State, k: Call) {
    && k.begun <= s.now
    && match k.phase
       case Loaded(e) => EntryOk(s, k.key, e)
       case Found(i) => Seen(s, i) != "" && Vouches(s, i, k.key, Seen(s, i), k.begun, s.now)
       case Storing(i, t) => Seen(s, i) != "" && Vouches(s, i, k.key, Seen(s, i), k.begun, t) && t <= s.now
       case Stored(i, t) => Seen(s, i) != "" && Vouches(s, i, k.key, Seen(s, i), k.begun, t) && t <= s.now
       case Done(a) => AnswerOk(s, k, a)
       case _ => true
  }

  /** The staleness bound: the answer is what the store held at a lookup made during this very
      call, or less than ttl plus that lookup's lookup-to-stamp delay before the answer. */
  ghost predicate AnswerOk(s: State, k: Call, a: Answer) {
    match a
    case Static => k.key in s.staticKeys
    case Rejected(EmptyKey) => k.key == ""
    case Rejected(StoreError(i)) => FailedDuring(s, k, i)
    case Rejected(NotFound(i)) => Vouches(s, i, k.key, "", k.begun, s.now)
    case Fleet(fleet, at, i, storedAt) =>
      && fleet != "" && i < |s.lookups| && Vouches(s, i, k.key, fleet, s.lookups[i].at, storedAt)
      && k.begun <= at <= s.now && storedAt <= at
      && (k.begun <= s.lookups[i].at || at - s.lookups[i].at < s.ttl + (storedAt - s.lookups[i].at))
  }

  /** Failure i is of a GET for this call's key, made during the call. */
  ghost predicate FailedDuring(s: State, k: Call, i: nat) {
    i < |s.failures| && s.failures[i].key == k.key && k.begun <= s.failures[i].at <= s.now
  }

  ghost predicate Inv(s: State) {
    && |s.versions| >= 1
    && (forall key :: key in s.cache ==> EntryOk(s, key, s.cache[key]))
    && (forall c :: 0 <= c < |s.calls| ==> CallOk(s, s.calls[c]))
  }

  /** Time passing, the store changing and further lookups take nothing back. */
  ghost predicate Later(s: State, s': State) {
    && s.now <= s'.now && s.ttl == s'.ttl && s.staticKeys == s'.staticKeys
    && s.versions <= s'.versions && s.lookups <= s'.lookups && s.failures <= s'.failures
  }

  lemma VouchesLater(s: State, s': State, i: nat, key: string, fleet: string, from: int, to: int)
    requires Later(s, s') && Vouches(s, i, key, fleet, from, to)
    ensures Vouches(s', i, key, fleet, from, to) && s'.lookups[i] == s.lookups[i] && Seen(s', i) == Seen(s, i)
  {
  }

  lemma EntryLater(s: State, s': State, key: string, e: Entry)
    requires Later(s, s') && EntryOk(s, key, e)
    ensures EntryOk(s', key, e)
  {
    VouchesLater(s, s', e.lookup, key, e.fleet, s.lookups[e.lookup].at, e.storedAt);
  }

  lemma CallLater(s: State, s': State, k: Call)
    requires Later(s, s') && CallOk(s, k)
    ensures CallOk(s', k)
  {
    match k.phase
    case Loaded(e) => EntryLater(s, s', k.key, e);
    case Found(i) => VouchesLater(s, s', i, k.key, Seen(s, i), k.begun, s.now);
    case Storing(i, t) => VouchesLater(s, s', i, k.key, Seen(s, i), k.begun, t);
    case Stored(i, t) => VouchesLater(s, s', i, k.key, Seen(s, i), k.begun, t);
    case Done(Fleet(f, at, i, t)) => VouchesLater(s, s', i, k.key, f, s.lookups[i].at, t);
    case Done(Rejected(NotFound(i))) => VouchesLater(s, s', i, k.key, "", k.begun, s.now);
    case _ =>
  }

  /** A step is sound if it only adds to the past, and what it newly caches or moves is sound. */
  lemma StepSound(s: State, s': State, c: nat)
    requires Inv(s) && Later(s, s') && |s.calls| <= |s'.calls|
    requires forall key :: key in s'.cache && !(key in s.cache && s.cache[key] == s'.cache[key]) ==>
               EntryOk(s', key, s'.cache[key])
    requires forall d :: 0 <= d < |s'.calls| && d != c ==> d < |s.calls| && s'.calls[d] == s.calls[d]
    requires c < |s'.calls| ==> CallOk(s', s'.calls[c])
    ensures Inv(s')
  {
    forall key | key in s'.cache ensures EntryOk(s', key, s'.cache[key]) {
      if key in s.cache && s.cache[key] == s'.cache[key] { EntryLater(s, s', key, s.cache[key]); }
    }
    forall d | 0 <= d < |s'.calls| ensures CallOk(s', s'.calls[d]) {
      var k := s'.calls[d];
      if d != c {
        assert d < |s.calls| && k == s.calls[d];
        CallLater(s, s', k);
      }
    }
  }

  lemma LoadKeepsInv(s: State, c: nat)
    requires Inv(s)
    ensures Inv(LoadStep(s, c))
  {
    if c < |s.calls| {
      assert CallOk(s, s.calls[c]);
      StepSound(s, LoadStep(s, c), c);
    }
  }

  lemma CheckKeepsInv(s: State, c: nat)
    requires Inv(s)
    ensures Inv(CheckStep(s, c))
  {
    if c < |s.calls| {
      assert CallOk(s, s.calls[c]);
      StepSound(s, CheckStep(s, c), c);
    }
  }

  lemma DeleteKeepsInv(s: State, c: nat)
    requires Inv(s)
    ensures Inv(DeleteStep(s, c))
  {
    if c < |s.calls| {
      assert CallOk(s, s.calls[c]);
      StepSound(s, DeleteStep(s, c), c);
    }
  }

  lemma AskKeepsInv(s: State, c: nat, ok: bool)
    requires Inv(s)
    ensures Inv(AskStep(s, c, ok))
  {
    if c < |s.calls| {
      assert CallOk(s, s.calls[c]);
      StepSound(s, AskStep(s, c, ok), c);
    }
  }

  lemma StampKeepsInv(s: State, c: nat)
    requires Inv(s)
    ensures Inv(StampStep(s, c))
  {
    if c < |s.calls| {
      assert CallOk(s, s.calls[c]);
      StepSound(s, StampStep(s, c), c);
    }
  }

  lemma StoreKeepsInv(s: State, c: nat)
    requires Inv(s)
    ensures Inv(StoreStep(s, c))
  {
    if c < |s.calls| {
      assert CallOk(s, s.calls[c]);
      StepSound(s, StoreStep(s, c), c);
    }
  }

  lemma ReturnKeepsInv(s: State, c: nat)
    requires Inv(s)
    ensures Inv(ReturnStep(s, c))
  {
    if c < |s.calls| {
      assert CallOk(s, s.calls[c]);
      StepSound(s, ReturnStep(s, c), c);
    }
  }

  lemma StepKeepsInv(s: State, a: Action)
    requires Inv(s)
    ensures Inv(Step(s, a))
  {
    match a
    case Advance(d) => StepSound(s, Step(s, a), |s.calls|);
    case Change(table) => StepSound(s, Step(s, a), |s.calls|);
    case Begin(key) => StepSound(s, Step(s, a), |s.calls|);
    case Load(c) => LoadKeepsInv(s, c);
    case Check(c) => CheckKeepsInv(s, c);
    case Delete(c) => DeleteKeepsInv(s, c);
    case Ask(c, ok) => AskKeepsInv(s, c, ok);
    case Stamp(c) => StampKeepsInv(s, c);
    case Store(c) => StoreKeepsInv(s, c);
    case Return(c) => ReturnKeepsInv(s, c);
  }

  lemma {:induction false} ExecKeepsInv(s: State, schedule: seq<Action>)
    requires Inv(s)
    ensures Inv(Exec(s, schedule)) && Exec(s, schedule).ttl == s.ttl && Exec(s, schedule).staticKeys == s.staticKeys
    decreases |schedule|
  {
    if schedule != [] {
      ExecKeepsInv(s, schedule[..|schedule| - 1]);
      StepKeepsInv(Exec(s, schedule[..|schedule| - 1]), schedule[|schedule| - 1]);
    }
  }

  /** s is the state after some interleaving of calls, store changes and passing time. */
  ghost predicate Reachable(s0: State, s: State) {
    exists schedule :: s == Exec(s0, schedule)
  }

  /** For every interleaving: an accepted non-static answer of call c is the value the store
      held for its key at some lookup, made during the call or less than ttl plus that lookup's
      lookup-to-stamp delay before the answer, whatever slower calls overwrote or deleted. */
  lemma StalenessBound(now: int, ttl: int, staticKeys: set<string>, table: map<string, string>, s: State, c: nat)
    requires Reachable(Init(now, ttl, staticKeys, table), s)
    requires c < |s.calls| && s.calls[c].phase.Done? && s.calls[c].phase.answer.Fleet?
    ensures var k, a := s.calls[c], s.calls[c].phase.answer;
            && a.lookup < |s.lookups| && s.lookups[a.lookup].key == k.key && s.lookups[a.lookup].version < |s.versions|
            && k.key in s.versions[s.lookups[a.lookup].version] && a.fleet != ""
            && a.fleet == s.versions[s.lookups[a.lookup].version][k.key]
            && s.lookups[a.lookup].at <= a.storedAt <= a.at
            && (k.begun <= s.lookups[a.lookup].at
                || a.at - s.lookups[a.lookup].at < ttl + (a.storedAt - s.lookups[a.lookup].at))
  {
    var schedule :| s == Exec(Init(now, ttl, staticKeys, table), schedule);
    ExecKeepsInv(Init(now, ttl, staticKeys, table), schedule);
    assert CallOk(s, s.calls[c]);
  }

  /** With a zero or negative ttl the cache is never believed: every accepted answer is the
      store's own, asked for during the call. */
  lemma NoTtlNoCache(now: int, ttl: int, staticKeys: set<string>, table: map<string, string>, s: State, c: nat)
    requires Reachable(Init(now, ttl, staticKeys, table), s) && ttl <= 0
    requires c < |s.calls| && s.calls[c].phase.Done? && s.calls[c].phase.answer.Fleet?
    ensures s.calls[c].phase.answer.lookup < |s.lookups|
    ensures s.calls[c].begun <= s.lookups[s.calls[c].phase.answer.lookup].at
  {
    StalenessBound(now, ttl, staticKeys, table, s, c);
  }

  /** Nothing is refused without cause: an empty key, or during the call a GET for its key that
      ended in an error or found no fleet; and only a configured key is accepted without a lookup. */
  lemma RefusedWithCause(now: int, ttl: int, staticKeys: set<string>, table: map<string, string>, s: State, c: nat)
    requires Reachable(Init(now, ttl, staticKeys, table), s) && c < |s.calls| && s.calls[c].phase.Done?
    ensures var k, a := s.calls[c], s.calls[c].phase.answer;
            && (a.Static? ==> k.key in staticKeys)
            && (a.Rejected? ==> match a.reason
                  case EmptyKey => k.key == ""
                  case StoreError(i) => FailedDuring(s, k, i)
                  case NotFound(i) =>
                    && i < |s.lookups| && s.lookups[i].key == k.key && s.lookups[i].version < |s.versions|
                    && k.begun <= s.lookups[i].at <= s.now
                    && var table := s.versions[s.lookups[i].version]; k.key !in table || table[k.key] == "")
  {
    var schedule :| s == Exec(Init(now, ttl, staticKeys, table), schedule);
    ExecKeepsInv(Init(now, ttl, staticKeys, table), schedule);
    assert CallOk(s, s.calls[c]);
  }

  lemma ReachStep(s0: State, s: State, a: Action)
    requires Reachable(s0, s)
    ensures Reachable(s0, Step(s, a))
  {
    var schedule :| s == Exec(s0, schedule);
    ExecSnoc(s0, schedule, a);
  }

  lemma FirstLookup(ttl: int, key: string, fleet: string) returns (s: State)
    requires key != "" && fleet != ""
    ensures Reachable(Init(0, ttl, {}, map[key := fleet]), s)
    ensures s == Init(0, ttl, {}, map[key := fleet]).(calls := [Call(key, 0, Found(0))], lookups := [Lookup(key, 0, 0)])
  {
    var s0 := Init(0, ttl, {}, map[key := fleet]);
    assert s0 == Exec(s0, []);
    ReachStep(s0, s0, Begin(key));
    var s1 := s0.(calls := [Call(key, 0, Start)]);
    assert s1 == Step(s0, Begin(key));
    ReachStep(s0, s1, Load(0));
    var s2 := s0.(calls := [Call(key, 0, Asking)]);
    assert s2 == Step(s1, Load(0));
    ReachStep(s0, s2, Ask(0, true));
    s := Step(s2, Ask(0, true));
    assert s.calls == [Call(key, 0, Found(0))];
  }

  /** A call that looked up `fleet` and was held up for d, while the key was revoked, before
      stamping its entry. */
  lemma SlowCall(ttl: int, key: string, fleet: string, d: nat) returns (s: State)
    requires key != "" && fleet != ""
    ensures Reachable(Init(0, ttl, {}, map[key := fleet]), s)
    ensures s.now == d && s.ttl == ttl && s.staticKeys == {} && |s.calls| == 1
    ensures s.versions == [map[key := fleet], map[]]
    ensures key in s.cache && s.cache[key] == Entry(fleet, d + ttl, 0, d) && s.lookups == [Lookup(key, 0, 0)]
  {
    var s0 := Init(0, ttl, {}, map[key := fleet]);
    var s3 := FirstLookup(ttl, key, fleet);
    ReachStep(s0, s3, Change(map[]));
    var s4 := s3.(versions := [map[key := fleet], map[]]);
    assert s4 == Step(s3, Change(map[]));
    ReachStep(s0, s4, Advance(d));
    var s5 := Step(s4, Advance(d));
    ReachStep(s0, s5, Stamp(0));
    var s6 := Step(s5, Stamp(0));
    ReachStep(s0, s6, Store(0));
    s := Step(s6, Store(0));
  }

  /** The delay is part of the bound: for any delay d, a later call is given an answer whose
      lookup lies ttl - 1 + d back, although the key was revoked right after that lookup. */
  lemma DelayIsNeeded(ttl: int, key: string, fleet: string, d: nat) returns (s: State)
    requires key != "" && fleet != "" && ttl >= 1
    ensures Reachable(Init(0, ttl, {}, map[key := fleet]), s) && |s.calls| == 2
    ensures s.lookups == [Lookup(key, 0, 0)] && s.calls[1].begun == ttl - 1 + d
    ensures s.versions == [map[key := fleet], map[]]
    ensures s.calls[1].phase == Done(Fleet(fleet, ttl - 1 + d, 0, d))
  {
    var s0 := Init(0, ttl, {}, map[key := fleet]);
    var s1 := SlowCall(ttl, key, fleet, d);
    ReachStep(s0, s1, Advance(ttl - 1));
    var s2 := Step(s1, Advance(ttl - 1));
    ReachStep(s0, s2, Begin(key));
    var s3 := Step(s2, Begin(key));
    ReachStep(s0, s3, Load(1));
    ReachStep(s0, Step(s3, Load(1)), Check(1));
    s := Step(Step(s3, Load(1)), Check(1));
  }
}
