/** Alert deduplication: any number of evaluators, a Redis key per vehicle and alert type that
    is set only if absent and expires after five minutes, and an alert table whose exclusion
    constraint keeps two rows of one vehicle and type five minutes apart. */
module AlertDedup {
  import opened Domain

  /** Five minutes in microseconds: the lifetime of a claim and the width of a row's window. */
  const WINDOW: int := 300_000_000

  datatype AlertType = Speeding | LowFuel | EngineOverheat | RouteDeviation
  datatype Key = Key(vehicleId: string, alertType: AlertType)

  // ------------------------------------------------------------------ alert table

  datatype Row = Row(key: Key, created: int)

  /** The constraint's ranges [c, c + 5m) and [t, t + 5m) have a point in common. */
  ghost predicate RangesMeet(c: int, t: int) {
    exists x :: InWindow(x, c) && InWindow(x, t)
  }

  predicate InWindow(x: int, c: int) {
    c <= x < c + WINDOW
  }

  predicate Near(c: int, t: int) {
    c < t + WINDOW && t < c + WINDOW
  }

  lemma RangesMeetIffNear(c: int, t: int)
    ensures RangesMeet(c, t) <==> Near(c, t)
  {
    if Near(c, t) {
      var x := if c <= t then t else c;
      assert InWindow(x, c) && InWindow(x, t);
    }
  }

  predicate Excluded(rows: seq<Row>, k: Key, t: int) {
    exists i :: 0 <= i < |rows| && rows[i].key == k && Near(rows[i].created, t)
  }

  /** INSERT ... ON CONFLICT DO NOTHING: the row, unless the constraint excludes it. */
  function InsertOrNothing(rows: seq<Row>, k: Key, t: int): seq<Row> {
    if Excluded(rows, k, t) then rows else rows + [Row(k, t)]
  }

  ghost predicate Spaced(rows: seq<Row>) {
    forall i, j :: 0 <= i < j < |rows| && rows[i].key == rows[j].key ==> !RangesMeet(rows[i].created, rows[j].created)
  }

  /** Some row of this vehicle and type was created within five minutes of time t. */
  ghost predicate Backed(rows: seq<Row>, k: Key, t: int) {
    exists i :: 0 <= i < |rows| && rows[i].key == k && -WINDOW < rows[i].created - t < WINDOW
  }

  lemma InsertKeepsTable(rows: seq<Row>, k: Key, t: int)
    requires Spaced(rows)
    ensures Spaced(InsertOrNothing(rows, k, t)) && Backed(InsertOrNothing(rows, k, t), k, t)
  {
    if !Excluded(rows, k, t) {
      var rows' := rows + [Row(k, t)];
      forall i, j | 0 <= i < j < |rows'| && rows'[i].key == rows'[j].key
        ensures !RangesMeet(rows'[i].created, rows'[j].created)
      {
        if j == |rows| { RangesMeetIffNear(rows[i].created, t); }
      }
      assert rows'[|rows|] == Row(k, t);
    }
  }

  lemma BackedStays(rows: seq<Row>, k: Key, t: int, k': Key, t': int)
    requires Backed(rows, k, t)
    ensures Backed(InsertOrNothing(rows, k', t'), k, t)
  {
    var i :| 0 <= i < |rows| && rows[i].key == k && -WINDOW < rows[i].created - t < WINDOW;
    assert InsertOrNothing(rows, k', t')[i] == rows[i];
  }

  // ------------------------------------------------------------------ the protocol

  /** A Redis key. Its stored value is a constant, so `owner` is known only to the proof:
      the evaluator whose claim set it, or nobody when the reply to the claim was lost. */
  datatype Lease = Lease(expiry: int, owner: Option<nat>)

  /** Where an evaluator stands with the rule it is working on. */
  datatype Phase =
    | Idle
    | Claimed(key: Key, at: int)      // the claim succeeded, the insert is outstanding
    | Failed(key: Key, at: int)       // the insert failed, the release is outstanding
    | Stored(key: Key, attempt: int)  // the insert returned nil, the publish is outstanding

  datatype Publication = Publication(key: Key, attempt: int)
  datatype Release = Release(caller: nat, owner: Option<nat>)

  datatype State = State(
    now: int, leases: map<Key, Lease>, rows: seq<Row>, workers: seq<Phase>,
    published: seq<Publication>, released: seq<Release>)

  datatype Action =
    | Advance(d: nat)
    | Claim(w: nat, k: Key)
    | ClaimError(w: nat, k: Key, applied: bool)     // SETNX failed for the caller, perhaps not for Redis
    | Insert(w: nat, t: int)                        // t is the database's own clock
    | InsertError(w: nat, t: int, committed: bool)
    | Delete(w: nat, applied: bool)
    | Publish(w: nat)
    | OtherInsert(k: Key, t: int)                   // the serving side inserts into the same table

  function Init(workers: nat, now: int): State {
    State(now, map[], [], seq(workers, _ => Idle), [], [])
  }

  predicate Live(s: State, k: Key) {
    k in s.leases && s.now < s.leases[k].expiry
  }

  predicate At(s: State, w: nat, p: Phase) {
    w < |s.workers| && s.workers[w] == p
  }

  function ClaimStep(s: State, w: nat, k: Key): State {
    if At(s, w, Idle) && !Live(s, k) then
      s.(leases := s.leases[k := Lease(s.now + WINDOW, Some(w))], workers := s.workers[w := Claimed(k, s.now)])
    else s
  }

  function ClaimErrorStep(s: State, w: nat, k: Key, applied: bool): State {
    if At(s, w, Idle) && !Live(s, k) && applied then
      s.(leases := s.leases[k := Lease(s.now + WINDOW, None)])
    else s
  }

  function InsertStep(s: State, w: nat, t: int): State {
    if w < |s.workers| && s.workers[w].Claimed? then
      var k := s.workers[w].key;
      s.(rows := InsertOrNothing(s.rows, k, t), workers := s.workers[w := Stored(k, t)])
    else s
  }

  function InsertErrorStep(s: State, w: nat, t: int, committed: bool): State {
    if w < |s.workers| && s.workers[w].Claimed? then
      var p := s.workers[w];
      s.(rows := if committed then InsertOrNothing(s.rows, p.key, t) else s.rows,
         workers := s.workers[w := Failed(p.key, p.at)])
    else s
  }

  function DeleteStep(s: State, w: nat, applied: bool): State {
    if w < |s.workers| && s.workers[w].Failed? then
      var k := s.workers[w].key;
      var s' := s.(workers := s.workers[w := Idle]);
      if applied && Live(s, k) then
        s'.(leases := s.leases - {k}, released := s.released + [Release(w, s.leases[k].owner)])
      else s'
    else s
  }

  function PublishStep(s: State, w: nat): State {
    if w < |s.workers| && s.workers[w].Stored? then
      s.(published := s.published + [Publication(s.workers[w].key, s.workers[w].attempt)],
         workers := s.workers[w := Idle])
    else s
  }

  function Step(s: State, a: Action): State {
    match a
    case Advance(d) => s.(now := s.now + d)
    case Claim(w, k) => ClaimStep(s, w, k)
    case ClaimError(w, k, applied) => ClaimErrorStep(s, w, k, applied)
    case Insert(w, t) => InsertStep(s, w, t)
    case InsertError(w, t, committed) => InsertErrorStep(s, w, t, committed)
    case Delete(w, applied) => DeleteStep(s, w, applied)
    case Publish(w) => PublishStep(s, w)
    case OtherInsert(k, t) => s.(rows := InsertOrNothing(s.rows, k, t))
  }

  function Exec(s: State, schedule: seq<Action>): State
    decreases |schedule|
  {
    if schedule == [] then s
    else Step(Exec(s, schedule[..|schedule| - 1]), schedule[|schedule| - 1])
  }

  lemma ExecSnoc(s: State, schedule: seq<Action>, a: Action)
    ensures Exec(s, schedule + [a]) == Step(Exec(s, schedule), a)
  {
    assert (schedule + [a])[..|schedule|] == schedule;
  }

  lemma {:induction false} ExecAppend(s: State, first: seq<Action>, second: seq<Action>)
    ensures Exec(s, first + second) == Exec(Exec(s, first), second)
    decreases |second|
  {
    if second == [] {
      assert first + second == first;
    } else {
      var n := |second| - 1;
      ExecAppend(s, first, second[..n]);
      assert (first + second)[..|first| + n] == first + second[..n];
    }
  }

  ghost predicate Reachable(s0: State, s: State) {
    exists schedule :: s == Exec(s0, schedule)
  }

  lemma ReachStep(s0: State, s: State, a: Action)
    requires Reachable(s0, s)
    ensures Reachable(s0, Step(s, a))
  {
    var schedule :| s == Exec(s0, schedule);
    ExecSnoc(s0, schedule, a);
  }

  /** What the failures may do behind the evaluator's back: a claim that reported an error may
      have set the key all the same, and an insert that did may have stored its row. */
  lemma FailuresMayApply(s: State, w: nat, k: Key, t: int)
    requires w < |s.workers|
    ensures s.workers[w] == Idle && !(k in s.leases && s.now < s.leases[k].expiry) ==>
              var s' := Step(s, ClaimError(w, k, true));
              s'.workers == s.workers && k in s'.leases && s'.leases[k] == Lease(s.now + 300_000_000, None)
    ensures s.workers[w].Claimed? && s.rows == [] ==>
              var s' := Step(s, InsertError(w, t, true));
              s'.workers[w].Failed? && s'.rows == [Row(s.workers[w].key, t)]
    ensures s.rows == [] ==> Step(s, OtherInsert(k, t)).rows == [Row(k, t)]
  {
  }

  // -------------------------------------------- what holds whatever fails or comes late

  ghost predicate TableInv(s: State) {
    && Spaced(s.rows)
    && (forall w :: 0 <= w < |s.workers| && s.workers[w].Stored? ==>
          Backed(s.rows, s.workers[w].key, s.workers[w].attempt))
    && (forall i :: 0 <= i < |s.published| ==> Backed(s.rows, s.published[i].key, s.published[i].attempt))
  }

  lemma InsertKeepsTableInv(s: State, k: Key, t: int)
    requires TableInv(s)
    ensures TableInv(s.(rows := InsertOrNothing(s.rows, k, t)))
  {
    InsertKeepsTable(s.rows, k, t);
    forall w | 0 <= w < |s.workers| && s.workers[w].Stored?
      ensures Backed(InsertOrNothing(s.rows, k, t), s.workers[w].key, s.workers[w].attempt)
    {
      BackedStays(s.rows, s.workers[w].key, s.workers[w].attempt, k, t);
    }
    forall i | 0 <= i < |s.published|
      ensures Backed(InsertOrNothing(s.rows, k, t), s.published[i].key, s.published[i].attempt)
    {
      BackedStays(s.rows, s.published[i].key, s.published[i].attempt, k, t);
    }
  }

  lemma StepKeepsTableInv(s: State, a: Action)
    requires TableInv(s)
    ensures TableInv(Step(s, a))
  {
    match a
    case Insert(w, t) =>
      if w < |s.workers| && s.workers[w].Claimed? {
        InsertKeepsTableInv(s, s.workers[w].key, t);
        InsertKeepsTable(s.rows, s.workers[w].key, t);
      }
    case InsertError(w, t, _) =>
      if w < |s.workers| && s.workers[w].Claimed? { InsertKeepsTableInv(s, s.workers[w].key, t); }
    case OtherInsert(k, t) => InsertKeepsTableInv(s, k, t);
    case _ =>
  }

  lemma {:induction false} ExecKeepsTableInv(s: State, schedule: seq<Action>)
    requires TableInv(s)
    ensures TableInv(Exec(s, schedule))
    decreases |schedule|
  {
    if schedule != [] {
      ExecKeepsTableInv(s, schedule[..|schedule| - 1]);
      StepKeepsTableInv(Exec(s, schedule[..|schedule| - 1]), schedule[|schedule| - 1]);
    }
  }

  /** Whatever the delays, lost replies, failed releases and expired claims: two rows of one
      vehicle and type are at least five minutes apart. */
  lemma RowsFiveMinutesApart(workers: nat, start: int, s: State, i: nat, j: nat)
    requires Reachable(Init(workers, start), s) && i < j < |s.rows| && s.rows[i].key == s.rows[j].key
    ensures s.rows[i].created + 300_000_000 <= s.rows[j].created
            || s.rows[j].created + 300_000_000 <= s.rows[i].created
  {
    var schedule :| s == Exec(Init(workers, start), schedule);
    ExecKeepsTableInv(Init(workers, start), schedule);
    RangesMeetIffNear(s.rows[i].created, s.rows[j].created);
  }

  /** ... and every published alert is backed by a stored row of its vehicle and type, created
      within five minutes of the insert it was published for. */
  lemma PublishedIsBacked(workers: nat, start: int, s: State, i: nat)
    requires Reachable(Init(workers, start), s) && i < |s.published|
    ensures exists r :: 0 <= r < |s.rows| && s.rows[r].key == s.published[i].key
              && -300_000_000 < s.rows[r].created - s.published[i].attempt < 300_000_000
  {
    var schedule :| s == Exec(Init(workers, start), schedule);
    ExecKeepsTableInv(Init(workers, start), schedule);
    assert Backed(s.rows, s.published[i].key, s.published[i].attempt);
  }

  // ---------------------------------------------- exclusion, when nobody overstays a claim

  predicate Busy(p: Phase) {
    p.Claimed? || p.Failed?
  }

  /** Every evaluator between its claim and its insert or release is within the claim's TTL. */
  ghost predicate Timely(s: State) {
    forall w :: 0 <= w < |s.workers| && Busy(s.workers[w]) ==> s.now < s.workers[w].at + WINDOW
  }

  ghost predicate TimelyRun(s0: State, schedule: seq<Action>) {
    forall n :: 0 <= n <= |schedule| ==> Timely(Exec(s0, schedule[..n]))
  }

  ghost predicate ReachableTimely(s0: State, s: State) {
    exists schedule :: TimelyRun(s0, schedule) && s == Exec(s0, schedule)
  }

  /** A busy evaluator's claim is in Redis, under its name and with its full lifetime. */
  ghost predicate LeaseInv(s: State) {
    && (forall w :: 0 <= w < |s.workers| && Busy(s.workers[w]) ==>
          s.workers[w].key in s.leases && s.leases[s.workers[w].key] == Lease(s.workers[w].at + WINDOW, Some(w)))
    && (forall i :: 0 <= i < |s.released| ==> s.released[i].owner == Some(s.released[i].caller))
  }

  lemma ClaimKeepsLeaseInv(s: State, w: nat, k: Key, applied: bool)
    requires LeaseInv(s) && Timely(s)
    ensures LeaseInv(ClaimStep(s, w, k)) && LeaseInv(ClaimErrorStep(s, w, k, applied))
  {
    forall v | 0 <= v < |s.workers| && Busy(s.workers[v]) && s.workers[v].key == k
      ensures Live(s, k)
    {
    }
  }

  lemma DeleteKeepsLeaseInv(s: State, w: nat, applied: bool)
    requires LeaseInv(s) && Timely(s)
    ensures LeaseInv(DeleteStep(s, w, applied))
  {
  }

  lemma StepKeepsLeaseInv(s: State, a: Action)
    requires LeaseInv(s) && Timely(s)
    ensures LeaseInv(Step(s, a))
  {
    match a
    case Claim(w, k) => ClaimKeepsLeaseInv(s, w, k, false);
    case ClaimError(w, k, applied) => ClaimKeepsLeaseInv(s, w, k, applied);
    case Delete(w, applied) => DeleteKeepsLeaseInv(s, w, applied);
    case _ =>
  }

  lemma {:induction false} TimelyRunKeepsLeaseInv(s0: State, schedule: seq<Action>)
    requires LeaseInv(s0) && TimelyRun(s0, schedule)
    ensures LeaseInv(Exec(s0, schedule))
    decreases |schedule|
  {
    if schedule != [] {
      var n := |schedule| - 1;
      forall m | 0 <= m <= n ensures Timely(Exec(s0, schedule[..n][..m])) {
        assert schedule[..n][..m] == schedule[..m];
      }
      TimelyRunKeepsLeaseInv(s0, schedule[..n]);
      assert Timely(Exec(s0, schedule[..n]));
      StepKeepsLeaseInv(Exec(s0, schedule[..n]), schedule[n]);
    }
  }

  /** If every evaluator inserts or releases within the TTL of its claim, at most one of them
      is ever between the two for a given vehicle and type. */
  lemma ClaimsExclude(workers: nat, start: int, s: State, v: nat, w: nat)
    requires ReachableTimely(Init(workers, start), s)
    requires v < |s.workers| && w < |s.workers| && Busy(s.workers[v]) && Busy(s.workers[w])
    requires s.workers[v].key == s.workers[w].key
    ensures v == w
  {
    var schedule :| TimelyRun(Init(workers, start), schedule) && s == Exec(Init(workers, start), schedule);
    TimelyRunKeepsLeaseInv(Init(workers, start), schedule);
    assert s.leases[s.workers[v].key].owner == Some(v);
    assert s.leases[s.workers[w].key].owner == Some(w);
  }

  /** ... and no release deletes another evaluator's claim. */
  lemma ReleasesAreOwn(workers: nat, start: int, s: State, i: nat)
    requires ReachableTimely(Init(workers, start), s) && i < |s.released|
    ensures s.released[i].owner == Some(s.released[i].caller)
  {
    var schedule :| TimelyRun(Init(workers, start), schedule) && s == Exec(Init(workers, start), schedule);
    TimelyRunKeepsLeaseInv(Init(workers, start), schedule);
  }

  /** The TTL is exactly what the guarantee rests on: from any reachable state with a busy
      evaluator and an idle one, letting the clock pass the claim's lifetime lets the idle one
      into the same vehicle and type, ... */
  lemma OverstayBreaksExclusion(s0: State, s: State, w: nat, v: nat) returns (s': State)
    requires Reachable(s0, s)
    requires w < |s.workers| && v < |s.workers| && v != w && Busy(s.workers[w]) && s.workers[v] == Idle
    ensures Reachable(s0, s') && |s'.workers| == |s.workers| && s'.workers[w] == s.workers[w]
    ensures s'.workers[v] == Claimed(s.workers[w].key, s'.now)
    ensures s'.released == s.released && Live(s', s.workers[w].key) && s'.leases[s.workers[w].key].owner == Some(v)
  {
    var k := s.workers[w].key;
    var d: nat := if Live(s, k) then s.leases[k].expiry - s.now else 0;
    ReachStep(s0, s, Advance(d));
    ReachStep(s0, Step(s, Advance(d)), Claim(v, k));
    s' := Step(Step(s, Advance(d)), Claim(v, k));
  }

  /** ... and if the late evaluator's insert then fails, its release deletes the other's claim. */
  lemma OverstayReleasesAnother(s0: State, s: State, w: nat, v: nat, t: int) returns (s': State)
    requires Reachable(s0, s)
    requires w < |s.workers| && v < |s.workers| && v != w && s.workers[w].Claimed? && s.workers[v] == Idle
    ensures Reachable(s0, s') && |s'.released| == |s.released| + 1
    ensures s'.released[|s.released|] == Release(w, Some(v))
  {
    var s1 := OverstayBreaksExclusion(s0, s, w, v);
    var s2 := Step(s1, InsertError(w, t, false));
    ReachStep(s0, s1, InsertError(w, t, false));
    ReachStep(s0, s2, Delete(w, true));
    s' := Step(s2, Delete(w, true));
  }
}
