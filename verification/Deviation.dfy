/** The route-deviation detector for one vehicle: its flag, its ten-minute key per trip, and
    the vehicle's ROUTE_DEVIATION rows, with operators resolving alerts at any moment. */
module Deviation {
  import opened Domain
  import AlertDedup

  /** Ten minutes in microseconds. */
  const CLAIM_TTL: int := 600_000_000

  datatype Row = Row(trip: string, claimedAt: int, created: int, resolved: bool)

  /** Where the single detector goroutine stands within `checkTrip`. */
  datatype Phase =
    | Idle
    | Deviating(trip: string)            // the flag is written, the key not yet claimed
    | Claimed(trip: string, at: int)     // the key is claimed, the row not yet inserted
    | OnRoute(trip: string)              // the flag is written, alerts not yet resolved
    | Resolved(trip: string)             // alerts are resolved, the key not yet deleted

  datatype State = State(now: int, flag: Option<bool>, keys: map<string, int>, rows: seq<Row>, phase: Phase)

  datatype Action =
    | Advance(d: nat)
    | SeeDeviated(trip: string, written: bool)    // SET deviation "true"
    | Claim(answered: bool, applied: bool)        // SETNX; an unanswered one may still be applied
    | Insert(created: int, ok: bool)
    | SeeOnRoute(trip: string, written: bool)     // SET deviation "false"
    | AutoResolve(ok: bool)
    | DeleteKey(ok: bool)
    | OperatorResolve(i: nat)

  function Init(now: int): State {
    State(now, None, map[], [], Idle)
  }

  predicate Live(s: State, trip: string) {
    trip in s.keys && s.now < s.keys[trip]
  }

  function ClaimStep(s: State, answered: bool, applied: bool): State {
    if !s.phase.Deviating? then s
    else
      var trip := s.phase.trip;
      if Live(s, trip) || !(answered || applied) then s.(phase := Idle)
      else s.(keys := s.keys[trip := s.now + CLAIM_TTL], phase := if answered then Claimed(trip, s.now) else Idle)
  }

  /** The table's exclusion window, as for every alert type; here a conflict is an error. */
  predicate Excluded(rows: seq<Row>, created: int) {
    exists i :: 0 <= i < |rows| && AlertDedup.Near(rows[i].created, created)
  }

  function InsertStep(s: State, created: int, ok: bool): State {
    if !s.phase.Claimed? then s
    else if ok && !Excluded(s.rows, created) then
      s.(rows := s.rows + [Row(s.phase.trip, s.phase.at, created, false)], phase := Idle)
    else s.(phase := Idle)
  }

  function AllResolved(rows: seq<Row>): (r: seq<Row>)
    ensures |r| == |rows| && forall i :: 0 <= i < |r| ==> r[i] == rows[i].(resolved := true)
  {
    seq(|rows|, i requires 0 <= i < |rows| => rows[i].(resolved := true))
  }

  function ResolveStep(s: State, ok: bool): State {
    if !s.phase.OnRoute? then s
    else if ok then s.(rows := AllResolved(s.rows), phase := Resolved(s.phase.trip))
    else s.(phase := Idle)
  }

  function DeleteStep(s: State, ok: bool): State {
    if !s.phase.Resolved? then s
    else s.(keys := if ok then s.keys - {s.phase.trip} else s.keys, phase := Idle)
  }

  function Step(s: State, a: Action): State {
    match a
    case Advance(d) => s.(now := s.now + d)
    case SeeDeviated(trip, written) =>
      if s.phase.Idle? then s.(flag := if written then Some(true) else s.flag, phase := Deviating(trip)) else s
    case Claim(answered, applied) => ClaimStep(s, answered, applied)
    case Insert(created, ok) => InsertStep(s, created, ok)
    case SeeOnRoute(trip, written) =>
      if s.phase.Idle? then s.(flag := if written then Some(false) else s.flag, phase := OnRoute(trip)) else s
    case AutoResolve(ok) => ResolveStep(s, ok)
    case DeleteKey(ok) => DeleteStep(s, ok)
    case OperatorResolve(i) => if i < |s.rows| then s.(rows := s.rows[i := s.rows[i].(resolved := true)]) else s
  }

  function Exec(s: State, schedule: seq<Action>): State
    decreases |schedule|
  {
    if schedule == [] then s
    else Step(Exec(s, schedule[..|schedule| - 1]), schedule[|schedule| - 1])
  }

  lemma ExecSnoc(s: State, schedule: seq<Action>, a: Action)
    ensures Exec(s, schedule + [a]) == Step(Exec(s, schedule), a)
  {
    assert (schedule + [a])[..|schedule|] == schedule;
  }

  // ------------------------------------------------------------- spacing of open alerts

  ghost predicate Open(s: State, i: int) {
    0 <= i < |s.rows| && !s.rows[i].resolved
  }

  /** While an open alert's claim is younger than its lifetime, its key is still there; the key
      only goes early right after everything open was resolved. */
  ghost predicate KeyInv(s: State) {
    && (forall i :: Open(s, i) && s.now < s.rows[i].claimedAt + CLAIM_TTL ==>
          s.rows[i].trip in s.keys && s.keys[s.rows[i].trip] == s.rows[i].claimedAt + CLAIM_TTL)
    && (s.phase.Claimed? ==>
          && (s.now < s.phase.at + CLAIM_TTL ==>
               s.phase.trip in s.keys && s.keys[s.phase.trip] == s.phase.at + CLAIM_TTL)
          && forall i :: Open(s, i) && s.rows[i].trip == s.phase.trip ==> s.rows[i].claimedAt + CLAIM_TTL <= s.phase.at)
    && (s.phase.Resolved? ==> forall i :: !Open(s, i))
  }

  ghost predicate SpacedInv(s: State) {
    forall i, j :: i < j && Open(s, i) && Open(s, j) && s.rows[i].trip == s.rows[j].trip ==>
      s.rows[i].claimedAt + CLAIM_TTL <= s.rows[j].claimedAt
  }

  lemma ClaimKeepsKeys(s: State, answered: bool, applied: bool)
    requires KeyInv(s)
    ensures KeyInv(ClaimStep(s, answered, applied))
  {
    var s' := ClaimStep(s, answered, applied);
    forall i | Open(s', i) ensures Open(s, i) {}
  }

  /** No step but an insert opens an alert, so the spacing stays. */
  lemma SpacingShrinks(s: State, s': State)
    requires SpacedInv(s) && |s'.rows| == |s.rows|
    requires forall i :: 0 <= i < |s.rows| ==> s'.rows[i] == s.rows[i] || s'.rows[i] == s.rows[i].(resolved := true)
    ensures SpacedInv(s')
  {
    forall i | Open(s', i) ensures Open(s, i) && s'.rows[i] == s.rows[i] {}
  }

  /** Time passing, an operator's resolve and the start of a check leave the keys alone. */
  lemma KeysStay(s: State, s': State)
    requires KeyInv(s) && |s'.rows| == |s.rows| && s'.keys == s.keys && s.now <= s'.now
    requires s'.phase == s.phase || s'.phase.Deviating? || s'.phase.OnRoute?
    requires forall i :: 0 <= i < |s.rows| ==> s'.rows[i] == s.rows[i] || s'.rows[i] == s.rows[i].(resolved := true)
    ensures KeyInv(s')
  {
    forall i | Open(s', i) ensures Open(s, i) && s'.rows[i] == s.rows[i] {}
  }

  lemma InsertKeepsSpacing(s: State, created: int, ok: bool)
    requires KeyInv(s) && SpacedInv(s)
    ensures KeyInv(InsertStep(s, created, ok)) && SpacedInv(InsertStep(s, created, ok))
  {
    var s' := InsertStep(s, created, ok);
    forall i | Open(s', i) && i < |s.rows| ensures Open(s, i) && s'.rows[i] == s.rows[i] {}
  }

  lemma ResolveKeepsSpacing(s: State, ok: bool)
    requires KeyInv(s) && SpacedInv(s)
    ensures KeyInv(ResolveStep(s, ok)) && SpacedInv(ResolveStep(s, ok))
  {
    var s' := ResolveStep(s, ok);
    forall i | Open(s', i) ensures Open(s, i) && s'.rows[i] == s.rows[i] {}
  }

  lemma DeleteKeepsSpacing(s: State, ok: bool)
    requires KeyInv(s) && SpacedInv(s)
    ensures KeyInv(DeleteStep(s, ok)) && SpacedInv(DeleteStep(s, ok))
  {
    var s' := DeleteStep(s, ok);
    forall i | Open(s', i) ensures Open(s, i) {}
  }

  lemma StepKeepsSpacing(s: State, a: Action)
    requires KeyInv(s) && SpacedInv(s)
    ensures KeyInv(Step(s, a)) && SpacedInv(Step(s, a))
  {
    match a
    case Claim(answered, applied) =>
      ClaimKeepsKeys(s, answered, applied);
      SpacingShrinks(s, Step(s, a));
    case Insert(created, ok) => InsertKeepsSpacing(s, created, ok);
    case AutoResolve(ok) => ResolveKeepsSpacing(s, ok);
    case DeleteKey(ok) => DeleteKeepsSpacing(s, ok);
    case _ =>
      KeysStay(s, Step(s, a));
      SpacingShrinks(s, Step(s, a));
  }

  lemma {:induction false} ExecKeepsSpacing(s: State, schedule: seq<Action>)
    requires KeyInv(s) && SpacedInv(s)
    ensures KeyInv(Exec(s, schedule)) && SpacedInv(Exec(s, schedule))
    decreases |schedule|
  {
    if schedule != [] {
      ExecKeepsSpacing(s, schedule[..|schedule| - 1]);
      StepKeepsSpacing(Exec(s, schedule[..|schedule| - 1]), schedule[|schedule| - 1]);
    }
  }

  ghost predicate Reachable(now: int, s: State) {
    exists schedule :: s == Exec(Init(now), schedule)
  }

  /** Over any run of checks, failures and operator resolves: two alerts of one trip that are
      both open were claimed at least ten minutes apart. */
  lemma OpenAlertsTenMinutesApart(now: int, s: State, i: nat, j: nat)
    requires Reachable(now, s) && i < j && Open(s, i) && Open(s, j) && s.rows[i].trip == s.rows[j].trip
    ensures s.rows[i].claimedAt + 600_000_000 <= s.rows[j].claimedAt
  {
    var schedule :| s == Exec(Init(now), schedule);
    ExecKeepsSpacing(Init(now), schedule);
  }

  // ----------------------------------------------------------- the flag and the alerts

  /** The writes this direction rests on: the flag and the auto-resolve. Claims, inserts and
      key deletions may fail. */
  predicate Written(a: Action) {
    match a
    case SeeDeviated(_, written) => written
    case SeeOnRoute(_, written) => written
    case AutoResolve(ok) => ok
    case _ => true
  }

  ghost predicate FlagInv(s: State) {
    && (s.flag == Some(false) && !s.phase.OnRoute? ==> forall i :: !Open(s, i))
    && (s.flag == None ==> forall i :: !Open(s, i))
    && (s.phase.Deviating? || s.phase.Claimed? ==> s.flag == Some(true))
    && (s.phase.OnRoute? || s.phase.Resolved? ==> s.flag == Some(false))
  }

  lemma StepKeepsFlag(s: State, a: Action)
    requires FlagInv(s) && Written(a)
    ensures FlagInv(Step(s, a))
  {
    var s' := Step(s, a);
    forall i | Open(s', i) && i < |s.rows| ensures Open(s, i) {}
  }

  lemma {:induction false} ExecKeepsFlag(now: int, schedule: seq<Action>)
    requires forall k :: 0 <= k < |schedule| ==> Written(schedule[k])
    ensures FlagInv(Exec(Init(now), schedule))
    decreases |schedule|
  {
    if schedule != [] {
      ExecKeepsFlag(now, schedule[..|schedule| - 1]);
      StepKeepsFlag(Exec(Init(now), schedule[..|schedule| - 1]), schedule[|schedule| - 1]);
    }
  }

  ghost predicate ReachableWritten(now: int, s: State) {
    exists schedule :: (forall k :: 0 <= k < |schedule| ==> Written(schedule[k])) && s == Exec(Init(now), schedule)
  }

  /** With those writes successful, a vehicle whose flag reads false between checks has no open
      ROUTE_DEVIATION alert. */
  lemma OnRouteMeansNothingOpen(now: int, s: State, i: nat)
    requires ReachableWritten(now, s) && s.phase.Idle? && s.flag == Some(false)
    ensures !Open(s, i)
  {
    var schedule :| (forall k :: 0 <= k < |schedule| ==> Written(schedule[k])) && s == Exec(Init(now), schedule);
    ExecKeepsFlag(now, schedule);
  }

  /** Exactly when: a finished auto-resolve leaves nothing open if and only if it succeeded or
      there was nothing to resolve. */
  lemma AutoResolveExact(s: State, ok: bool)
    requires s.phase.OnRoute?
    ensures (forall i :: !Open(Step(s, AutoResolve(ok)), i)) <==> ok || forall i :: !Open(s, i)
  {
    var s' := Step(s, AutoResolve(ok));
    if !ok {
      forall i ensures Open(s', i) <==> Open(s, i) {}
    }
  }

  /** An operator's resolve concerns one alert. */
  lemma OperatorResolveExact(s: State, i: nat, j: int)
    ensures Open(Step(s, OperatorResolve(i)), j) <==> Open(s, j) && j != i
  {
  }

  lemma ReachStep(now: int, s: State, a: Action)
    requires ReachableWritten(now, s) && Written(a)
    ensures ReachableWritten(now, Step(s, a))
  {
    var schedule :| (forall k :: 0 <= k < |schedule| ==> Written(schedule[k])) && s == Exec(Init(now), schedule);
    ExecSnoc(Init(now), schedule, a);
  }

  /** One check that finds the vehicle off its route, undisturbed. */
  function DeviatedCheck(s: State, trip: string, written: bool, claim: (bool, bool), created: int, ok: bool): State {
    Step(Step(Step(s, SeeDeviated(trip, written)), Claim(claim.0, claim.1)), Insert(created, ok))
  }

  /** Exactly when such a check leaves an open alert: there was one before, or the key was free,
      the claim was answered, and the insert succeeded outside the exclusion window. */
  lemma DeviatedCheckExact(s: State, trip: string, written: bool, claim: (bool, bool), created: int, ok: bool)
    requires s.phase.Idle?
    ensures DeviatedCheck(s, trip, written, claim, created, ok).phase.Idle?
    ensures (exists i :: Open(DeviatedCheck(s, trip, written, claim, created, ok), i))
            <==> (exists i :: Open(s, i)) || (!Live(s, trip) && claim.0 && ok && !Excluded(s.rows, created))
  {
    var s' := DeviatedCheck(s, trip, written, claim, created, ok);
    if !Live(s, trip) && claim.0 && ok && !Excluded(s.rows, created) {
      assert s'.rows == s.rows + [Row(trip, s.now, created, false)];
      assert Open(s', |s.rows|);
    } else {
      assert s'.rows == s.rows;
      forall i ensures Open(s', i) <==> Open(s, i) {}
    }
  }

  /** The shortest time between two checks of a trip, one second. */
  const TICK: int := 1_000_000

  /** A first deviation at time 0, back on route a tick later: one resolved row, no key. */
  lemma ThereAndBack(trip: string) returns (s: State)
    ensures ReachableWritten(0, s)
    ensures s.now == TICK && s.rows == [Row(trip, 0, 0, true)] && s.phase.Idle? && trip !in s.keys
  {
    var s0 := FirstAlert(trip);
    ReachStep(0, s0, Advance(TICK));
    var s1 := Step(s0, Advance(TICK));
    ReachStep(0, s1, SeeOnRoute(trip, true));
    var s2 := Step(s1, SeeOnRoute(trip, true));
    ReachStep(0, s2, AutoResolve(true));
    var s3 := Step(s2, AutoResolve(true));
    assert s3.rows == [Row(trip, 0, 0, true)];
    ReachStep(0, s3, DeleteKey(true));
    s := Step(s3, DeleteKey(true));
  }

  lemma ReachDeviated(now: int, s: State, trip: string, created: int) returns (s': State)
    requires ReachableWritten(now, s)
    ensures ReachableWritten(now, s') && s' == DeviatedCheck(s, trip, true, (true, true), created, true)
  {
    ReachStep(now, s, SeeDeviated(trip, true));
    var s1 := Step(s, SeeDeviated(trip, true));
    ReachStep(now, s1, Claim(true, true));
    var s2 := Step(s1, Claim(true, true));
    ReachStep(now, s2, Insert(created, true));
    s' := Step(s2, Insert(created, true));
  }

  lemma FirstAlert(trip: string) returns (s: State)
    ensures ReachableWritten(0, s)
    ensures s.now == 0 && s.rows == [Row(trip, 0, 0, false)] && s.phase.Idle?
  {
    assert Init(0) == Exec(Init(0), []);
    s := ReachDeviated(0, Init(0), trip, 0);
  }

  /** So a deviated vehicle need not have an open alert even with every write accepted: leaving
      the route again within five minutes, the exclusion window refuses the new row while the
      key is kept, and no check can raise an alert until the key expires. */
  lemma DeviatedWithoutAlert(trip: string) returns (s: State)
    ensures ReachableWritten(0, s)
    ensures s.phase.Idle? && s.flag == Some(true) && Live(s, trip) && forall i :: !Open(s, i)
  {
    var s0 := ThereAndBack(trip);
    ReachStep(0, s0, Advance(TICK));
    var s1 := Step(s0, Advance(TICK));
    s := ReachDeviated(0, s1, trip, s1.now);
    assert AlertDedup.Near(s1.rows[0].created, s1.now);
  }
}
