/** The heartbeat monitor for one vehicle: the telemetry hash that expires thirty seconds after
    its last write, the stored online status, and the events emitted. */
module Heartbeat {
  import opened Domain

  /** Milliseconds. */
  const STATE_TTL: int := 30_000

  datatype Status = Online | Offline

  /** The hash: its received_at field, in whole seconds, and when it was written. */
  datatype Hash = Hash(receivedAt: int, writtenAt: int)

  datatype State = State(now: int, hash: Option<Hash>, status: Option<Status>, emitted: seq<Status>)

  /** HGetFails: the read errs or does not parse, and the check gives up. GetFails: the status
      reads as empty. SetFails: the new status is not stored; the event goes out all the same. */
  datatype Fault = NoFault | HGetFails | GetFails | SetFails

  datatype Action = Advance(d: nat) | WriteState(receivedAt: int) | Check(threshold: int, fault: Fault)

  predicate Live(s: State) {
    s.hash.Some? && s.now < s.hash.value.writtenAt + STATE_TTL
  }

  /** What the check finds: no live hash, or one whose receipt is too long ago. */
  predicate Silent(s: State, threshold: int) {
    !Live(s) || s.now - s.hash.value.receivedAt * 1000 > threshold
  }

  function Verdict(s: State, threshold: int): Status {
    if Silent(s, threshold) then Offline else Online
  }

  function Become(s: State, status: Status, fault: Fault): State {
    if s.status == Some(status) && !fault.GetFails? then s
    else s.(status := if fault.SetFails? then s.status else Some(status), emitted := s.emitted + [status])
  }

  function CheckStep(s: State, threshold: int, fault: Fault): State {
    if fault.HGetFails? then s else Become(s, Verdict(s, threshold), fault)
  }

  function Step(s: State, a: Action): State {
    match a
    case Advance(d) => s.(now := s.now + d)
    case WriteState(receivedAt) => s.(hash := Some(Hash(receivedAt, s.now)))
    case Check(threshold, fault) => CheckStep(s, threshold, fault)
  }

  function Exec(s: State, schedule: seq<Action>): State
    decreases |schedule|
  {
    if schedule == [] then s
    else Step(Exec(s, schedule[..|schedule| - 1]), schedule[|schedule| - 1])
  }

  function Init(now: int): State {
    State(now, None, None, [])
  }

  /** Reads and writes of the status key succeed. */
  predicate StatusOk(a: Action) {
    a.Check? ==> !a.fault.GetFails? && !a.fault.SetFails?
  }

  /** Emissions alternate, and the stored status is the last one emitted. */
  ghost predicate Alternates(s: State) {
    && Alternating(s.emitted)
    && s.status == (if s.emitted == [] then None else Some(s.emitted[|s.emitted| - 1]))
  }

  lemma StepAlternates(s: State, a: Action)
    requires Alternates(s) && StatusOk(a)
    ensures Alternates(Step(s, a))
  {
  }

  /** Over any run in which the status key is read and written successfully, online and offline
      events strictly alternate and the stored status is the last one. */
  lemma {:induction false} EventsAlternate(now: int, schedule: seq<Action>)
    requires forall k :: 0 <= k < |schedule| ==> StatusOk(schedule[k])
    ensures Alternates(Exec(Init(now), schedule))
    decreases |schedule|
  {
    if schedule != [] {
      EventsAlternate(now, schedule[..|schedule| - 1]);
      StepAlternates(Exec(Init(now), schedule[..|schedule| - 1]), schedule[|schedule| - 1]);
    }
  }

  /** The check reaches its verdict, the verdict is the event emitted last, and the stored status
      does not say so: it was not read, or an earlier write of it was lost. */
  predicate Repeats(s: State, a: Action) {
    && a.Check? && !a.fault.HGetFails? && s.emitted != []
    && Verdict(s, a.threshold) == s.emitted[|s.emitted| - 1]
    && (a.fault.GetFails? || s.status != Some(Verdict(s, a.threshold)))
  }

  /** In any state, whatever was lost before: a step emits the last event once more if and only
      if it is such a check. */
  lemma RepeatsExactly(s: State, a: Action)
    requires s.emitted != []
    ensures Step(s, a).emitted == s.emitted + [s.emitted[|s.emitted| - 1]] <==> Repeats(s, a)
  {
    var n := |s.emitted|;
    if a.Check? && |Step(s, a).emitted| == n + 1 {
      assert (s.emitted + [s.emitted[n - 1]])[n] == s.emitted[n - 1];
      assert Step(s, a).emitted[n] == Verdict(s, a.threshold);
    }
  }

  ghost predicate Alternating(events: seq<Status>) {
    forall i :: 0 <= i < |events| - 1 ==> events[i] != events[i + 1]
  }

  lemma AlternatingSnoc(events: seq<Status>, e: Status)
    requires events != []
    ensures Alternating(events + [e]) <==> Alternating(events) && events[|events| - 1] != e
  {
    var more := events + [e];
    assert forall i :: 0 <= i < |events| ==> more[i] == events[i];
    if Alternating(more) {
      assert more[|events| - 1] != more[|events|];
      assert forall i :: 0 <= i < |events| - 1 ==> more[i] != more[i + 1];
    }
  }

  lemma StepAlternatesExactly(s: State, a: Action)
    ensures Alternating(Step(s, a).emitted) <==> Alternating(s.emitted) && !Repeats(s, a)
  {
    if a.Check? && s.emitted != [] { AlternatingSnoc(s.emitted, Verdict(s, a.threshold)); }
  }

  ghost predicate NoRepeat(now: int, schedule: seq<Action>) {
    forall k :: 0 <= k < |schedule| ==> !Repeats(Exec(Init(now), schedule[..k]), schedule[k])
  }

  lemma NoRepeatSnoc(now: int, schedule: seq<Action>)
    requires schedule != []
    ensures var n := |schedule| - 1;
            NoRepeat(now, schedule)
            <==> NoRepeat(now, schedule[..n]) && !Repeats(Exec(Init(now), schedule[..n]), schedule[n])
  {
    var n := |schedule| - 1;
    assert forall k :: 0 <= k < n ==> schedule[..n][..k] == schedule[..k];
  }

  /** Over every run, with any faults: online and offline events strictly alternate if and only
      if no check repeats. */
  lemma {:induction false} AlternatesExactly(now: int, schedule: seq<Action>)
    ensures Alternating(Exec(Init(now), schedule).emitted) <==> NoRepeat(now, schedule)
    decreases |schedule|
  {
    if schedule != [] {
      var n := |schedule| - 1;
      AlternatesExactly(now, schedule[..n]);
      NoRepeatSnoc(now, schedule);
      StepAlternatesExactly(Exec(Init(now), schedule[..n]), schedule[n]);
    }
  }

  /** In particular a lost write of a new status, online or offline, makes the next check that
      comes to the same verdict repeat it. */
  lemma SetFailureRepeats(s: State, threshold: int, later: int, fault: Fault)
    requires s.status != Some(Verdict(s, threshold)) && !fault.HGetFails?
    requires Verdict(s, later) == Verdict(s, threshold)
    ensures var s1 := Step(s, Check(threshold, SetFails));
            Repeats(s1, Check(later, fault)) && Step(s1, Check(later, fault)).emitted
            == s.emitted + [Verdict(s, threshold)] + [Verdict(s, threshold)]
  {
    RepeatsExactly(Step(s, Check(threshold, SetFails)), Check(later, fault));
  }

  // ------------------------------------------------- bounds on what a check leaves behind

  ghost predicate Idle(schedule: seq<Action>) {
    forall k :: 0 <= k < |schedule| ==> !schedule[k].WriteState?
  }

  lemma {:induction false} IdleKeepsHash(s: State, schedule: seq<Action>)
    requires Idle(schedule)
    ensures Exec(s, schedule).hash == s.hash && Exec(s, schedule).now >= s.now
    decreases |schedule|
  {
    if schedule != [] { IdleKeepsHash(s, schedule[..|schedule| - 1]); }
  }

  /** Thirty seconds after the last state write, whatever happened since, a check that reaches
      Redis leaves the vehicle offline. */
  lemma SilenceMeansOffline(s: State, receivedAt: int, schedule: seq<Action>, threshold: int, fault: Fault)
    requires Idle(schedule) && (fault.NoFault? || fault.GetFails?)
    requires Exec(Step(s, WriteState(receivedAt)), schedule).now >= s.now + 30_000
    ensures Step(Exec(Step(s, WriteState(receivedAt)), schedule), Check(threshold, fault)).status == Some(Offline)
  {
    IdleKeepsHash(Step(s, WriteState(receivedAt)), schedule);
  }

  /** Before that, and as long as no new state is written, the verdict depends on the age of the
      receipt alone. */
  lemma RecentStateDecides(s: State, receivedAt: int, schedule: seq<Action>, threshold: int, fault: Fault)
    requires Idle(schedule) && (fault.NoFault? || fault.GetFails?)
    requires Exec(Step(s, WriteState(receivedAt)), schedule).now < s.now + 30_000
    ensures var s' := Exec(Step(s, WriteState(receivedAt)), schedule);
            Step(s', Check(threshold, fault)).status
            == Some(if s'.now - receivedAt * 1000 <= threshold then Online else Offline)
  {
    IdleKeepsHash(Step(s, WriteState(receivedAt)), schedule);
  }

  /** A check that reaches Redis leaves the vehicle online exactly when the hash is live and its
      receipt age is within the threshold, and offline otherwise. */
  lemma OnlineExactly(s: State, threshold: int, fault: Fault)
    requires fault.NoFault? || fault.GetFails?
    ensures Step(s, Check(threshold, fault)).status == Some(Online) <==>
            && s.hash.Some? && s.now < s.hash.value.writtenAt + 30_000
            && s.now - s.hash.value.receivedAt * 1000 <= threshold
    ensures Step(s, Check(threshold, fault)).status != Some(Online) ==>
            Step(s, Check(threshold, fault)).status == Some(Offline)
  {
  }

  // --------------------------------------------------------------------- the monitor

  /** A fleet's configured threshold, or the default. */
  method LoadThresholds(config: seq<(string, int)>) returns (thresholds: map<string, int>)
    ensures forall f :: f in thresholds <==> exists i :: 0 <= i < |config| && config[i].0 == f
    ensures forall f :: f in thresholds ==>
              exists i :: 0 <= i < |config| && config[i] == (f, thresholds[f])
                        && forall j :: i < j < |config| ==> config[j].0 != f
  {
    thresholds := map[];
    for n := 0 to |config|
      invariant forall f :: f in thresholds <==> exists i :: 0 <= i < n && config[i].0 == f
      invariant forall f :: f in thresholds ==>
                  exists i :: 0 <= i < n && config[i] == (f, thresholds[f])
                            && forall j :: i < j < n ==> config[j].0 != f
    {
      ghost var before := thresholds;
      thresholds := thresholds[config[n].0 := config[n].1];
      forall f | f in thresholds
        ensures exists i :: 0 <= i < n + 1 && config[i] == (f, thresholds[f])
                          && forall j :: i < j < n + 1 ==> config[j].0 != f
      {
        if f != config[n].0 {
          var i :| 0 <= i < n && config[i] == (f, before[f]) && forall j :: i < j < n ==> config[j].0 != f;
          assert config[i] == (f, thresholds[f]);
        } else {
          assert config[n] == (f, thresholds[f]);
        }
      }
    }
  }

  class Vehicle {
    var now: int
    var hash: Option<Hash>
    var status: Option<Status>
    var emitted: seq<Status>

    ghost function View(): State
      reads this
    {
      State(now, hash, status, emitted)
    }

    method SetOffline(fault: Fault)
      modifies this`status, this`emitted
      ensures View() == Become(old(View()), Offline, fault)
    {
      var current := if fault.GetFails? then None else status;
      if current == Some(Offline) {
        return;
      }
      if !fault.SetFails? {
        status := Some(Offline);
      }
      emitted := emitted + [Offline];
    }

    method CheckVehicle(threshold: int, fault: Fault)
      modifies this`status, this`emitted
      ensures View() == Step(old(View()), Check(threshold, fault))
    {
      if fault.HGetFails? {
        return;
      }
      if hash.None? || hash.value.writtenAt + STATE_TTL <= now {
        SetOffline(fault);
        return;
      }
      var current := if fault.GetFails? then None else status;
      if now - hash.value.receivedAt * 1000 > threshold {
        SetOffline(fault);
      } else if current != Some(Online) {
        if !fault.SetFails? {
          status := Some(Online);
        }
        emitted := emitted + [Online];
      }
    }
  }
}
