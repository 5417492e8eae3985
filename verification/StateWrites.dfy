/** The state writers: any number of workers that share one channel, gather messages into
    batches and write each vehicle's hash through a Redis pipeline, command by command. */
module StateWrites {
  import opened Domain

  const BATCH: nat := 100

  /** `batch` holds positions in the channel's order; while `sending`, those still to be written. */
  datatype Worker = Worker(batch: seq<nat>, sending: bool)

  /** `taken` is what the workers took from the channel, in channel order; `written` lists the
      positions whose write reached Redis, in the order in which it did. */
  datatype State = State(taken: seq<Telemetry>, workers: seq<Worker>, written: seq<nat>, hashes: map<string, Telemetry>)

  datatype Action =
    | Receive(w: nat, m: Telemetry)
    | Flush(w: nat)     // the ticker, a closed channel or a cancelled context
    | Apply(w: nat)     // Redis executes the next command of the worker's pipeline
    | Fail(w: nat)      // the connection breaks: the rest of the batch is logged and forgotten

  function Init(n: nat): State {
    State([], seq(n, _ => Worker([], false)), [], map[])
  }

  function ReceiveStep(s: State, w: nat, m: Telemetry): State {
    if w < |s.workers| && !s.workers[w].sending then
      var batch := s.workers[w].batch + [|s.taken|];
      s.(taken := s.taken + [m], workers := s.workers[w := Worker(batch, |batch| >= BATCH)])
    else s
  }

  predicate CanFlush(s: State, w: nat) {
    w < |s.workers| && !s.workers[w].sending && s.workers[w].batch != []
  }

  predicate CanApply(s: State, w: nat) {
    w < |s.workers| && s.workers[w].sending && s.workers[w].batch != [] && s.workers[w].batch[0] < |s.taken|
  }

  /** HSET of every field: the hash is replaced as a whole. */
  function ApplyStep(s: State, w: nat): State {
    if CanApply(s, w) then
      var batch := s.workers[w].batch;
      var m := s.taken[batch[0]];
      s.(workers := s.workers[w := Worker(batch[1..], |batch| > 1)],
         written := s.written + [batch[0]], hashes := s.hashes[m.vehicleId := m])
    else s
  }

  function Step(s: State, a: Action): State {
    match a
    case Receive(w, m) => ReceiveStep(s, w, m)
    case Flush(w) => if CanFlush(s, w) then s.(workers := s.workers[w := s.workers[w].(sending := true)]) else s
    case Apply(w) => ApplyStep(s, w)
    case Fail(w) =>
      if w < |s.workers| && s.workers[w].sending then s.(workers := s.workers[w := Worker([], false)]) else s
  }

  function Exec(s: State, schedule: seq<Action>): State
    decreases |schedule|
  {
    if schedule == [] then s
    else Step(Exec(s, schedule[..|schedule| - 1]), schedule[|schedule| - 1])
  }

  ghost predicate Reachable(n: nat, s: State) {
    exists schedule :: s == Exec(Init(n), schedule)
  }

  ghost predicate NoFailure(schedule: seq<Action>) {
    forall k :: 0 <= k < |schedule| ==> !schedule[k].Fail?
  }

  ghost predicate ReachableUnfailed(n: nat, s: State) {
    exists schedule :: NoFailure(schedule) && s == Exec(Init(n), schedule)
  }

  // ------------------------------------------- what the hashes hold, for any workers

  /** Position k holds the last message of vehicle v. */
  ghost predicate LastFor(ms: seq<Telemetry>, v: string, k: int) {
    && 0 <= k < |ms| && ms[k].vehicleId == v
    && forall l :: k < l < |ms| ==> ms[l].vehicleId != v
  }

  ghost predicate Unmentioned(ms: seq<Telemetry>, v: string) {
    forall k :: 0 <= k < |ms| ==> ms[k].vehicleId != v
  }

  /** The map holds, for every vehicle, its last message in ms. */
  ghost predicate HoldsLatest(hashes: map<string, Telemetry>, ms: seq<Telemetry>) {
    forall v :: if v in hashes then exists k :: LastFor(ms, v, k) && hashes[v] == ms[k] else Unmentioned(ms, v)
  }

  lemma StoreKeepsLatest(hashes: map<string, Telemetry>, ms: seq<Telemetry>, m: Telemetry)
    requires HoldsLatest(hashes, ms)
    ensures HoldsLatest(hashes[m.vehicleId := m], ms + [m])
  {
    var hashes', ms' := hashes[m.vehicleId := m], ms + [m];
    forall v | v in hashes' ensures exists k :: LastFor(ms', v, k) && hashes'[v] == ms'[k] {
      if v == m.vehicleId {
        assert LastFor(ms', v, |ms|);
      } else {
        var k :| LastFor(ms, v, k) && hashes[v] == ms[k];
        assert LastFor(ms', v, k) && hashes'[v] == ms'[k];
      }
    }
    forall v | v !in hashes' ensures Unmentioned(ms', v) { assert Unmentioned(ms, v); }
  }

  ghost predicate InRange(ps: seq<nat>, n: nat) {
    forall k :: 0 <= k < |ps| ==> ps[k] < n
  }

  /** The messages at these positions. */
  function At(taken: seq<Telemetry>, ps: seq<nat>): (ms: seq<Telemetry>)
    requires InRange(ps, |taken|)
    ensures |ms| == |ps| && forall k :: 0 <= k < |ps| ==> ms[k] == taken[ps[k]]
  {
    seq(|ps|, k requires 0 <= k < |ps| => taken[ps[k]])
  }

  ghost predicate WorkerOk(w: Worker, n: nat) {
    && InRange(w.batch, n) && |w.batch| <= BATCH
    && (w.sending ==> w.batch != []) && (!w.sending ==> |w.batch| < BATCH)
  }

  ghost predicate Inv(s: State) {
    && InRange(s.written, |s.taken|)
    && (forall w :: 0 <= w < |s.workers| ==> WorkerOk(s.workers[w], |s.taken|))
    && HoldsLatest(s.hashes, At(s.taken, s.written))
  }

  lemma ReceiveKeepsInv(s: State, w: nat, m: Telemetry)
    requires Inv(s)
    ensures Inv(ReceiveStep(s, w, m))
  {
    var s' := ReceiveStep(s, w, m);
    assert At(s'.taken, s'.written) == At(s.taken, s.written);
  }

  lemma ApplyKeepsInv(s: State, w: nat)
    requires Inv(s)
    ensures Inv(ApplyStep(s, w))
  {
    if CanApply(s, w) {
      var s', p := ApplyStep(s, w), s.workers[w].batch[0];
      StoreKeepsLatest(s.hashes, At(s.taken, s.written), s.taken[p]);
      assert At(s'.taken, s'.written) == At(s.taken, s.written) + [s.taken[p]];
    }
  }

  lemma StepKeepsInv(s: State, a: Action)
    requires Inv(s)
    ensures Inv(Step(s, a))
  {
    match a
    case Receive(w, m) => ReceiveKeepsInv(s, w, m);
    case Apply(w) => ApplyKeepsInv(s, w);
    case _ =>
  }

  lemma {:induction false} ExecKeepsInv(n: nat, schedule: seq<Action>)
    ensures Inv(Exec(Init(n), schedule))
    decreases |schedule|
  {
    if schedule != [] {
      ExecKeepsInv(n, schedule[..|schedule| - 1]);
      StepKeepsInv(Exec(Init(n), schedule[..|schedule| - 1]), schedule[|schedule| - 1]);
    }
  }

  /** For any number of workers: each hash is the last write of its vehicle that reached Redis,
      and a batch is below the batch size whenever its worker is back at the select. */
  lemma HashIsLastWrite(n: nat, s: State)
    requires Reachable(n, s)
    ensures InRange(s.written, |s.taken|) && HoldsLatest(s.hashes, At(s.taken, s.written))
    ensures forall w :: 0 <= w < |s.workers| && !s.workers[w].sending ==> |s.workers[w].batch| < 100
  {
    var schedule :| s == Exec(Init(n), schedule);
    ExecKeepsInv(n, schedule);
  }

  // ------------------------------------------------------------ every message once

  ghost predicate Holds(s: State, w: int, p: nat) {
    0 <= w < |s.workers| && p in s.workers[w].batch
  }

  ghost predicate Distinct(ps: seq<nat>) {
    forall k, l :: 0 <= k < l < |ps| ==> ps[k] != ps[l]
  }

  ghost predicate OnceInv(s: State) {
    && Distinct(s.written) && (forall p :: p in s.written ==> p < |s.taken|)
    && (forall w :: 0 <= w < |s.workers| ==> Distinct(s.workers[w].batch))
    && (forall w, p: nat :: Holds(s, w, p) ==> p < |s.taken| && p !in s.written)
    && (forall w, v, p: nat :: Holds(s, w, p) && Holds(s, v, p) ==> w == v)
  }

  ghost predicate NothingLost(s: State) {
    forall p: nat :: p < |s.taken| ==> p in s.written || exists w :: Holds(s, w, p)
  }

  lemma HeadTail(ps: seq<nat>, p: nat)
    requires ps != []
    ensures p in ps <==> p == ps[0] || p in ps[1..]
    ensures Distinct(ps) ==> Distinct(ps[1..]) && ps[0] !in ps[1..]
  {
    assert ps == [ps[0]] + ps[1..];
  }

  lemma FreshAtEnd(ps: seq<nat>, p: nat)
    requires Distinct(ps) && forall q: nat :: q in ps ==> q < p
    ensures Distinct(ps + [p])
  {
    forall k | 0 <= k < |ps| ensures ps[k] != p { assert ps[k] in ps; }
  }

  lemma ReceiveMoves(s: State, w: nat, m: Telemetry, v: int, p: nat)
    requires w < |s.workers| && !s.workers[w].sending
    ensures Holds(ReceiveStep(s, w, m), v, p) <==> Holds(s, v, p) || (v == w && p == |s.taken|)
  {
  }

  lemma ReceiveKeepsOnce(s: State, w: nat, m: Telemetry)
    requires OnceInv(s)
    ensures OnceInv(ReceiveStep(s, w, m)) && (NothingLost(s) ==> NothingLost(ReceiveStep(s, w, m)))
  {
    if w < |s.workers| && !s.workers[w].sending {
      var s' := ReceiveStep(s, w, m);
      forall v: int, p: nat ensures Holds(s', v, p) <==> Holds(s, v, p) || (v == w && p == |s.taken|) {
        ReceiveMoves(s, w, m, v, p);
      }
      forall p: nat | p in s.workers[w].batch ensures p < |s.taken| { assert Holds(s, w, p); }
      FreshAtEnd(s.workers[w].batch, |s.taken|);
      assert Holds(s', w, |s.taken|);
      if NothingLost(s) {
        forall p: nat | p < |s'.taken| && p !in s'.written ensures exists v :: Holds(s', v, p) {
          if p < |s.taken| {
            var v :| Holds(s, v, p);
            assert Holds(s', v, p);
          }
        }
      }
    }
  }

  lemma ApplyMoves(s: State, w: nat, v: int, p: nat)
    requires CanApply(s, w) && Distinct(s.workers[w].batch)
    ensures Holds(ApplyStep(s, w), v, p) <==> Holds(s, v, p) && !(v == w && p == s.workers[w].batch[0])
  {
    HeadTail(s.workers[w].batch, p);
  }

  lemma ApplyKeepsOnce(s: State, w: nat)
    requires OnceInv(s)
    ensures OnceInv(ApplyStep(s, w)) && (NothingLost(s) ==> NothingLost(ApplyStep(s, w)))
  {
    if CanApply(s, w) {
      var s', head := ApplyStep(s, w), s.workers[w].batch[0];
      assert Holds(s, w, head);
      HeadTail(s.workers[w].batch, head);
      forall v: int, p: nat ensures Holds(s', v, p) <==> Holds(s, v, p) && !(v == w && p == head)
      { ApplyMoves(s, w, v, p); }
      if NothingLost(s) {
        forall p: nat | p < |s'.taken| && p !in s'.written ensures exists v :: Holds(s', v, p) {
          var v :| Holds(s, v, p);
          assert Holds(s', v, p);
        }
      }
    }
  }

  lemma OtherKeepsOnce(s: State, a: Action)
    requires OnceInv(s) && (a.Flush? || a.Fail?)
    ensures OnceInv(Step(s, a)) && (a.Flush? && NothingLost(s) ==> NothingLost(Step(s, a)))
  {
    var s' := Step(s, a);
    forall v: int, p: nat | Holds(s', v, p) ensures Holds(s, v, p) {}
    if a.Flush? && NothingLost(s) {
      forall p: nat | p < |s'.taken| && p !in s'.written ensures exists v :: Holds(s', v, p) {
        var v :| Holds(s, v, p);
        assert Holds(s', v, p);
      }
    }
  }

  lemma StepKeepsOnce(s: State, a: Action)
    requires OnceInv(s)
    ensures OnceInv(Step(s, a)) && (!a.Fail? && NothingLost(s) ==> NothingLost(Step(s, a)))
  {
    match a
    case Receive(w, m) => ReceiveKeepsOnce(s, w, m);
    case Apply(w) => ApplyKeepsOnce(s, w);
    case _ => OtherKeepsOnce(s, a);
  }

  lemma {:induction false} ExecKeepsOnce(n: nat, schedule: seq<Action>)
    ensures OnceInv(Exec(Init(n), schedule)) && (NoFailure(schedule) ==> NothingLost(Exec(Init(n), schedule)))
    decreases |schedule|
  {
    if schedule != [] {
      ExecKeepsOnce(n, schedule[..|schedule| - 1]);
      StepKeepsOnce(Exec(Init(n), schedule[..|schedule| - 1]), schedule[|schedule| - 1]);
    }
  }

  ghost predicate Quiet(s: State) {
    forall w :: 0 <= w < |s.workers| ==> s.workers[w].batch == []
  }

  /** For any number of workers no message is written twice, and without failures every message
      taken has been written once the batches are empty. */
  lemma WrittenExactlyOnce(n: nat, s: State)
    requires Reachable(n, s)
    ensures Distinct(s.written) && forall p :: p in s.written ==> p < |s.taken|
    ensures ReachableUnfailed(n, s) && Quiet(s) ==> forall p: nat :: p in s.written <==> p < |s.taken|
  {
    var schedule :| s == Exec(Init(n), schedule);
    ExecKeepsOnce(n, schedule);
    if ReachableUnfailed(n, s) && Quiet(s) {
      var unfailed :| NoFailure(unfailed) && s == Exec(Init(n), unfailed);
      ExecKeepsOnce(n, unfailed);
      assert forall w, p: nat :: !Holds(s, w, p);
    }
  }

  // ------------------------------------------------------- one worker keeps the order

  /** Oldest first: what is written, then what the only worker still holds. */
  function Line(s: State): seq<nat>
    requires |s.workers| == 1
  {
    s.written + s.workers[0].batch
  }

  ghost predicate Increasing(ps: seq<nat>) {
    forall k, l :: 0 <= k < l < |ps| ==> ps[k] < ps[l]
  }

  ghost predicate Complete(ps: seq<nat>, n: nat) {
    |ps| == n && forall k :: 0 <= k < n ==> ps[k] == k
  }

  ghost predicate OrderInv(s: State) {
    |s.workers| == 1 && Increasing(Line(s)) && InRange(Line(s), |s.taken|)
  }

  /** A receive appends to the line, a write moves along it, a failure cuts its end. */
  lemma StepMovesLine(s: State, a: Action)
    requires |s.workers| == 1
    ensures |Step(s, a).workers| == 1 && |s.taken| <= |Step(s, a).taken|
    ensures (Line(Step(s, a)) == Line(s) && |Step(s, a).taken| == |s.taken|)
            || (a.Receive? && Line(Step(s, a)) == Line(s) + [|s.taken|] && |Step(s, a).taken| == |s.taken| + 1)
            || (a.Fail? && Line(Step(s, a)) == s.written && |Step(s, a).taken| == |s.taken|)
  {
    var s' := Step(s, a);
    if a.Apply? && CanApply(s, a.w) {
      var b := s.workers[0].batch;
      assert b == [b[0]] + b[1..];
      assert Line(s') == Line(s);
    } else if a.Receive? && a.w == 0 && !s.workers[0].sending {
      assert Line(s') == Line(s) + [|s.taken|];
    } else if a.Fail? && a.w == 0 && s.workers[0].sending {
      assert Line(s') == s.written;
    }
  }

  lemma StepKeepsOrder(s: State, a: Action)
    requires OrderInv(s)
    ensures OrderInv(Step(s, a))
    ensures !a.Fail? && Complete(Line(s), |s.taken|) ==> Complete(Line(Step(s, a)), |Step(s, a).taken|)
  {
    StepMovesLine(s, a);
    assert forall k :: 0 <= k < |s.written| ==> Line(s)[k] == s.written[k];
  }

  lemma {:induction false} ExecKeepsOrder(schedule: seq<Action>)
    ensures OrderInv(Exec(Init(1), schedule))
    ensures NoFailure(schedule) ==> var s := Exec(Init(1), schedule); Complete(Line(s), |s.taken|)
    decreases |schedule|
  {
    if schedule != [] {
      ExecKeepsOrder(schedule[..|schedule| - 1]);
      StepKeepsOrder(Exec(Init(1), schedule[..|schedule| - 1]), schedule[|schedule| - 1]);
    }
  }

  /** One worker, even with failures, never writes an older message after a newer one. */
  lemma OneWorkerInOrder(s: State)
    requires Reachable(1, s)
    ensures Increasing(s.written)
  {
    var schedule :| s == Exec(Init(1), schedule);
    ExecKeepsOrder(schedule);
    assert forall k :: 0 <= k < |s.written| ==> Line(s)[k] == s.written[k];
  }

  /** One worker without failures: when nothing is held, batching is invisible and every hash
      is its vehicle's latest message. */
  lemma OneWorkerLatest(s: State)
    requires ReachableUnfailed(1, s) && Quiet(s)
    ensures HoldsLatest(s.hashes, s.taken)
  {
    var schedule :| NoFailure(schedule) && s == Exec(Init(1), schedule);
    ExecKeepsOrder(schedule);
    ExecKeepsInv(1, schedule);
    assert Line(s) == s.written;
    assert At(s.taken, s.written) == s.taken;
  }

  // ---------------------------------------------------------- two workers can swap

  lemma ReachStep(n: nat, s: State, a: Action)
    requires ReachableUnfailed(n, s) && !a.Fail?
    ensures ReachableUnfailed(n, Step(s, a))
  {
    var schedule :| NoFailure(schedule) && s == Exec(Init(n), schedule);
    assert (schedule + [a])[..|schedule|] == schedule;
    assert Step(s, a) == Exec(Init(n), schedule + [a]) && NoFailure(schedule + [a]);
  }

  /** Two messages of one vehicle, the first with worker 0 and the second with worker 1. */
  lemma TwoTaken(n: nat, a: Telemetry, b: Telemetry) returns (s: State)
    requires n >= 2
    ensures ReachableUnfailed(n, s)
    ensures s == Init(n).(taken := [a, b], workers := Init(n).workers[0 := Worker([0], false)][1 := Worker([1], false)])
  {
    assert NoFailure([]) && Init(n) == Exec(Init(n), []);
    ReachStep(n, Init(n), Receive(0, a));
    var s1 := Step(Init(n), Receive(0, a));
    assert [] + [0] == [0] && [] + [1] == [1] && [] + [a] == [a] && [a] + [b] == [a, b];
    assert s1 == Init(n).(taken := [a], workers := Init(n).workers[0 := Worker([0], false)]);
    ReachStep(n, s1, Receive(1, b));
    s := Step(s1, Receive(1, b));
  }

  /** Worker w writes its one message. */
  lemma WriteOne(n: nat, s: State, w: nat) returns (s': State)
    requires ReachableUnfailed(n, s) && w < |s.workers| && |s.workers[w].batch| == 1 && !s.workers[w].sending
    requires s.workers[w].batch[0] < |s.taken|
    ensures ReachableUnfailed(n, s')
    ensures var p := s.workers[w].batch[0];
            s' == s.(workers := s.workers[w := Worker([], false)], written := s.written + [p],
                     hashes := s.hashes[s.taken[p].vehicleId := s.taken[p]])
  {
    ReachStep(n, s, Flush(w));
    var s1 := Step(s, Flush(w));
    ReachStep(n, s1, Apply(w));
    s' := Step(s1, Apply(w));
    assert s.workers[w].batch[1..] == [];
    assert s'.workers == s.workers[w := Worker([], false)];
  }

  lemma LaterWorkerFirst(n: nat, a: Telemetry, b: Telemetry) returns (s: State)
    requires n >= 2 && a.vehicleId == b.vehicleId
    ensures ReachableUnfailed(n, s) && Quiet(s) && s.taken == [a, b] && s.hashes == map[a.vehicleId := a]
  {
    var s0 := TwoTaken(n, a, b);
    var s1 := WriteOne(n, s0, 1);
    s := WriteOne(n, s1, 0);
  }

  /** Exactly when: over all runs without failures, the hashes agree with the channel's order
      whenever nothing is held if and only if there is at most one worker. */
  lemma LatestExactlyForOneWorker(n: nat)
    ensures (forall s :: ReachableUnfailed(n, s) && Quiet(s) ==> HoldsLatest(s.hashes, s.taken)) <==> n <= 1
  {
    if n >= 2 {
      var a, b := Telemetry("v", "f", 1.0, 0.0, 0.0, 0), Telemetry("v", "f", 2.0, 0.0, 0.0, 0);
      var s := LaterWorkerFirst(n, a, b);
      assert s.taken[1] == b;
      assert forall k :: LastFor(s.taken, "v", k) ==> k == 1;
      assert "v" in s.hashes && s.hashes["v"] != b;
    } else {
      forall s | ReachableUnfailed(n, s) && Quiet(s) ensures HoldsLatest(s.hashes, s.taken) {
        if n == 1 { OneWorkerLatest(s); } else { NoWorkerNothing(s); }
      }
    }
  }

  lemma {:induction false} IdleWithoutWorkers(schedule: seq<Action>)
    ensures Exec(Init(0), schedule) == Init(0)
    decreases |schedule|
  {
    if schedule != [] { IdleWithoutWorkers(schedule[..|schedule| - 1]); }
  }

  lemma NoWorkerNothing(s: State)
    requires ReachableUnfailed(0, s)
    ensures s == Init(0)
  {
    var schedule :| NoFailure(schedule) && s == Exec(Init(0), schedule);
    IdleWithoutWorkers(schedule);
  }
}
