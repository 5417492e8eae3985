/** One state writer as its goroutine runs it: a batch buffer filled and emptied in a loop, and
    the vehicles' hashes, written one pipelined command after the other. */
module StateWriter {
  import opened Domain
  import opened StateWrites
  import PipelineService

  type Event = PipelineService.Event

  /** `sent` lists the messages whose write reached Redis, oldest first. */
  datatype Desk = Desk(batch: seq<Telemetry>, stopped: bool, hashes: map<string, Telemetry>, sent: seq<Telemetry>)

  /** One by one: what the hashes would be without batching. */
  function Stored(hashes: map<string, Telemetry>, ms: seq<Telemetry>): map<string, Telemetry>
    decreases |ms|
  {
    if ms == [] then hashes
    else
      var m := ms[|ms| - 1];
      Stored(hashes, ms[..|ms| - 1])[m.vehicleId := m]
  }

  lemma {:induction false} StoredHoldsLatest(hashes: map<string, Telemetry>, before: seq<Telemetry>, ms: seq<Telemetry>)
    requires HoldsLatest(hashes, before)
    ensures HoldsLatest(Stored(hashes, ms), before + ms)
    decreases |ms|
  {
    if ms == [] {
      assert before + ms == before;
    } else {
      var n := |ms| - 1;
      StoredHoldsLatest(hashes, before, ms[..n]);
      StoreKeepsLatest(Stored(hashes, ms[..n]), before + ms[..n], ms[n]);
      assert before + ms == before + ms[..n] + [ms[n]];
    }
  }

  /** How many of the pipeline's commands Redis executed: all, or only the first few. */
  function Executed(outcome: Option<nat>, n: nat): (k: nat)
    ensures k <= n && (outcome.None? ==> k == n) && (outcome.Some? && outcome.value <= n ==> k == outcome.value)
  {
    if outcome.Some? && outcome.value < n then outcome.value else n
  }

  function Flushed(d: Desk, outcome: Option<nat>): Desk {
    var ms := d.batch[..Executed(outcome, |d.batch|)];
    Desk([], d.stopped, Stored(d.hashes, ms), d.sent + ms)
  }

  /** One round of the select. */
  function Handled(d: Desk, e: Event, outcome: Option<nat>): Desk {
    match e
    case Message(m) =>
      var d' := d.(batch := d.batch + [m]);
      if |d'.batch| >= BATCH then Flushed(d', outcome) else d'
    case TickerFired => if d.batch == [] then d else Flushed(d, outcome)
    case _ => Flushed(d.(stopped := true), outcome)
  }

  function HandledAll(d: Desk, events: seq<Event>, outcomes: nat -> Option<nat>): Desk
    decreases |events|
  {
    if events == [] then d
    else
      var n := |events| - 1;
      Handled(HandledAll(d, events[..n], outcomes), events[n], outcomes(n))
  }

  lemma HandledSnoc(d: Desk, events: seq<Event>, outcomes: nat -> Option<nat>, n: nat)
    requires n < |events|
    ensures HandledAll(d, events[..n + 1], outcomes)
            == Handled(HandledAll(d, events[..n], outcomes), events[n], outcomes(n))
  {
    assert events[..n + 1][..n] == events[..n];
  }

  /** What one round does, case by case: a message waits until a hundred are held, a tick or a
      closing event leaves nothing behind, and what leaves the buffer has its first commands
      executed, all of them if the pipeline succeeds. */
  lemma RoundExactly(d: Desk, e: Event, outcome: Option<nat>)
    ensures var d' := Handled(d, e, outcome);
            var due := if e.Message? then d.batch + [e.m] else d.batch;
            if e.Message? && |due| < 100 then d' == d.(batch := due)
            else
              && d'.batch == [] && d.sent <= d'.sent <= d.sent + due && (outcome.None? ==> d'.sent == d.sent + due)
              && (outcome.Some? && outcome.value <= |due| ==> |d'.sent| == |d.sent| + outcome.value)
              && d'.hashes == Stored(d.hashes, d'.sent[|d.sent|..])
    ensures Handled(d, e, outcome).stopped == (d.stopped || e.ChannelClosed? || e.ContextDone?)
  {
    FlushExactly(d.(batch := if e.Message? then d.batch + [e.m] else d.batch), outcome);
    FlushExactly(d.(batch := [], stopped := d.stopped), outcome);
  }

  lemma FlushExactly(d: Desk, outcome: Option<nat>)
    ensures var d', due := Flushed(d, outcome), d.batch;
            && d'.batch == [] && d.sent <= d'.sent <= d.sent + due && (outcome.None? ==> d'.sent == d.sent + due)
            && (outcome.Some? && outcome.value <= |due| ==> |d'.sent| == |d.sent| + outcome.value)
            && d'.hashes == Stored(d.hashes, d'.sent[|d.sent|..]) && d'.stopped == d.stopped
    ensures d.batch == [] ==> Flushed(d, outcome) == d
  {
    var k := Executed(outcome, |d.batch|);
    assert d.batch[..|d.batch|] == d.batch && (d.sent + d.batch)[..|d.sent| + k] == d.sent + d.batch[..k];
    assert (d.sent + d.batch[..k])[|d.sent|..] == d.batch[..k];
    assert d.batch == [] ==> d.batch[..k] == [] && d.sent + [] == d.sent;
  }

  /** The hashes are the last writes that reached Redis, and the buffer is below its limit. */
  ghost predicate DeskOk(d: Desk) {
    HoldsLatest(d.hashes, d.sent) && |d.batch| < BATCH && (d.stopped ==> d.batch == [])
  }

  lemma FlushedIsOk(d: Desk, outcome: Option<nat>)
    requires HoldsLatest(d.hashes, d.sent)
    ensures DeskOk(Flushed(d, outcome))
    ensures outcome.None? ==> Flushed(d, outcome).sent == d.sent + d.batch
  {
    StoredHoldsLatest(d.hashes, d.sent, d.batch[..Executed(outcome, |d.batch|)]);
    assert d.batch[..|d.batch|] == d.batch;
  }

  function Added(e: Event): seq<Telemetry> { if e.Message? then [e.m] else [] }

  lemma HandledIsOk(d: Desk, e: Event, outcome: Option<nat>)
    requires DeskOk(d) && !d.stopped
    ensures DeskOk(Handled(d, e, outcome)) && Handled(d, e, outcome).stopped == PipelineService.IsLast(e)
    ensures outcome.None? ==> var d' := Handled(d, e, outcome); d'.sent + d'.batch == d.sent + d.batch + Added(e)
  {
    match e
    case Message(m) =>
      FlushedIsOk(d.(batch := d.batch + [m]), outcome);
      assert d.sent + (d.batch + [m]) == d.sent + d.batch + [m];
    case TickerFired => FlushedIsOk(d, outcome);
    case _ => FlushedIsOk(d.(stopped := true), outcome);
  }

  // ------------------------------------- the writer is the machine with one worker

  /** The desk is what the machine's only worker holds and has written. */
  ghost predicate Matches(s: State, d: Desk) {
    && |s.workers| == 1 && !s.workers[0].sending
    && InRange(s.workers[0].batch, |s.taken|) && InRange(s.written, |s.taken|)
    && At(s.taken, s.workers[0].batch) == d.batch && At(s.taken, s.written) == d.sent && s.hashes == d.hashes
  }

  /** A state some schedule of one worker reaches, without a failure if `clean`. */
  ghost predicate Reached(s: State, clean: bool) {
    Reachable(1, s) && (clean ==> ReachableUnfailed(1, s))
  }

  lemma ReachedStep(s: State, clean: bool, a: Action)
    requires Reached(s, clean)
    ensures Reached(Step(s, a), clean && !a.Fail?)
  {
    var schedule :| s == Exec(Init(1), schedule);
    assert (schedule + [a])[..|schedule|] == schedule;
    assert Step(s, a) == Exec(Init(1), schedule + [a]);
    if clean && !a.Fail? { ReachStep(1, s, a); }
  }

  /** The machine's worker is in the middle of writing these positions. */
  ghost predicate Writing(s: State, ps: seq<nat>) {
    && |s.workers| == 1 && s.workers[0] == Worker(ps, ps != [])
    && InRange(ps, |s.taken|) && InRange(s.written, |s.taken|)
  }

  lemma ExecuteOne(s: State, clean: bool, ps: seq<nat>) returns (s': State)
    requires Reached(s, clean) && Writing(s, ps) && ps != []
    ensures Reached(s', clean) && Writing(s', ps[1..]) && s'.taken == s.taken
    ensures s'.written == s.written + [ps[0]]
    ensures var m := s.taken[ps[0]]; s'.hashes == s.hashes[m.vehicleId := m]
  {
    ReachedStep(s, clean, Apply(0));
    s' := Step(s, Apply(0));
  }

  lemma StoredSnoc(hashes: map<string, Telemetry>, ms: seq<Telemetry>, k: nat)
    requires 0 < k <= |ms|
    ensures ms[..k] == ms[..k - 1] + [ms[k - 1]]
    ensures Stored(hashes, ms[..k]) == Stored(hashes, ms[..k - 1])[ms[k - 1].vehicleId := ms[k - 1]]
  {
    assert ms[..k][..k - 1] == ms[..k - 1];
  }

  /** k commands of the pipeline are k writes of the machine. */
  lemma {:induction false} ExecuteSome(s: State, clean: bool, ps: seq<nat>, k: nat) returns (s': State)
    requires Reached(s, clean) && Writing(s, ps) && k <= |ps|
    ensures Reached(s', clean) && Writing(s', ps[k..]) && s'.taken == s.taken && s'.written == s.written + ps[..k]
    ensures s'.hashes == Stored(s.hashes, At(s.taken, ps)[..k])
  {
    s' := s;
    if k == 0 {
      assert ps[0..] == ps;
    } else {
      var s1 := ExecuteSome(s, clean, ps, k - 1);
      s' := ExecuteOne(s1, clean, ps[k - 1..]);
      assert ps[k - 1..][1..] == ps[k..] && ps[..k] == ps[..k - 1] + [ps[k - 1]];
      StoredSnoc(s.hashes, At(s.taken, ps), k);
    }
  }

  lemma AtConcat(taken: seq<Telemetry>, ps: seq<nat>, qs: seq<nat>, k: nat)
    requires InRange(ps, |taken|) && InRange(qs, |taken|) && k <= |qs|
    ensures InRange(ps + qs[..k], |taken|) && At(taken, ps + qs[..k]) == At(taken, ps) + At(taken, qs)[..k]
  {
  }

  /** Commands left over are lost with the connection. */
  lemma AbandonRest(s: State, clean: bool, ps: seq<nat>) returns (s': State)
    requires Reached(s, clean) && Writing(s, ps)
    ensures Reached(s', clean && ps == []) && s' == s.(workers := [Worker([], false)])
  {
    s' := s;
    if ps != [] {
      ReachedStep(s, clean, Fail(0));
      s' := Step(s, Fail(0));
    }
    assert s'.workers == [Worker([], false)];
  }

  /** A flush is k writes and, if commands were left over, a failure. */
  lemma FlushMatches(s: State, clean: bool, ps: seq<nat>, d: Desk, outcome: Option<nat>) returns (s': State)
    requires Reached(s, clean) && Writing(s, ps) && At(s.taken, ps) == d.batch
    requires At(s.taken, s.written) == d.sent && s.hashes == d.hashes
    ensures Reached(s', clean && outcome.None?) && Matches(s', Flushed(d, outcome)) && s'.taken == s.taken
  {
    var k := Executed(outcome, |ps|);
    var s1 := ExecuteSome(s, clean, ps, k);
    s' := AbandonRest(s1, clean, ps[k..]);
    AtConcat(s.taken, s.written, ps, k);
  }

  lemma ReceiveMatches(s: State, clean: bool, d: Desk, m: Telemetry) returns (s': State)
    requires Reached(s, clean) && Matches(s, d)
    ensures Reached(s', clean) && s'.taken == s.taken + [m] && |s'.workers| == 1
    ensures var ps := s.workers[0].batch + [|s.taken|];
            && s'.workers[0] == Worker(ps, |ps| >= BATCH) && InRange(ps, |s'.taken|) && InRange(s'.written, |s'.taken|)
            && At(s'.taken, ps) == d.batch + [m] && At(s'.taken, s'.written) == d.sent && s'.hashes == d.hashes
  {
    ReachedStep(s, clean, Receive(0, m));
    s' := Step(s, Receive(0, m));
    assert At(s'.taken, s.workers[0].batch + [|s.taken|]) == At(s.taken, s.workers[0].batch) + [m];
    assert At(s'.taken, s'.written) == At(s.taken, s.written);
  }

  lemma StartFlush(s: State, clean: bool, d: Desk) returns (s': State)
    requires Reached(s, clean) && Matches(s, d)
    ensures Reached(s', clean) && Writing(s', s.workers[0].batch) && s'.taken == s.taken
    ensures s'.written == s.written && s'.hashes == s.hashes
  {
    s' := s;
    if s.workers[0].batch != [] {
      ReachedStep(s, clean, StateWrites.Action.Flush(0));
      s' := Step(s, StateWrites.Action.Flush(0));
    }
  }

  /** One round of the loop is a schedule of the machine, free of failures if its pipeline is. */
  lemma HandledMatches(s: State, clean: bool, d: Desk, e: Event, outcome: Option<nat>) returns (s': State)
    requires Reached(s, clean) && Matches(s, d)
    ensures Reached(s', clean && outcome.None?) && Matches(s', Handled(d, e, outcome)) && s'.taken == s.taken + Added(e)
  {
    match e
    case Message(m) =>
      s' := ReceiveMatches(s, clean, d, m);
      if |d.batch| + 1 >= BATCH {
        s' := FlushMatches(s', clean, s'.workers[0].batch, d.(batch := d.batch + [m]), outcome);
      }
    case TickerFired =>
      s' := s;
      if d.batch != [] {
        s' := StartFlush(s, clean, d);
        s' := FlushMatches(s', clean, s.workers[0].batch, d, outcome);
      }
    case _ =>
      s' := StartFlush(s, clean, d);
      s' := FlushMatches(s', clean, s.workers[0].batch, d.(stopped := true), outcome);
  }

  /** A whole run of the loop is a run of the machine with one worker over the same messages. */
  lemma {:induction false} RunMatches(d: Desk, events: seq<Event>, outcomes: nat -> Option<nat>) returns (s: State)
    requires d == Desk([], false, map[], [])
    ensures Reached(s, forall k: nat :: outcomes(k).None?) && Matches(s, HandledAll(d, events, outcomes))
    ensures s.taken == PipelineService.Messages(events)
    decreases |events|
  {
    var clean := forall k: nat :: outcomes(k).None?;
    if events == [] {
      s := Init(1);
      assert NoFailure([]) && Init(1) == Exec(Init(1), []);
    } else {
      var n := |events| - 1;
      var s1 := RunMatches(d, events[..n], outcomes);
      s := HandledMatches(s1, clean, HandledAll(d, events[..n], outcomes), events[n], outcomes(n));
    }
  }

  /** So what is proved of the machine holds of the writer: it never writes an older message
      after a newer one, and if every pipeline succeeded and nothing is held, the hashes are the
      vehicles' latest messages. */
  lemma RunIsOrdered(events: seq<Event>, outcomes: nat -> Option<nat>) returns (ps: seq<nat>)
    ensures var d := HandledAll(Desk([], false, map[], []), events, outcomes);
            var received := PipelineService.Messages(events);
            && Increasing(ps) && InRange(ps, |received|) && At(received, ps) == d.sent
            && ((forall k: nat :: outcomes(k).None?) && d.batch == [] ==> HoldsLatest(d.hashes, received))
  {
    var s := RunMatches(Desk([], false, map[], []), events, outcomes);
    OneWorkerInOrder(s);
    ps := s.written;
    if (forall k: nat :: outcomes(k).None?) && s.workers[0].batch == [] { OneWorkerLatest(s); }
  }

  class Writer {
    var batch: seq<Telemetry>
    var stopped: bool
    var hashes: map<string, Telemetry>
    ghost var sent: seq<Telemetry>

    ghost function View(): Desk
      reads this
    {
      Desk(batch, stopped, hashes, sent)
    }

    constructor ()
      ensures View() == Desk([], false, map[], []) && DeskOk(View())
    {
      batch, stopped, hashes, sent := [], false, map[], [];
    }

    /** `flushBatch` and the pipeline's loop; the caller then empties the buffer for reuse. */
    method FlushBatch(outcome: Option<nat>)
      modifies this`hashes, this`sent
      ensures var ms := batch[..Executed(outcome, |batch|)];
              hashes == Stored(old(hashes), ms) && sent == old(sent) + ms
    {
      var n := Executed(outcome, |batch|);
      for i := 0 to n
        invariant hashes == Stored(old(hashes), batch[..i]) && sent == old(sent) + batch[..i]
      {
        assert batch[..i + 1][..i] == batch[..i];
        hashes := hashes[batch[i].vehicleId := batch[i]];
        sent := sent + [batch[i]];
      }
    }

    method HandleEvent(e: Event, outcome: Option<nat>)
      modifies this
      ensures View() == Handled(old(View()), e, outcome)
    {
      match e {
        case Message(m) =>
          batch := batch + [m];
          if |batch| >= BATCH {
            FlushBatch(outcome);
            batch := [];
          }
        case TickerFired =>
          if |batch| > 0 {
            FlushBatch(outcome);
            batch := [];
          }
        case _ =>
          FlushBatch(outcome);
          batch, stopped := [], true;
      }
    }

    /** The loop of `Run`, up to the first closing event. The hashes are always the last writes
        of their vehicles that reached Redis; if every pipeline succeeds, what was sent and what
        is held are together the messages received, in order. The run is one of the machine's
        with a single worker over the messages received. */
    method Run(events: seq<Event>, outcomes: nat -> Option<nat>) returns (handled: nat)
      requires View() == Desk([], false, map[], [])
      modifies this
      ensures handled == PipelineService.FirstLast(events, 0)
      ensures View() == HandledAll(old(View()), events[..handled], outcomes) && DeskOk(View())
      ensures (forall k: nat :: outcomes(k).None?) ==> sent + batch == PipelineService.Messages(events[..handled])
      ensures exists s :: Reached(s, forall k: nat :: outcomes(k).None?) && Matches(s, View())
                          && s.taken == PipelineService.Messages(events[..handled])
    {
      ghost var d := View();
      handled := 0;
      while handled < |events| && !stopped
        invariant handled <= |events| && View() == HandledAll(d, events[..handled], outcomes) && DeskOk(View())
        invariant PipelineService.FirstLast(events, 0)
                  == if stopped then handled else PipelineService.FirstLast(events, handled)
        invariant (forall k: nat :: outcomes(k).None?) ==> sent + batch == PipelineService.Messages(events[..handled])
        decreases |events| - handled
      {
        PipelineService.MessagesSnoc(events, handled);
        HandledSnoc(d, events, outcomes, handled);
        HandledIsOk(View(), events[handled], outcomes(handled));
        HandleEvent(events[handled], outcomes(handled));
        handled := handled + 1;
      }
      ghost var s := RunMatches(d, events[..handled], outcomes);
    }
  }
}
