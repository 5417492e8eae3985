/** The dispatcher and the database writer in the form the service runs them: objects whose
    methods change channels, a batch buffer, a table and counters in place. */
module PipelineService {
  import opened Channel
  import opened Pipeline

  /** What happens next around the dispatcher's goroutine. */
  datatype Turn =
    | Arrival(m: Msg)                      // an HTTP handler calls Dispatch
    | Progress                             // the goroutine's select, or its current send, goes on if it can
    | SeesDone                             // its select takes the cancelled context
    | WorkerTakesDB | WorkerTakesState | WorkerTakesAlert
    | WorkerMeetsDB                        // a writer waiting at an unbuffered DBChan meets the send

  /** The goroutine's own step, wherever it stands. */
  function Advanced(f: Fan): Fan {
    match f.hand
    case Waiting => Take(f)
    case ToDB(_) => PushDB(f)
    case ToState(_) => PushState(f)
    case ToAlert(_) => PushAlert(f)
  }

  function Turned(f: Fan, t: Turn): Fan {
    match t
    case Arrival(m) => if CanAdmit(f) then Admit(f, m) else f
    case Progress => Advanced(f)
    case SeesDone => f.(halted := true)
    case WorkerTakesDB => f.(db := Drain(f.db))
    case WorkerTakesState => f.(state := Drain(f.state))
    case WorkerTakesAlert => f.(alert := Drain(f.alert))
    case WorkerMeetsDB => HandedOver(f)
  }

  function HandedOver(f: Fan): Fan {
    if f.db.cap == 0 && f.hand.ToDB? && !f.halted then f.(db := f.db.HandOver(f.hand.m), hand := ToState(f.hand.m))
    else f
  }

  /** The action of the whole machine that a turn is, with writer w at the other end of DBChan. */
  function ActionOf(f: Fan, t: Turn, w: nat): Action {
    match t
    case Arrival(m) => Action.Dispatch(m)
    case Progress =>
      (match f.hand
       case Waiting => TakeIngress
       case ToDB(_) => SendDB
       case ToState(_) => SendState
       case ToAlert(_) => SendAlert)
    case SeesDone => Halt
    case WorkerTakesDB => ReceiveDB(w)
    case WorkerTakesState => DrainState
    case WorkerTakesAlert => DrainAlert
    case WorkerMeetsDB => HandOverDB(w)
  }

  /** Every turn is a step of the whole machine, given a writer ready to receive and, where the
      goroutine sees the context done, a cancelled one. */
  lemma TurnIsStep(s: Pipe, t: Turn, w: nat)
    requires IsCollecting(s.pool, w) && (t.SeesDone? ==> s.cancelled)
    ensures Step(s, ActionOf(s.fan, t, w)).fan == Turned(s.fan, t)
  {
  }

  function Played(f: Fan, script: seq<Turn>): Fan
    decreases |script|
  {
    if script == [] then f else Turned(Played(f, script[..|script| - 1]), script[|script| - 1])
  }

  /** What the goroutine's own step does, in terms of the channels: a message it can take or
      deliver moves on by one station, and otherwise nothing changes. */
  lemma ProgressExactly(f: Fan)
    ensures var f', stuck := Turned(f, Progress), Turned(f, Progress) == f;
            if f.halted then stuck
            else match f.hand
              case Waiting =>
                if f.ingress.queue == [] then stuck
                else f'.hand == ToDB(f.ingress.queue[0]) && f'.ingress.queue == f.ingress.queue[1..]
                     && f'.db == f.db && f'.state == f.state && f'.alert == f.alert
              case ToDB(m) =>
                if |f.db.queue| >= f.db.cap then stuck
                else f'.hand == ToState(m) && f'.db.queue == f.db.queue + [m]
                     && f'.ingress == f.ingress && f'.state == f.state && f'.alert == f.alert
              case ToState(m) =>
                if |f.state.queue| >= f.state.cap > 0 then stuck
                else f'.hand == ToAlert(m) && f'.state.sent == f.state.sent + [m]
                     && f'.ingress == f.ingress && f'.db == f.db && f'.alert == f.alert
              case ToAlert(m) =>
                if |f.alert.queue| >= f.alert.cap > 0 then stuck
                else f'.hand == Waiting && f'.alert.sent == f.alert.sent + [m]
                     && f'.ingress == f.ingress && f'.db == f.db && f'.state == f.state
  {
  }

  /** What the other turns do, in the same terms. */
  lemma NeighboursExactly(f: Fan, m: Msg)
    ensures Turned(f, Arrival(m)).ingress.sent == f.ingress.sent + [m]
            <==> |f.ingress.queue| < f.ingress.cap || (f.ingress.cap == 0 && f.hand.Waiting? && !f.halted)
    ensures Turned(f, Arrival(m)) == f || Turned(f, Arrival(m)).ingress.sent == f.ingress.sent + [m]
    ensures Turned(f, SeesDone) == f.(halted := true)
    ensures Turned(f, WorkerTakesDB).db.queue == Tail(f.db.queue)
    ensures Turned(f, WorkerTakesState).state.queue == Tail(f.state.queue)
    ensures Turned(f, WorkerTakesAlert).alert.queue == Tail(f.alert.queue)
    ensures f.db.cap == 0 && f.hand.ToDB? && !f.halted ==>
              var f' := Turned(f, WorkerMeetsDB);
              f'.hand == ToState(f.hand.m) && f'.db.sent == f.db.sent + [f.hand.m] && f'.db.queue == f.db.queue
  {
    assert forall s: seq<Msg> :: s + [m] != s by {
      forall s: seq<Msg> ensures s + [m] != s { assert |s + [m]| == |s| + 1; }
    }
  }

  function Tail(q: seq<Msg>): seq<Msg> {
    if q == [] then [] else q[1..]
  }

  lemma TurnKeepsFan(f: Fan, t: Turn)
    requires FanInv(f)
    ensures FanInv(Turned(f, t))
  {
    match t
    case Arrival(m) => if CanAdmit(f) { AdmitKeepsFan(f, m); }
    case Progress =>
      TakeKeepsFan(f);
      PushKeepsFan(f);
    case WorkerMeetsDB => if f.db.cap == 0 && f.hand.ToDB? { HandOverKeepsFan(f); }
    case _ =>
  }

  lemma {:induction false} PlayKeepsFan(f: Fan, script: seq<Turn>)
    requires FanInv(f)
    ensures FanInv(Played(f, script))
    decreases |script|
  {
    if script != [] {
      PlayKeepsFan(f, script[..|script| - 1]);
      TurnKeepsFan(Played(f, script[..|script| - 1]), script[|script| - 1]);
    }
  }

  class Dispatcher {
    var ingress: Chan<Msg>
    var dbChan: Chan<Msg>
    var stateChan: Chan<Msg>
    var alertChan: Chan<Msg>
    var hand: Hand
    var halted: bool
    var rejected: nat

    ghost function View(): Fan
      reads this
    {
      Fan(ingress, dbChan, stateChan, alertChan, hand, halted)
    }

    constructor (dbSize: nat, stateSize: nat, alertSize: nat)
      ensures View() == NewFan(dbSize, stateSize, alertSize) && rejected == 0 && hand.Waiting? && !halted
      ensures ingress.cap == stateChan.cap == stateSize && dbChan.cap == dbSize && alertChan.cap == alertSize
      ensures ingress.sent == dbChan.sent == stateChan.sent == alertChan.sent == [] && FanInv(View())
    {
      ingress := Make(stateSize);
      dbChan := Make(dbSize);
      stateChan := Make(stateSize);
      alertChan := Make(alertSize);
      hand, halted, rejected := Waiting, false, 0;
    }

    /** Admission never waits: it fails exactly when the ingress cannot take the message now. */
    method Dispatch(m: Msg) returns (ok: bool)
      modifies this
      ensures ok <==> |old(ingress.queue)| < old(ingress.cap)
                      || (old(ingress.cap) == 0 && old(hand).Waiting? && !old(halted))
      ensures ok ==> ingress.sent == old(ingress.sent) + [m]
      ensures ok == CanAdmit(old(View()))
      ensures View() == if ok then Admit(old(View()), m) else old(View())
      ensures rejected == if ok then old(rejected) else old(rejected) + 1
    {
      if ingress.HasRoom() {
        ingress := ingress.Send(m);
        return true;
      }
      if ingress.cap == 0 && hand.Waiting? && !halted {
        ingress := ingress.HandOver(m);
        hand := ToDB(m);
        return true;
      }
      rejected := rejected + 1;
      return false;
    }

    /** The goroutine at its receive or at one of its sends; a send that is blocked stays so. */
    method Advance()
      modifies this
      ensures rejected == old(rejected)
      ensures View() == Advanced(old(View())) && ingress.sent == old(ingress.sent)
    {
      if halted { return; }
      match hand {
        case Waiting =>
          if ingress.queue != [] {
            hand := ToDB(ingress.queue[0]);
            ingress := ingress.Receive();
          }
        case ToDB(m) =>
          if dbChan.HasRoom() {
            dbChan := dbChan.Send(m);
            hand := ToState(m);
          }
        case ToState(m) =>
          if stateChan.HasRoom() || stateChan.cap == 0 {
            stateChan := if stateChan.HasRoom() then stateChan.Send(m) else stateChan.HandOver(m);
            hand := ToAlert(m);
          }
        case ToAlert(m) =>
          if alertChan.HasRoom() || alertChan.cap == 0 {
            alertChan := if alertChan.HasRoom() then alertChan.Send(m) else alertChan.HandOver(m);
            hand := Waiting;
          }
      }
    }

    /** One turn: the goroutine's own, or what a neighbour does to its channels. */
    method TakeTurn(t: Turn) returns (admitted: seq<Msg>)
      modifies this
      ensures View() == Turned(old(View()), t) && ingress.sent == old(ingress.sent) + admitted
      ensures admitted == AdmittedBy(old(View()), t)
      ensures rejected + |admitted| == old(rejected) + if t.Arrival? then 1 else 0
    {
      admitted := [];
      match t {
        case Arrival(m) =>
          var ok := Dispatch(m);
          if ok { admitted := [m]; }
        case Progress => Advance();
        case SeesDone => halted := true;
        case WorkerTakesDB => if dbChan.queue != [] { dbChan := dbChan.Receive(); }
        case WorkerTakesState => if stateChan.queue != [] { stateChan := stateChan.Receive(); }
        case WorkerTakesAlert => if alertChan.queue != [] { alertChan := alertChan.Receive(); }
        case WorkerMeetsDB =>
          if dbChan.cap == 0 && hand.ToDB? && !halted {
            dbChan := dbChan.HandOver(hand.m);
            hand := ToState(hand.m);
          }
      }
    }

    /** The loop of `Run` among its neighbours. Every message admitted while it ran is, in
        order, in the queues or the goroutine's hand, wherever cancellation stopped it. */
    method Run(script: seq<Turn>) returns (admitted: seq<Msg>)
      requires FanInv(View())
      modifies this
      ensures View() == Played(old(View()), script) && FanInv(View())
      ensures ingress.sent == old(ingress.sent) + admitted
      ensures admitted == Admissions(old(View()), script) && Subsequence(admitted, Arrivals(script))
      ensures rejected + |admitted| == old(rejected) + |Arrivals(script)|
    {
      ghost var f := View();
      admitted := [];
      for i := 0 to |script|
        invariant View() == Played(f, script[..i]) && ingress.sent == f.ingress.sent + admitted
        invariant admitted == Admissions(f, script[..i])
        invariant rejected + |admitted| == old(rejected) + |Arrivals(script[..i])|
      {
        PlayedSnoc(f, script, i);
        var more := TakeTurn(script[i]);
        admitted := admitted + more;
      }
      assert script[..|script|] == script;
      PlayKeepsFan(f, script);
      AdmissionsInOrder(f, script);
    }
  }

  function Arrivals(script: seq<Turn>): seq<Msg>
    decreases |script|
  {
    if script == [] then []
    else
      var t := script[|script| - 1];
      Arrivals(script[..|script| - 1]) + if t.Arrival? then [t.m] else []
  }

  function AdmittedBy(f: Fan, t: Turn): seq<Msg> {
    if t.Arrival? && CanAdmit(f) then [t.m] else []
  }

  /** The arrivals that found room, in order. */
  function Admissions(f: Fan, script: seq<Turn>): seq<Msg>
    decreases |script|
  {
    if script == [] then []
    else
      var n := |script| - 1;
      Admissions(f, script[..n]) + AdmittedBy(Played(f, script[..n]), script[n])
  }

  /** a is b with some elements left out. */
  ghost predicate Subsequence<T(!new)>(a: seq<T>, b: seq<T>)
    decreases |b|
  {
    || a == []
    || (b != [] && Subsequence(a, b[..|b| - 1]))
    || (b != [] && a[|a| - 1] == b[|b| - 1] && Subsequence(a[..|a| - 1], b[..|b| - 1]))
  }

  lemma SubsequenceSnoc<T(!new)>(a: seq<T>, b: seq<T>, x: T)
    requires Subsequence(a, b)
    ensures Subsequence(a, b + [x]) && Subsequence(a + [x], b + [x])
  {
    assert (b + [x])[..|b|] == b && (a + [x])[..|a|] == a;
  }

  lemma {:induction false} AdmissionsInOrder(f: Fan, script: seq<Turn>)
    ensures Subsequence(Admissions(f, script), Arrivals(script))
    decreases |script|
  {
    if script != [] {
      var n := |script| - 1;
      AdmissionsInOrder(f, script[..n]);
      var a, b := Admissions(f, script[..n]), Arrivals(script[..n]);
      if script[n].Arrival? {
        SubsequenceSnoc(a, b, script[n].m);
        assert Admissions(f, script) == a || Admissions(f, script) == a + [script[n].m];
      } else {
        assert a + [] == a && b + [] == b;
      }
    }
  }

  lemma PlayedSnoc(f: Fan, script: seq<Turn>, n: nat)
    requires n < |script|
    ensures Played(f, script[..n + 1]) == Turned(Played(f, script[..n]), script[n])
    ensures Admissions(f, script[..n + 1]) == Admissions(f, script[..n]) + AdmittedBy(Played(f, script[..n]), script[n])
    ensures |Arrivals(script[..n + 1])| == |Arrivals(script[..n])| + if script[n].Arrival? then 1 else 0
  {
    assert script[..n + 1][..n] == script[..n];
  }

  // --------------------------------------------------------------- database writer

  datatype Event = Message(m: Msg) | TickerFired | ChannelClosed | ContextDone

  predicate IsLast(e: Event) { e.ChannelClosed? || e.ContextDone? }

  function Messages(events: seq<Event>): seq<Msg>
    decreases |events|
  {
    if events == [] then []
    else
      var e := events[|events| - 1];
      Messages(events[..|events| - 1]) + if e.Message? then [e.m] else []
  }

  lemma MessagesSnoc(events: seq<Event>, n: nat)
    requires n < |events|
    ensures Messages(events[..n + 1]) == Messages(events[..n]) + if events[n].Message? then [events[n].m] else []
  {
    assert events[..n + 1][..n] == events[..n];
  }

  /** The number of events up to and including the first closing one at or after `from`. */
  function FirstLast(events: seq<Event>, from: nat): (n: nat)
    requires from <= |events|
    ensures from <= n <= |events|
    ensures forall k :: from <= k < n - 1 ==> !IsLast(events[k])
    ensures n < |events| ==> from < n && IsLast(events[n - 1])
    decreases |events| - from
  {
    if from == |events| then from
    else if IsLast(events[from]) then from + 1
    else FirstLast(events, from + 1)
  }

  function Concat(batches: seq<seq<Msg>>): seq<Msg>
    decreases |batches|
  {
    if batches == [] then [] else Concat(batches[..|batches| - 1]) + batches[|batches| - 1]
  }

  function Credited(st: Store, batch: seq<Msg>): Store {
    st.(success := st.success + |batch|)
  }

  function GivenUp(st: Store, batch: seq<Msg>): Store {
    st.(abandoned := st.abandoned + multiset(batch), failures := st.failures + |batch|)
  }

  /** The store after a whole `flush`: insert, retry once, count. */
  function FlushedStore(st: Store, batch: seq<Msg>, first: Reply, second: Reply): Store {
    var st1 := AfterInsert(st, batch, first);
    if first.Committed? then Credited(st1, batch)
    else
      var st2 := AfterInsert(st1, batch, second);
      if second.Committed? then Credited(st2, batch) else GivenUp(st2, batch)
  }

  /** What a flush comes to. The second attempt is made only after the first failed; the batch
      counts as a success exactly when one of them was acknowledged, and otherwise as given up;
      the table has it as often as an attempt that was made went through. */
  lemma FlushOutcome(st: Store, batch: seq<Msg>, first: Reply, second: Reply)
    ensures var st', once := FlushedStore(st, batch, first, second), multiset(batch);
            && (first.Committed? ==> st' == st.(persisted := st.persisted + once, success := st.success + |batch|))
            && (first.Refused? && second.Committed? ==>
                  st' == st.(persisted := st.persisted + once, success := st.success + |batch|))
            && (first.Refused? && second.Refused? ==>
                  st' == st.(abandoned := st.abandoned + once, failures := st.failures + |batch|))
            && (first.CommittedUnacknowledged? && second.Committed? ==>
                  st'.persisted == st.persisted + once + once && st'.success == st.success + |batch|
                  && st'.failures == st.failures && st'.abandoned == st.abandoned)
            && (!first.Committed? && !second.Committed? ==>
                  st'.abandoned == st.abandoned + once && st'.failures == st.failures + |batch|
                  && st'.success == st.success)
  {
  }

  lemma OneInsert(p: Pool, w: Writer, reply: Reply)
    requires p.writers == [w] && w.phase.Inserting?
    ensures InsertStep(p, 0, reply) == Pool(p.batchSize, [InsertedWriter(w, reply)], InsertedStore(w, p.store, reply))
  {
  }

  lemma OneCount(p: Pool, batch: seq<Msg>, ok: bool, final: bool)
    requires p.writers == [Writer(batch, Recorded(ok, final))]
    ensures CountStep(p, 0) == Pool(p.batchSize, [AfterFlush(final)],
                                    if ok then Credited(p.store, batch)
                                    else p.store.(failures := p.store.failures + |batch|))
  {
  }

  /** A whole `flush` is a schedule of the pool machine: two insert replies (the second is
      ignored after a commit) and the counter. */
  lemma FlushIsPoolSteps(p: Pool, batch: seq<Msg>, final: bool, first: Reply, second: Reply)
    requires p.writers == [Writer(batch, Inserting(false, final))]
    ensures CountStep(InsertStep(InsertStep(p, 0, first), 0, second), 0)
            == Pool(p.batchSize, [AfterFlush(final)], FlushedStore(p.store, batch, first, second))
  {
    OneInsert(p, p.writers[0], first);
    var p1 := InsertStep(p, 0, first);
    if first.Committed? {
      OneCount(p1, batch, true, final);
    } else {
      OneInsert(p1, Writer(batch, Inserting(true, final)), second);
      OneCount(InsertStep(p1, 0, second), batch, second.Committed?, final);
    }
  }

  lemma FlushKeepsPool(batchSize: nat, st: Store, batch: seq<Msg>, received: seq<Msg>,
                       final: bool, first: Reply, second: Reply)
    requires PoolInv(Pool(batchSize, [Writer(batch, Inserting(false, final))], st), received)
    ensures PoolInv(Pool(batchSize, [AfterFlush(final)], FlushedStore(st, batch, first, second)), received)
  {
    var p := Pool(batchSize, [Writer(batch, Inserting(false, final))], st);
    InsertKeepsPool(p, received, 0, first);
    InsertKeepsPool(InsertStep(p, 0, first), received, 0, second);
    CountKeepsPool(InsertStep(InsertStep(p, 0, first), 0, second), received, 0);
    FlushIsPoolSteps(p, batch, final, first, second);
  }

  lemma StopBooks(batchSize: nat, st: Store, batch: seq<Msg>, received: seq<Msg>)
    requires PoolInv(Pool(batchSize, [Writer(batch, Collecting)], st), received)
    ensures PoolInv(Pool(batchSize, [StoppedWriter(batch)], st), received)
  {
    var p := Pool(batchSize, [Writer(batch, Collecting)], st);
    StopKeepsPool(p, received, 0);
    assert StopWriter(p, 0) == Pool(batchSize, [StoppedWriter(batch)], st);
  }

  lemma TickBooks(batchSize: nat, st: Store, batch: seq<Msg>, received: seq<Msg>)
    requires PoolInv(Pool(batchSize, [Writer(batch, Collecting)], st), received) && batch != []
    ensures PoolInv(Pool(batchSize, [Writer(batch, Inserting(false, false))], st), received)
  {
    var p := Pool(batchSize, [Writer(batch, Collecting)], st);
    TickKeepsPool(p, received, 0);
    assert TickWriter(p, 0) == Pool(batchSize, [Writer(batch, Inserting(false, false))], st);
  }

  lemma AbsorbBooks(batchSize: nat, st: Store, batch: seq<Msg>, received: seq<Msg>, m: Msg)
    requires PoolInv(Pool(batchSize, [Writer(batch, Collecting)], st), received)
    ensures PoolInv(Pool(batchSize, [Absorb(Writer(batch, Collecting), m, batchSize)], st), received + [m])
  {
    var p, w := Pool(batchSize, [Writer(batch, Collecting)], st), Absorb(Writer(batch, Collecting), m, batchSize);
    AbsorbKeepsPool(p, received, 0, m);
    assert SetWriter(p, 0, w, st) == Pool(batchSize, [w], st);
  }

  /** A writer's buffer, table and counters, with the batches it has handed to flush. */
  datatype Ledger = Ledger(batch: seq<Msg>, stopped: bool, store: Store, flushed: seq<seq<Msg>>)

  function Flushed(l: Ledger, replies: (Reply, Reply)): Ledger {
    Ledger([], l.stopped, FlushedStore(l.store, l.batch, replies.0, replies.1), l.flushed + [l.batch])
  }

  /** One round of the select. */
  function Handled(l: Ledger, e: Event, replies: (Reply, Reply), batchSize: nat): Ledger {
    match e
    case Message(m) =>
      var l' := l.(batch := l.batch + [m]);
      if |l'.batch| >= batchSize then Flushed(l', replies) else l'
    case TickerFired => if l.batch == [] then l else Flushed(l, replies)
    case _ =>
      var l' := l.(stopped := true);
      if l.batch == [] then l' else Flushed(l', replies)
  }

  function HandledAll(l: Ledger, events: seq<Event>, replies: nat -> (Reply, Reply), batchSize: nat): Ledger
    decreases |events|
  {
    if events == [] then l
    else
      var n := |events| - 1;
      Handled(HandledAll(l, events[..n], replies, batchSize), events[n], replies(n), batchSize)
  }

  lemma HandledSnoc(l: Ledger, events: seq<Event>, replies: nat -> (Reply, Reply), batchSize: nat, n: nat)
    requires n < |events|
    ensures HandledAll(l, events[..n + 1], replies, batchSize)
            == Handled(HandledAll(l, events[..n], replies, batchSize), events[n], replies(n), batchSize)
  {
    assert events[..n + 1][..n] == events[..n];
  }

  /** What one round does, case by case: a message waits in the buffer until the buffer is full,
      a tick or a closing event leaves nothing behind, and what leaves the buffer is flushed as
      one batch. */
  lemma RoundExactly(l: Ledger, e: Event, replies: (Reply, Reply), batchSize: nat)
    ensures var l' := Handled(l, e, replies, batchSize);
            var due := if e.Message? then l.batch + [e.m] else l.batch;
            if (if e.Message? then |due| < batchSize else due == []) then
              l'.batch == due && l'.flushed == l.flushed && l'.store == l.store
            else
              && l'.batch == [] && l'.flushed == l.flushed + [due]
              && l'.store == FlushedStore(l.store, due, replies.0, replies.1)
    ensures Handled(l, e, replies, batchSize).stopped == (l.stopped || e.ChannelClosed? || e.ContextDone?)
  {
  }

  /** After a tick, or when the loop ends, nothing is held, and with an acknowledged insert all
      that was held is in the table. */
  lemma TickEmpties(l: Ledger, e: Event, replies: (Reply, Reply), batchSize: nat)
    requires !e.Message?
    ensures var l' := Handled(l, e, replies, batchSize);
            && l'.batch == []
            && (replies.0.Committed? ==> l'.store.persisted == l.store.persisted + multiset(l.batch)
                                         && l'.store.success == l.store.success + |l.batch|)
  {
    RoundExactly(l, e, replies, batchSize);
    if l.batch != [] {
      FlushOutcome(l.store, l.batch, replies.0, replies.1);
    } else {
      assert l.store.persisted + multiset(l.batch) == l.store.persisted;
    }
  }

  /** Cut at each flush, the batches are the received messages in order, no batch is empty or
      over the batch size, and the books balance. */
  ghost predicate Books(l: Ledger, batchSize: nat, received: seq<Msg>) {
    && PoolInv(Pool(batchSize, [Writer(l.batch, if l.stopped then Stopped else Collecting)], l.store), received)
    && CutInOrder(l, batchSize, received)
  }

  ghost predicate CutInOrder(l: Ledger, batchSize: nat, received: seq<Msg>) {
    && Concat(l.flushed) + l.batch == received
    && Sized(l.flushed, batchSize)
  }

  ghost predicate Sized(batches: seq<seq<Msg>>, batchSize: nat) {
    forall k :: 0 <= k < |batches| ==> 1 <= |batches[k]| <= batchSize
  }

  // ---- each round as steps of the pool machine

  ghost function PoolOf(l: Ledger, batchSize: nat): Pool {
    Pool(batchSize, [Writer(l.batch, if l.stopped then Stopped else Collecting)], l.store)
  }

  /** The pool after the select has taken e. */
  ghost function Selected(p: Pool, e: Event): Pool
    requires |p.writers| == 1
  {
    match e
    case Message(m) => SetWriter(p, 0, Absorb(p.writers[0], m, p.batchSize), p.store)
    case TickerFired => TickWriter(p, 0)
    case _ => StopWriter(p, 0)
  }

  /** Two insert replies and the count; each does nothing where it is not due. */
  ghost function FlushSteps(p: Pool, replies: (Reply, Reply)): Pool {
    CountStep(InsertStep(InsertStep(p, 0, replies.0), 0, replies.1), 0)
  }

  lemma IdleFlushSteps(p: Pool, w: Writer, replies: (Reply, Reply))
    requires p.writers == [w] && (w.phase.Collecting? || w.phase.Stopped?)
    ensures FlushSteps(p, replies) == p
  {
  }

  /** One round of the loop is those steps of the pool machine, with one writer. */
  lemma HandledIsPoolSteps(l: Ledger, e: Event, replies: (Reply, Reply), batchSize: nat)
    requires !l.stopped
    ensures PoolOf(Handled(l, e, replies, batchSize), batchSize)
            == FlushSteps(Selected(PoolOf(l, batchSize), e), replies)
  {
    var p := Selected(PoolOf(l, batchSize), e);
    var w := p.writers[0];
    assert p == Pool(batchSize, [w], l.store);
    if w.phase.Inserting? {
      FlushIsPoolSteps(p, w.batch, w.phase.final, replies.0, replies.1);
    } else {
      IdleFlushSteps(p, w, replies);
    }
  }

  lemma FlushedKeepsBooks(l: Ledger, replies: (Reply, Reply), batchSize: nat, received: seq<Msg>)
    requires PoolInv(Pool(batchSize, [Writer(l.batch, Inserting(false, l.stopped))], l.store), received)
    requires CutInOrder(l, batchSize, received)
    ensures Books(Flushed(l, replies), batchSize, received)
  {
    FlushKeepsPool(batchSize, l.store, l.batch, received, l.stopped, replies.0, replies.1);
    FlushSized(batchSize, l.store, l.batch, received, l.stopped);
    CutOnce(l, Flushed(l, replies), batchSize, received);
  }

  lemma FlushSized(batchSize: nat, st: Store, batch: seq<Msg>, received: seq<Msg>, final: bool)
    requires PoolInv(Pool(batchSize, [Writer(batch, Inserting(false, final))], st), received)
    ensures 1 <= |batch| <= batchSize
  {
    assert WriterOk([Writer(batch, Inserting(false, final))][0], batchSize);
  }

  lemma ConcatSnoc(batches: seq<seq<Msg>>, batch: seq<Msg>)
    ensures Concat(batches + [batch]) == Concat(batches) + batch
  {
    assert (batches + [batch])[..|batches|] == batches;
  }

  lemma SizedSnoc(batches: seq<seq<Msg>>, batch: seq<Msg>, batchSize: nat)
    requires Sized(batches, batchSize) && 1 <= |batch| <= batchSize
    ensures Sized(batches + [batch], batchSize)
  {
  }

  lemma CutOnce(l: Ledger, l': Ledger, batchSize: nat, received: seq<Msg>)
    requires CutInOrder(l, batchSize, received) && 1 <= |l.batch| <= batchSize
    requires l'.batch == [] && l'.flushed == l.flushed + [l.batch]
    ensures CutInOrder(l', batchSize, received)
  {
    ConcatSnoc(l.flushed, l.batch);
    SizedSnoc(l.flushed, l.batch, batchSize);
  }

  lemma MessageKeepsBooks(l: Ledger, m: Msg, replies: (Reply, Reply), batchSize: nat, received: seq<Msg>)
    requires Books(l, batchSize, received) && !l.stopped
    ensures Books(Handled(l, Message(m), replies, batchSize), batchSize, received + [m])
  {
    AbsorbBooks(batchSize, l.store, l.batch, received, m);
    var l' := l.(batch := l.batch + [m]);
    assert CutInOrder(l', batchSize, received + [m]);
    if |l'.batch| >= batchSize { FlushedKeepsBooks(l', replies, batchSize, received + [m]); }
  }

  lemma TickKeepsBooks(l: Ledger, replies: (Reply, Reply), batchSize: nat, received: seq<Msg>)
    requires Books(l, batchSize, received) && !l.stopped
    ensures Books(Handled(l, TickerFired, replies, batchSize), batchSize, received)
  {
    if l.batch != [] {
      TickBooks(batchSize, l.store, l.batch, received);
      FlushedKeepsBooks(l, replies, batchSize, received);
    }
  }

  lemma LastKeepsBooks(l: Ledger, e: Event, replies: (Reply, Reply), batchSize: nat, received: seq<Msg>)
    requires Books(l, batchSize, received) && !l.stopped && IsLast(e)
    ensures Books(Handled(l, e, replies, batchSize), batchSize, received)
  {
    StopBooks(batchSize, l.store, l.batch, received);
    if l.batch != [] { FlushedKeepsBooks(l.(stopped := true), replies, batchSize, received); }
  }

  lemma HandledKeepsBooks(l: Ledger, e: Event, replies: (Reply, Reply), batchSize: nat, received: seq<Msg>)
    requires Books(l, batchSize, received) && !l.stopped
    ensures Books(Handled(l, e, replies, batchSize), batchSize, received + if e.Message? then [e.m] else [])
  {
    assert received + [] == received;
    match e
    case Message(m) => MessageKeepsBooks(l, m, replies, batchSize, received);
    case TickerFired => TickKeepsBooks(l, replies, batchSize, received);
    case _ => LastKeepsBooks(l, e, replies, batchSize, received);
  }

  lemma StopsWhenLast(l: Ledger, e: Event, replies: (Reply, Reply), batchSize: nat)
    requires !l.stopped
    ensures Handled(l, e, replies, batchSize).stopped == IsLast(e)
    ensures IsLast(e) ==> Handled(l, e, replies, batchSize).batch == []
  {
  }

  /** The n-th event is a closing one. */
  ghost predicate EndsAt(events: seq<Event>, n: nat)
    requires n <= |events|
  {
    n > 0 && IsLast(events[n - 1])
  }

  /** Before the n-th event there is no closing one. */
  ghost predicate RunsTo(events: seq<Event>, n: nat)
    requires n <= |events|
  {
    forall k :: 0 <= k < n - 1 ==> !IsLast(events[k])
  }

  lemma FirstLastUnique(events: seq<Event>, n: nat)
    requires n <= |events| && RunsTo(events, n) && (n < |events| ==> EndsAt(events, n))
    ensures FirstLast(events, 0) == n
  {
  }

  lemma {:induction false} RunStops(l: Ledger, events: seq<Event>, replies: nat -> (Reply, Reply),
                                    batchSize: nat, n: nat)
    requires n <= |events| && RunsTo(events, n) && !l.stopped
    ensures var l' := HandledAll(l, events[..n], replies, batchSize);
            l'.stopped == EndsAt(events, n) && (l'.stopped ==> l'.batch == [])
  {
    if n > 0 {
      RunStops(l, events, replies, batchSize, n - 1);
      HandledSnoc(l, events, replies, batchSize, n - 1);
      StopsWhenLast(HandledAll(l, events[..n - 1], replies, batchSize), events[n - 1], replies(n - 1), batchSize);
    }
  }

  ghost predicate RoundKeeps(inv: (Ledger, seq<Msg>) -> bool, batchSize: nat,
                             l: Ledger, received: seq<Msg>, e: Event, replies: (Reply, Reply)) {
    inv(l, received) && !l.stopped ==>
      inv(Handled(l, e, replies, batchSize), received + if e.Message? then [e.m] else [])
  }

  /** What every round keeps holds after every run that has not gone past a closing event. */
  lemma {:induction false} RunKeeps(inv: (Ledger, seq<Msg>) -> bool, l: Ledger, events: seq<Event>,
                                    replies: nat -> (Reply, Reply), batchSize: nat, n: nat)
    requires n <= |events| && RunsTo(events, n) && inv(l, []) && !l.stopped
    requires forall l1, received, e, r :: RoundKeeps(inv, batchSize, l1, received, e, r)
    ensures inv(HandledAll(l, events[..n], replies, batchSize), Messages(events[..n]))
  {
    if n == 0 {
      assert events[..0] == [];
    } else {
      RunKeeps(inv, l, events, replies, batchSize, n - 1);
      RunStops(l, events, replies, batchSize, n - 1);
      HandledSnoc(l, events, replies, batchSize, n - 1);
      MessagesSnoc(events, n - 1);
      assert RoundKeeps(inv, batchSize, HandledAll(l, events[..n - 1], replies, batchSize), Messages(events[..n - 1]),
                        events[n - 1], replies(n - 1));
    }
  }

  /** So the books balance. */
  lemma RunKeepsBooks(l: Ledger, events: seq<Event>, replies: nat -> (Reply, Reply), batchSize: nat, n: nat)
    requires n <= |events| && RunsTo(events, n) && Books(l, batchSize, []) && !l.stopped
    ensures Books(HandledAll(l, events[..n], replies, batchSize), batchSize, Messages(events[..n]))
  {
    var inv := (l1: Ledger, received: seq<Msg>) => Books(l1, batchSize, received);
    forall l1, received, e, r ensures RoundKeeps(inv, batchSize, l1, received, e, r) {
      if inv(l1, received) && !l1.stopped { HandledKeepsBooks(l1, e, r, batchSize, received); }
    }
    RunKeeps(inv, l, events, replies, batchSize, n);
  }

  class DBWriter {
    const batchSize: nat
    var batch: seq<Msg>
    var stopped: bool
    var store: Store
    ghost var flushed: seq<seq<Msg>>  // the batches handed to flush, oldest first

    ghost function View(): Ledger
      reads this
    {
      Ledger(batch, stopped, store, flushed)
    }

    constructor (requestedBatchSize: int)
      ensures batchSize == ClampedBatchSize(requestedBatchSize)
      ensures View() == Ledger([], false, Store(multiset{}, multiset{}, multiset{}, 0, 0), [])
      ensures Books(View(), batchSize, [])
    {
      batchSize := ClampedBatchSize(requestedBatchSize);
      batch, stopped, flushed := [], false, [];
      store := Store(multiset{}, multiset{}, multiset{}, 0, 0);
      new;
      BagEmpty([Writer([], Collecting)], Held);
      BagEmpty([Writer([], Collecting)], Uncounted);
      BagEmpty([Writer([], Collecting)], Unreported);
    }

    /** One call of the table's `BatchInsert`; `reply` is what the database does with it. */
    method BatchInsert(reply: Reply) returns (ok: bool)
      modifies this`store
      ensures ok == reply.Committed? && store == AfterInsert(old(store), batch, reply)
    {
      if !reply.Refused? {
        store := store.(persisted := store.persisted + multiset(batch));
      }
      if reply.CommittedUnacknowledged? {
        store := store.(duplicated := store.duplicated + multiset(batch));
      }
      return reply.Committed?;
    }

    /** `flush`: insert, retry once, count; the caller then empties the buffer for reuse. */
    method Flush(replies: (Reply, Reply))
      modifies this`store, this`flushed
      ensures store == FlushedStore(old(store), batch, replies.0, replies.1)
      ensures flushed == old(flushed) + [batch]
    {
      flushed := flushed + [batch];
      var ok := BatchInsert(replies.0);
      if !ok {
        ok := BatchInsert(replies.1);
        if !ok {
          store := GivenUp(store, batch);
          return;
        }
      }
      store := Credited(store, batch);
    }

    /** One round of the loop's select. */
    method HandleEvent(e: Event, replies: (Reply, Reply))
      modifies this
      ensures View() == Handled(old(View()), e, replies, batchSize)
    {
      match e {
        case Message(m) =>
          batch := batch + [m];
          if |batch| >= batchSize {
            Flush(replies);
            batch := [];
          }
        case TickerFired =>
          if |batch| > 0 {
            Flush(replies);
            batch := [];
          }
        case _ =>
          if |batch| > 0 {
            Flush(replies);
          }
          batch, stopped := [], true;
      }
    }

    /** The loop of `Run`: events in the order the select takes them, `replies` the database's
        answers. It returns on the first closing event and then leaves nothing in the batch. */
    method Run(events: seq<Event>, replies: nat -> (Reply, Reply)) returns (handled: nat)
      requires Books(View(), batchSize, []) && !stopped
      modifies this
      ensures handled == FirstLast(events, 0) && (stopped ==> batch == []) && (handled < |events| ==> stopped)
      ensures stopped <==> handled > 0 && (events[handled - 1].ChannelClosed? || events[handled - 1].ContextDone?)
      ensures View() == HandledAll(old(View()), events[..handled], replies, batchSize)
      ensures Books(View(), batchSize, Messages(events[..handled]))
    {
      ghost var l := View();
      handled := 0;
      while handled < |events| && !stopped
        invariant handled <= |events| && View() == HandledAll(l, events[..handled], replies, batchSize)
        invariant stopped == EndsAt(events, handled) && RunsTo(events, handled)
        decreases |events| - handled
      {
        HandledSnoc(l, events, replies, batchSize, handled);
        StopsWhenLast(View(), events[handled], replies(handled), batchSize);
        HandleEvent(events[handled], replies(handled));
        handled := handled + 1;
      }
      RunStops(l, events, replies, batchSize, handled);
      RunKeepsBooks(l, events, replies, batchSize, handled);
      FirstLastUnique(events, handled);
    }
  }
}
