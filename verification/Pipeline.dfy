/** The ingestion pipeline as a machine of atomic steps: one dispatcher, any number of
    database writers, four channels, and a telemetry table that accepts or refuses a batch
    as a whole. A schedule is any sequence of actions; an action that cannot happen in the
    current state is a blocked goroutine and changes nothing. */
module Pipeline {
  import opened Domain
  import opened Channel

  type Msg = Telemetry

  // ---------------------------------------------------------------- dispatcher

  /** Where the dispatcher's goroutine stands: at its receive, or at one of its three sends. */
  datatype Hand = Waiting | ToDB(m: Msg) | ToState(m: Msg) | ToAlert(m: Msg)

  datatype Fan = Fan(
    ingress: Chan<Msg>, db: Chan<Msg>, state: Chan<Msg>, alert: Chan<Msg>,
    hand: Hand, halted: bool)

  function NewFan(dbSize: nat, stateSize: nat, alertSize: nat): Fan {
    Fan(Make(stateSize), Make(dbSize), Make(stateSize), Make(alertSize), Waiting, false)
  }

  /** `Dispatch` admits a message: into the buffer, or straight to a dispatcher that waits. */
  predicate CanAdmit(f: Fan) {
    f.ingress.HasRoom() || (f.ingress.cap == 0 && f.hand.Waiting? && !f.halted)
  }

  function Admit(f: Fan, m: Msg): Fan
    requires CanAdmit(f)
  {
    if f.ingress.HasRoom() then f.(ingress := f.ingress.Send(m))
    else f.(ingress := f.ingress.HandOver(m), hand := ToDB(m))
  }

  function Take(f: Fan): Fan {
    if f.hand.Waiting? && !f.halted && f.ingress.queue != [] then
      f.(hand := ToDB(f.ingress.queue[0]), ingress := f.ingress.Receive())
    else f
  }

  function PushDB(f: Fan): Fan {
    if f.hand.ToDB? && !f.halted && f.db.HasRoom() then
      f.(hand := ToState(f.hand.m), db := f.db.Send(f.hand.m))
    else f
  }

  function PushState(f: Fan): Fan {
    if f.hand.ToState? && !f.halted && f.state.HasRoom() then
      f.(hand := ToAlert(f.hand.m), state := f.state.Send(f.hand.m))
    else if f.hand.ToState? && !f.halted && f.state.cap == 0 then
      f.(hand := ToAlert(f.hand.m), state := f.state.HandOver(f.hand.m))
    else f
  }

  function PushAlert(f: Fan): Fan {
    if f.hand.ToAlert? && !f.halted && f.alert.HasRoom() then
      f.(hand := Waiting, alert := f.alert.Send(f.hand.m))
    else if f.hand.ToAlert? && !f.halted && f.alert.cap == 0 then
      f.(hand := Waiting, alert := f.alert.HandOver(f.hand.m))
    else f
  }

  function Drain(c: Chan<Msg>): Chan<Msg> {
    if c.queue != [] then c.Receive() else c
  }

  // ------------------------------------------------------------ database writers

  /** `Inserting` covers both calls of `BatchInsert` in `flush`, `Recorded` the moment between
      the last reply and the counter update; `final` marks a flush after which `Run` returns. */
  datatype Phase =
    | Collecting
    | Inserting(retry: bool, final: bool)
    | Recorded(ok: bool, final: bool)
    | Stopped

  datatype Writer = Writer(batch: seq<Msg>, phase: Phase)

  datatype Store = Store(
    persisted: multiset<Msg>,   // rows of the telemetry table
    abandoned: multiset<Msg>,   // batches whose second attempt failed too
    duplicated: multiset<Msg>,  // batches committed although the reply was an error
    success: nat, failures: nat)

  datatype Pool = Pool(batchSize: nat, writers: seq<Writer>, store: Store)

  /** The constructor's clamp. */
  function ClampedBatchSize(batchSize: int): (n: nat)
    ensures 1 <= n && (batchSize >= 1 ==> n == batchSize) && (batchSize < 1 ==> n == 1)
  {
    if batchSize < 1 then 1 else batchSize
  }

  function Absorb(w: Writer, m: Msg, batchSize: nat): Writer {
    var batch := w.batch + [m];
    Writer(batch, if |batch| >= batchSize then Inserting(false, false) else Collecting)
  }

  function AfterFlush(final: bool): Writer {
    Writer([], if final then Stopped else Collecting)
  }

  function SetWriter(p: Pool, i: nat, w: Writer, st: Store): Pool
    requires i < |p.writers|
  {
    p.(writers := p.writers[i := w], store := st)
  }

  predicate IsCollecting(p: Pool, i: nat) {
    i < |p.writers| && p.writers[i].phase.Collecting?
  }

  function TickWriter(p: Pool, i: nat): Pool {
    if IsCollecting(p, i) && p.writers[i].batch != [] then
      SetWriter(p, i, p.writers[i].(phase := Inserting(false, false)), p.store)
    else p
  }

  /** A writer that sees the end: a last flush if it holds anything, otherwise it returns. */
  function StoppedWriter(batch: seq<Msg>): Writer {
    Writer(batch, if batch != [] then Inserting(false, true) else Stopped)
  }

  function StopWriter(p: Pool, i: nat): Pool {
    if IsCollecting(p, i) then SetWriter(p, i, StoppedWriter(p.writers[i].batch), p.store) else p
  }

  /** The reply to `BatchInsert`: committed, refused, or committed with the acknowledgement lost. */
  datatype Reply = Committed | Refused | CommittedUnacknowledged

  function AfterInsert(st: Store, batch: seq<Msg>, reply: Reply): Store {
    match reply
    case Committed => st.(persisted := st.persisted + multiset(batch))
    case Refused => st
    case CommittedUnacknowledged =>
      st.(persisted := st.persisted + multiset(batch), duplicated := st.duplicated + multiset(batch))
  }

  /** An error on the first attempt leads to the retry, an error on the retry to giving up. */
  function InsertedWriter(w: Writer, reply: Reply): Writer
    requires w.phase.Inserting?
  {
    if reply.Committed? then w.(phase := Recorded(true, w.phase.final))
    else if w.phase.retry then w.(phase := Recorded(false, w.phase.final))
    else w.(phase := Inserting(true, w.phase.final))
  }

  function InsertedStore(w: Writer, st: Store, reply: Reply): Store
    requires w.phase.Inserting?
  {
    var st' := AfterInsert(st, w.batch, reply);
    if !reply.Committed? && w.phase.retry then st'.(abandoned := st'.abandoned + multiset(w.batch)) else st'
  }

  function InsertStep(p: Pool, i: nat, reply: Reply): Pool {
    if i >= |p.writers| || !p.writers[i].phase.Inserting? then p
    else SetWriter(p, i, InsertedWriter(p.writers[i], reply), InsertedStore(p.writers[i], p.store, reply))
  }

  function CountStep(p: Pool, i: nat): Pool {
    if i >= |p.writers| || !p.writers[i].phase.Recorded? then p
    else
      var w, st := p.writers[i], p.store;
      SetWriter(p, i, AfterFlush(w.phase.final),
                if w.phase.ok then st.(success := st.success + |w.batch|)
                else st.(failures := st.failures + |w.batch|))
  }

  // ------------------------------------------------------------- the whole machine

  datatype Pipe = Pipe(fan: Fan, pool: Pool, cancelled: bool, rejected: nat)

  datatype Action =
    | Dispatch(m: Msg)
    | Cancel
    | TakeIngress | SendDB | SendState | SendAlert
    | HandOverDB(w: nat)                   // SendDB on an unbuffered DBChan: writer w receives at once
    | Halt                                 // the dispatcher sees the cancelled context and returns
    | DrainState | DrainAlert
    | ReceiveDB(w: nat) | Tick(w: nat) | SeeCancel(w: nat)
    | Insert(w: nat, reply: Reply) | Count(w: nat)

  datatype Config = Config(dbSize: nat, stateSize: nat, alertSize: nat, batchSize: int, writers: nat)

  function Init(c: Config): Pipe {
    Pipe(NewFan(c.dbSize, c.stateSize, c.alertSize),
         Pool(ClampedBatchSize(c.batchSize), seq(c.writers, _ => Writer([], Collecting)),
              Store(multiset{}, multiset{}, multiset{}, 0, 0)),
         false, 0)
  }

  function DispatchStep(s: Pipe, m: Msg): Pipe {
    if CanAdmit(s.fan) then s.(fan := Admit(s.fan, m)) else s.(rejected := s.rejected + 1)
  }

  function ReceiveStep(s: Pipe, i: nat): Pipe {
    if IsCollecting(s.pool, i) && s.fan.db.queue != [] then
      s.(fan := s.fan.(db := s.fan.db.Receive()),
         pool := SetWriter(s.pool, i, Absorb(s.pool.writers[i], s.fan.db.queue[0], s.pool.batchSize), s.pool.store))
    else s
  }

  function HandOverStep(s: Pipe, i: nat): Pipe {
    if s.fan.db.cap == 0 && s.fan.hand.ToDB? && !s.fan.halted && IsCollecting(s.pool, i) then
      var m := s.fan.hand.m;
      s.(fan := s.fan.(db := s.fan.db.HandOver(m), hand := ToState(m)),
         pool := SetWriter(s.pool, i, Absorb(s.pool.writers[i], m, s.pool.batchSize), s.pool.store))
    else s
  }

  function Step(s: Pipe, a: Action): Pipe {
    match a
    case Dispatch(m) => DispatchStep(s, m)
    case Cancel => s.(cancelled := true)
    case TakeIngress => s.(fan := Take(s.fan))
    case SendDB => s.(fan := PushDB(s.fan))
    case SendState => s.(fan := PushState(s.fan))
    case SendAlert => s.(fan := PushAlert(s.fan))
    case HandOverDB(w) => HandOverStep(s, w)
    case Halt => if s.cancelled then s.(fan := s.fan.(halted := true)) else s
    case DrainState => s.(fan := s.fan.(state := Drain(s.fan.state)))
    case DrainAlert => s.(fan := s.fan.(alert := Drain(s.fan.alert)))
    case ReceiveDB(w) => ReceiveStep(s, w)
    case Tick(w) => s.(pool := TickWriter(s.pool, w))
    case SeeCancel(w) => if s.cancelled then s.(pool := StopWriter(s.pool, w)) else s
    case Insert(w, reply) => s.(pool := InsertStep(s.pool, w, reply))
    case Count(w) => s.(pool := CountStep(s.pool, w))
  }

  function Exec(s: Pipe, schedule: seq<Action>): Pipe
    decreases |schedule|
  {
    if schedule == [] then s
    else Step(Exec(s, schedule[..|schedule| - 1]), schedule[|schedule| - 1])
  }

  /** `Dispatch` admits exactly when the ingress buffer has a place, or has none at all while the
      dispatcher waits at it; otherwise it only counts a rejection. */
  lemma DispatchExactly(s: Pipe, m: Msg)
    ensures var s', f := Step(s, Dispatch(m)), s.fan;
            if |f.ingress.queue| < f.ingress.cap || (f.ingress.cap == 0 && f.hand.Waiting? && !f.halted) then
              s'.fan.ingress.sent == f.ingress.sent + [m] && s'.rejected == s.rejected && s'.pool == s.pool
            else s' == s.(rejected := s.rejected + 1)
  {
  }

  /** A writer at its select takes the oldest message of the database queue, and flushes when
      that fills its batch. */
  lemma ReceiveExactly(s: Pipe, i: nat)
    requires i < |s.pool.writers| && s.pool.writers[i].phase.Collecting? && s.fan.db.queue != []
    ensures var s', w := Step(s, ReceiveDB(i)), s.pool.writers[i];
            && s'.fan.db.queue == s.fan.db.queue[1..] && |s'.pool.writers| == |s.pool.writers|
            && s'.pool.writers[i].batch == w.batch + [s.fan.db.queue[0]]
            && (s'.pool.writers[i].phase.Inserting? <==> |w.batch| + 1 >= s.pool.batchSize)
            && s'.pool.store == s.pool.store
            && forall j :: 0 <= j < |s.pool.writers| && j != i ==> s'.pool.writers[j] == s.pool.writers[j]
  {
  }

  /** The other steps of a writer: a tick flushes what is held; a writer that sees the context
      done flushes it for the last time, or stops; an insert goes through, is tried once more,
      or is given up; and the counter ends the flush. */
  lemma WriterExactly(s: Pipe, i: nat, reply: Reply)
    requires i < |s.pool.writers|
    ensures var w := s.pool.writers[i];
            match w.phase
            case Collecting =>
              && Step(s, Tick(i)).pool.writers[i]
                 == (if w.batch == [] then w else Writer(w.batch, Inserting(false, false)))
              && (s.cancelled ==> Step(s, SeeCancel(i)).pool.writers[i]
                                  == Writer(w.batch, if w.batch == [] then Stopped else Inserting(false, true)))
            case Inserting(retry, final) =>
              Step(s, Insert(i, reply)).pool.writers[i]
              == Writer(w.batch, if reply.Committed? then Recorded(true, final)
                                 else if retry then Recorded(false, final) else Inserting(true, final))
            case Recorded(ok, final) =>
              Step(s, Count(i)).pool.writers[i] == Writer([], if final then Stopped else Collecting)
            case Stopped =>
              Step(s, Tick(i)) == Step(s, Insert(i, reply)) == Step(s, Count(i)) == Step(s, ReceiveDB(i)) == s
  {
  }

  /** s is the state after some schedule, that is after some interleaving of the goroutines. */
  ghost predicate Reachable(c: Config, s: Pipe) {
    exists schedule :: s == Exec(Init(c), schedule)
  }

  lemma ReachStep(c: Config, s: Pipe, a: Action)
    requires Reachable(c, s)
    ensures Reachable(c, Step(s, a))
  {
    var schedule :| s == Exec(Init(c), schedule);
    assert (schedule + [a])[..|schedule|] == schedule;
    assert Step(s, a) == Exec(Init(c), schedule + [a]);
  }

  // --------------------------------------------------------------- fan-out invariant

  function InHandForDB(h: Hand): seq<Msg> { if h.ToDB? then [h.m] else [] }
  function InHandForState(h: Hand): seq<Msg> { if h.ToState? then [h.m] else [] }
  function InHandForAlert(h: Hand): seq<Msg> { if h.ToAlert? then [h.m] else [] }

  ghost predicate FanInv(f: Fan) {
    && f.ingress.Valid() && f.db.Valid() && f.state.Valid() && f.alert.Valid()
    && f.db.sent + InHandForDB(f.hand) == f.ingress.received
    && f.state.sent + InHandForState(f.hand) == f.db.sent
    && f.alert.sent + InHandForAlert(f.hand) == f.state.sent
  }

  lemma AdmitKeepsFan(f: Fan, m: Msg)
    requires FanInv(f) && CanAdmit(f)
    ensures FanInv(Admit(f, m))
  {
  }

  lemma TakeKeepsFan(f: Fan)
    requires FanInv(f)
    ensures FanInv(Take(f))
  {
  }

  lemma PushKeepsFan(f: Fan)
    requires FanInv(f)
    ensures FanInv(PushDB(f)) && FanInv(PushState(f)) && FanInv(PushAlert(f))
  {
  }

  lemma HandOverKeepsFan(f: Fan)
    requires FanInv(f) && f.db.cap == 0 && f.hand.ToDB?
    ensures FanInv(f.(db := f.db.HandOver(f.hand.m), hand := ToState(f.hand.m)))
  {
  }

  lemma StepKeepsFan(s: Pipe, a: Action)
    requires FanInv(s.fan)
    ensures FanInv(Step(s, a).fan)
  {
    match a
    case Dispatch(m) => if CanAdmit(s.fan) { AdmitKeepsFan(s.fan, m); }
    case TakeIngress => TakeKeepsFan(s.fan);
    case SendDB => PushKeepsFan(s.fan);
    case SendState => PushKeepsFan(s.fan);
    case SendAlert => PushKeepsFan(s.fan);
    case HandOverDB(w) =>
      if s.fan.db.cap == 0 && s.fan.hand.ToDB? { HandOverKeepsFan(s.fan); }
    case _ =>
  }

  // ------------------------------------------------------------ conservation invariant

  /** The union of one bag per writer. */
  ghost function Bag(ws: seq<Writer>, f: Writer -> multiset<Msg>): multiset<Msg> {
    if ws == [] then multiset{} else f(ws[0]) + Bag(ws[1..], f)
  }

  lemma {:induction false} BagUpdate(ws: seq<Writer>, i: nat, w: Writer, f: Writer -> multiset<Msg>)
    requires i < |ws|
    ensures Bag(ws[i := w], f) + f(ws[i]) == Bag(ws, f) + f(w)
    decreases ws
  {
    if i > 0 {
      BagUpdate(ws[1..], i - 1, w, f);
      assert ws[i := w][1..] == ws[1..][i - 1 := w];
      var a, b := Bag(ws[1..][i - 1 := w], f), Bag(ws[1..], f);
      calc {
        Bag(ws[i := w], f) + f(ws[i]);
        (f(ws[0]) + a) + f(ws[i]);
        f(ws[0]) + (a + f(ws[i]));
        f(ws[0]) + (b + f(w));
        (f(ws[0]) + b) + f(w);
      }
    } else {
      assert ws[i := w][1..] == ws[1..];
    }
  }

  lemma {:induction false} BagEmpty(ws: seq<Writer>, f: Writer -> multiset<Msg>)
    requires forall i :: 0 <= i < |ws| ==> f(ws[i]) == multiset{}
    ensures Bag(ws, f) == multiset{}
    decreases ws
  {
    if ws != [] { BagEmpty(ws[1..], f); }
  }

  ghost function Held(w: Writer): multiset<Msg> {
    if w.phase.Collecting? || w.phase.Inserting? then multiset(w.batch) else multiset{}
  }
  ghost function Uncounted(w: Writer): multiset<Msg> {
    if w.phase.Recorded? && w.phase.ok then multiset(w.batch) else multiset{}
  }
  ghost function Unreported(w: Writer): multiset<Msg> {
    if w.phase.Recorded? && !w.phase.ok then multiset(w.batch) else multiset{}
  }

  /** A batch is below the batch size between loop iterations and never empty in a flush. */
  ghost predicate WriterOk(w: Writer, batchSize: nat) {
    match w.phase
    case Collecting => |w.batch| < batchSize
    case Stopped => w.batch == []
    case _ => 1 <= |w.batch| <= batchSize
  }

  ghost predicate Balanced(st: Store, received: multiset<Msg>,
                           held: multiset<Msg>, uncounted: multiset<Msg>, unreported: multiset<Msg>) {
    && received + st.duplicated == st.persisted + st.abandoned + held
    && |st.persisted| == st.success + |uncounted| + |st.duplicated|
    && |st.abandoned| == st.failures + |unreported|
  }

  ghost predicate PoolInv(p: Pool, received: seq<Msg>) {
    && p.batchSize >= 1
    && (forall i :: 0 <= i < |p.writers| ==> WriterOk(p.writers[i], p.batchSize))
    && Balanced(p.store, multiset(received), Bag(p.writers, Held),
                Bag(p.writers, Uncounted), Bag(p.writers, Unreported))
  }

  /** What one writer's step, which takes in `gain`, must balance on its own. */
  ghost predicate LocalBalance(w: Writer, st: Store, gain: multiset<Msg>, w': Writer, st': Store) {
    && gain + st'.duplicated + st.persisted + st.abandoned + Held(w)
       == st.duplicated + st'.persisted + st'.abandoned + Held(w')
    && |st'.persisted| + st.success + |Uncounted(w)| + |st.duplicated|
       == |st.persisted| + st'.success + |Uncounted(w')| + |st'.duplicated|
    && |st'.abandoned| + st.failures + |Unreported(w)| == |st.abandoned| + st'.failures + |Unreported(w')|
  }

  lemma BalanceTransfers(st: Store, st': Store, received: multiset<Msg>, gain: multiset<Msg>,
                         h: multiset<Msg>, h': multiset<Msg>, u: multiset<Msg>, u': multiset<Msg>,
                         f: multiset<Msg>, f': multiset<Msg>, w: Writer, w': Writer)
    requires Balanced(st, received, h, u, f) && LocalBalance(w, st, gain, w', st')
    requires h' + Held(w) == h + Held(w')
    requires u' + Uncounted(w) == u + Uncounted(w')
    requires f' + Unreported(w) == f + Unreported(w')
    ensures Balanced(st', received + gain, h', u', f')
  {
    assert |u'| + |Uncounted(w)| == |u' + Uncounted(w)|;
    assert |f'| + |Unreported(w)| == |f' + Unreported(w)|;
    var before := received + st.duplicated;
    var local := gain + st'.duplicated + st.persisted + st.abandoned + Held(w);
    forall m ensures (received + gain + st'.duplicated)[m] == (st'.persisted + st'.abandoned + h')[m] {
      assert before[m] == (st.persisted + st.abandoned + h)[m];
      assert local[m] == (st.duplicated + st'.persisted + st'.abandoned + Held(w'))[m];
      assert (h' + Held(w))[m] == (h + Held(w'))[m];
    }
    assert received + gain + st'.duplicated == st'.persisted + st'.abandoned + h';
  }

  lemma SetWriterKeepsPool(p: Pool, received: seq<Msg>, gain: seq<Msg>, i: nat, w: Writer, st: Store)
    requires PoolInv(p, received) && i < |p.writers|
    requires WriterOk(w, p.batchSize) && LocalBalance(p.writers[i], p.store, multiset(gain), w, st)
    ensures PoolInv(SetWriter(p, i, w, st), received + gain)
  {
    BagUpdate(p.writers, i, w, Held);
    BagUpdate(p.writers, i, w, Uncounted);
    BagUpdate(p.writers, i, w, Unreported);
    var ws := p.writers[i := w];
    assert multiset(received + gain) == multiset(received) + multiset(gain);
    BalanceTransfers(p.store, st, multiset(received), multiset(gain),
                     Bag(p.writers, Held), Bag(ws, Held), Bag(p.writers, Uncounted), Bag(ws, Uncounted),
                     Bag(p.writers, Unreported), Bag(ws, Unreported), p.writers[i], w);
  }

  lemma AbsorbKeepsPool(p: Pool, received: seq<Msg>, i: nat, m: Msg)
    requires PoolInv(p, received) && IsCollecting(p, i)
    ensures PoolInv(SetWriter(p, i, Absorb(p.writers[i], m, p.batchSize), p.store), received + [m])
  {
    var w := p.writers[i];
    assert multiset(w.batch + [m]) == multiset(w.batch) + multiset([m]);
    SetWriterKeepsPool(p, received, [m], i, Absorb(w, m, p.batchSize), p.store);
  }

  lemma TickKeepsPool(p: Pool, received: seq<Msg>, i: nat)
    requires PoolInv(p, received)
    ensures PoolInv(TickWriter(p, i), received)
  {
    assert received + [] == received;
    if IsCollecting(p, i) && p.writers[i].batch != [] {
      SetWriterKeepsPool(p, received, [], i, p.writers[i].(phase := Inserting(false, false)), p.store);
    }
  }

  lemma StopKeepsPool(p: Pool, received: seq<Msg>, i: nat)
    requires PoolInv(p, received)
    ensures PoolInv(StopWriter(p, i), received)
  {
    assert received + [] == received;
    if IsCollecting(p, i) {
      SetWriterKeepsPool(p, received, [], i, StoppedWriter(p.writers[i].batch), p.store);
    }
  }

  lemma InsertBalances(w: Writer, st: Store, reply: Reply)
    requires w.phase.Inserting?
    ensures LocalBalance(w, st, multiset{}, InsertedWriter(w, reply), InsertedStore(w, st, reply))
  {
  }

  lemma InsertKeepsPool(p: Pool, received: seq<Msg>, i: nat, reply: Reply)
    requires PoolInv(p, received)
    ensures PoolInv(InsertStep(p, i, reply), received)
  {
    assert received + [] == received;
    if i < |p.writers| && p.writers[i].phase.Inserting? {
      var w := p.writers[i];
      InsertBalances(w, p.store, reply);
      SetWriterKeepsPool(p, received, [], i, InsertedWriter(w, reply), InsertedStore(w, p.store, reply));
    }
  }

  lemma CountKeepsPool(p: Pool, received: seq<Msg>, i: nat)
    requires PoolInv(p, received)
    ensures PoolInv(CountStep(p, i), received)
  {
    assert received + [] == received;
    if i < |p.writers| && p.writers[i].phase.Recorded? {
      var p' := CountStep(p, i);
      SetWriterKeepsPool(p, received, [], i, p'.writers[i], p'.store);
    }
  }

  ghost predicate Inv(s: Pipe) {
    FanInv(s.fan) && PoolInv(s.pool, s.fan.db.received)
  }

  lemma InitInv(c: Config)
    ensures Inv(Init(c))
  {
    var ws := Init(c).pool.writers;
    BagEmpty(ws, Held);
    BagEmpty(ws, Uncounted);
    BagEmpty(ws, Unreported);
  }

  lemma ReceiveKeepsPool(s: Pipe, i: nat)
    requires Inv(s)
    ensures PoolInv(ReceiveStep(s, i).pool, ReceiveStep(s, i).fan.db.received)
    ensures PoolInv(HandOverStep(s, i).pool, HandOverStep(s, i).fan.db.received)
  {
    if IsCollecting(s.pool, i) {
      if s.fan.hand.ToDB? { AbsorbKeepsPool(s.pool, s.fan.db.received, i, s.fan.hand.m); }
      if s.fan.db.queue != [] { AbsorbKeepsPool(s.pool, s.fan.db.received, i, s.fan.db.queue[0]); }
    }
  }

  lemma StepKeepsPool(s: Pipe, a: Action)
    requires Inv(s)
    ensures PoolInv(Step(s, a).pool, Step(s, a).fan.db.received)
  {
    var r := s.fan.db.received;
    match a
    case HandOverDB(w) => ReceiveKeepsPool(s, w);
    case ReceiveDB(w) => ReceiveKeepsPool(s, w);
    case Tick(w) => TickKeepsPool(s.pool, r, w);
    case SeeCancel(w) => StopKeepsPool(s.pool, r, w);
    case Insert(w, reply) => InsertKeepsPool(s.pool, r, w, reply);
    case Count(w) => CountKeepsPool(s.pool, r, w);
    case _ => assert Step(s, a).pool == s.pool && Step(s, a).fan.db.received == r;
  }

  ghost predicate SameShape(s: Pipe, t: Pipe) {
    && t.fan.ingress.cap == s.fan.ingress.cap && t.fan.db.cap == s.fan.db.cap
    && t.pool.batchSize == s.pool.batchSize && |t.pool.writers| == |s.pool.writers|
  }

  lemma StepKeepsShape(s: Pipe, a: Action)
    ensures SameShape(s, Step(s, a))
  {
  }

  lemma {:induction false} ExecKeepsInv(s: Pipe, schedule: seq<Action>)
    requires Inv(s)
    ensures Inv(Exec(s, schedule)) && SameShape(s, Exec(s, schedule))
    decreases |schedule|
  {
    if schedule != [] {
      var s' := Exec(s, schedule[..|schedule| - 1]);
      ExecKeepsInv(s, schedule[..|schedule| - 1]);
      StepKeepsFan(s', schedule[|schedule| - 1]);
      StepKeepsPool(s', schedule[|schedule| - 1]);
      StepKeepsShape(s', schedule[|schedule| - 1]);
    }
  }

  // ------------------------------------------------------------------- main results

  /** Admitted messages that are in a queue, in the dispatcher's hand, or in a batch whose
      fate is open. */
  ghost function InTransit(s: Pipe): multiset<Msg> {
    multiset(s.fan.ingress.queue) + multiset(InHandForDB(s.fan.hand)) + multiset(s.fan.db.queue)
    + Bag(s.pool.writers, Held)
  }

  lemma AdmittedSplit(f: Fan)
    requires FanInv(f)
    ensures multiset(f.ingress.sent)
            == multiset(f.db.received) + multiset(f.db.queue) + multiset(InHandForDB(f.hand))
               + multiset(f.ingress.queue)
  {
    assert f.ingress.sent == f.db.received + f.db.queue + InHandForDB(f.hand) + f.ingress.queue;
  }

  lemma Regroup(received: multiset<Msg>, hand: multiset<Msg>, ingress: multiset<Msg>, queue: multiset<Msg>,
                dup: multiset<Msg>, settled: multiset<Msg>, held: multiset<Msg>)
    requires received + dup == settled + held
    ensures received + queue + hand + ingress + dup == settled + (ingress + hand + queue + held)
  {
    forall m ensures (received + queue + hand + ingress + dup)[m] == (settled + (ingress + hand + queue + held))[m] {
      assert (received + dup)[m] == (settled + held)[m];
    }
  }

  /** The admitted messages and the batches committed under an error reply are together
      exactly what was persisted, what was given up and what is still in transit; the two
      counters lag the table and the losses only by batches whose writer is about to count. */
  ghost predicate Conserved(s: Pipe) {
    var st := s.pool.store;
    && multiset(s.fan.ingress.sent) + st.duplicated == st.persisted + st.abandoned + InTransit(s)
    && |st.persisted| == st.success + |Bag(s.pool.writers, Uncounted)| + |st.duplicated|
    && |st.abandoned| == st.failures + |Bag(s.pool.writers, Unreported)|
  }

  lemma InvConserves(s: Pipe)
    requires Inv(s)
    ensures Conserved(s)
  {
    var st := s.pool.store;
    AdmittedSplit(s.fan);
    Regroup(multiset(s.fan.db.received), multiset(InHandForDB(s.fan.hand)), multiset(s.fan.ingress.queue),
            multiset(s.fan.db.queue), st.duplicated, st.persisted + st.abandoned, Bag(s.pool.writers, Held));
  }

  lemma ReachableInv(c: Config, s: Pipe)
    requires Reachable(c, s)
    ensures Inv(s) && SameShape(Init(c), s)
  {
    var schedule :| s == Exec(Init(c), schedule);
    InitInv(c);
    ExecKeepsInv(Init(c), schedule);
  }

  /** In every reachable state, cancelled or not, the three fan-out histories are nested
      prefixes of the admission order, the database is ahead of the alert queue by at most one
      message, and nothing admitted is lost between admission and the dispatcher. */
  lemma FanOutIsNestedPrefix(c: Config, s: Pipe)
    requires Reachable(c, s)
    ensures s.fan.alert.sent <= s.fan.state.sent <= s.fan.db.sent <= s.fan.ingress.received <= s.fan.ingress.sent
    ensures |s.fan.db.sent| <= |s.fan.alert.sent| + 1 && |s.fan.ingress.received| <= |s.fan.db.sent| + 1
    ensures s.fan.ingress.received + s.fan.ingress.queue == s.fan.ingress.sent
  {
    ReachableInv(c, s);
  }

  /** Conservation, for any number of writers and any interleaving. */
  lemma Conservation(c: Config, s: Pipe)
    requires Reachable(c, s)
    ensures Conserved(s)
  {
    ReachableInv(c, s);
    InvConserves(s);
  }

  /** The table and the losses account for each admitted message once exactly as long as no
      batch was committed under an error reply. */
  lemma CountedOnceExactly(c: Config, s: Pipe)
    requires Reachable(c, s)
    ensures s.pool.store.persisted + s.pool.store.abandoned + InTransit(s) == multiset(s.fan.ingress.sent)
            <==> s.pool.store.duplicated == multiset{}
  {
    Conservation(c, s);
    var sent, extra := multiset(s.fan.ingress.sent), s.pool.store.duplicated;
    if sent + extra == sent { assert |sent + extra| == |sent| + |extra|; }
  }

  /** This step is an insert that commits while its reply is lost. */
  ghost predicate LosesReply(s: Pipe, a: Action) {
    && a.Insert? && a.reply.CommittedUnacknowledged?
    && a.w < |s.pool.writers| && s.pool.writers[a.w].phase.Inserting?
  }

  lemma InsertDuplicates(p: Pool, i: nat, reply: Reply)
    requires i < |p.writers| && p.writers[i].phase.Inserting? && p.writers[i].batch != []
    ensures InsertStep(p, i, reply).store.duplicated == multiset{}
            <==> p.store.duplicated == multiset{} && !reply.CommittedUnacknowledged?
  {
    var batch := p.writers[i].batch;
    if reply.CommittedUnacknowledged? { assert batch[0] in p.store.duplicated + multiset(batch); }
  }

  lemma OthersDuplicateNothing(s: Pipe, a: Action)
    requires !a.Insert?
    ensures Step(s, a).pool.store.duplicated == s.pool.store.duplicated
  {
  }

  lemma StepDuplicates(s: Pipe, a: Action)
    requires Inv(s)
    ensures Step(s, a).pool.store.duplicated == multiset{}
            <==> s.pool.store.duplicated == multiset{} && !LosesReply(s, a)
  {
    if !a.Insert? {
      OthersDuplicateNothing(s, a);
    } else if a.w < |s.pool.writers| && s.pool.writers[a.w].phase.Inserting? {
      assert WriterOk(s.pool.writers[a.w], s.pool.batchSize);
      InsertDuplicates(s.pool, a.w, a.reply);
    }
  }

  ghost predicate RepliesArrive(c: Config, schedule: seq<Action>) {
    forall k :: 0 <= k < |schedule| ==> !LosesReply(Exec(Init(c), schedule[..k]), schedule[k])
  }

  lemma RepliesArriveSnoc(c: Config, schedule: seq<Action>)
    requires schedule != []
    ensures var n := |schedule| - 1;
            RepliesArrive(c, schedule)
            <==> RepliesArrive(c, schedule[..n]) && !LosesReply(Exec(Init(c), schedule[..n]), schedule[n])
  {
    var n := |schedule| - 1;
    assert forall k :: 0 <= k < n ==> schedule[..n][..k] == schedule[..k];
  }

  lemma {:induction false} DuplicatesExactly(c: Config, schedule: seq<Action>)
    ensures Exec(Init(c), schedule).pool.store.duplicated == multiset{} <==> RepliesArrive(c, schedule)
    decreases |schedule|
  {
    if schedule != [] {
      var n := |schedule| - 1;
      DuplicatesExactly(c, schedule[..n]);
      RepliesArriveSnoc(c, schedule);
      assert Reachable(c, Exec(Init(c), schedule[..n]));
      ReachableInv(c, Exec(Init(c), schedule[..n]));
      StepDuplicates(Exec(Init(c), schedule[..n]), schedule[n]);
    }
  }

  /** Over every run, for any configuration: the books are those of messages handled once if and
      only if every insert that committed was acknowledged. */
  lemma HandledOnceExactly(c: Config, schedule: seq<Action>)
    ensures var s := Exec(Init(c), schedule);
            s.pool.store.persisted + s.pool.store.abandoned + InTransit(s) == multiset(s.fan.ingress.sent)
            <==> RepliesArrive(c, schedule)
  {
    assert Reachable(c, Exec(Init(c), schedule));
    CountedOnceExactly(c, Exec(Init(c), schedule));
    DuplicatesExactly(c, schedule);
  }

  /** Reached without a batch being committed under an error reply. */
  ghost predicate ReachableAllOrNothing(c: Config, s: Pipe) {
    exists schedule :: AllOrNothing(schedule) && s == Exec(Init(c), schedule)
  }

  ghost predicate AllOrNothing(schedule: seq<Action>) {
    forall i :: 0 <= i < |schedule| ==> !(schedule[i].Insert? && schedule[i].reply.CommittedUnacknowledged?)
  }

  lemma StepDuplicatesNothing(s: Pipe, a: Action)
    requires !(a.Insert? && a.reply.CommittedUnacknowledged?)
    ensures Step(s, a).pool.store.duplicated == s.pool.store.duplicated
  {
  }

  lemma {:induction false} NothingDuplicated(s: Pipe, schedule: seq<Action>)
    requires AllOrNothing(schedule) && s.pool.store.duplicated == multiset{}
    ensures Exec(s, schedule).pool.store.duplicated == multiset{}
    decreases |schedule|
  {
    if schedule != [] {
      var s' := Exec(s, schedule[..|schedule| - 1]);
      NothingDuplicated(s, schedule[..|schedule| - 1]);
      StepDuplicatesNothing(s', schedule[|schedule| - 1]);
    }
  }

  lemma ReachedWithoutDuplicates(c: Config, s: Pipe)
    requires ReachableAllOrNothing(c, s)
    ensures Conserved(s) && s.pool.store.duplicated == multiset{}
  {
    var schedule :| AllOrNothing(schedule) && s == Exec(Init(c), schedule);
    NothingDuplicated(Init(c), schedule);
    assert Reachable(c, s);
    Conservation(c, s);
  }

  /** With an all-or-nothing `BatchInsert` no message reaches the table twice, and none is both
      persisted and given up. */
  lemma PersistedAtMostOnce(c: Config, s: Pipe)
    requires ReachableAllOrNothing(c, s)
    ensures s.pool.store.persisted + s.pool.store.abandoned <= multiset(s.fan.ingress.sent)
  {
    ReachedWithoutDuplicates(c, s);
    assert multiset(s.fan.ingress.sent) + multiset{} == multiset(s.fan.ingress.sent);
  }

  /** Nothing is forgotten: once the queues, the dispatcher's hand and the batches are empty,
      the admitted messages are exactly those persisted or given up, and counted as such. */
  lemma DrainedMeansSettled(c: Config, s: Pipe)
    requires ReachableAllOrNothing(c, s)
    requires s.fan.ingress.queue == [] && !s.fan.hand.ToDB? && s.fan.db.queue == []
    requires forall i :: 0 <= i < |s.pool.writers| ==> s.pool.writers[i].batch == []
    ensures multiset(s.fan.ingress.sent) == s.pool.store.persisted + s.pool.store.abandoned
    ensures s.pool.store.success == |s.pool.store.persisted|
    ensures s.pool.store.failures == |s.pool.store.abandoned|
  {
    ReachedWithoutDuplicates(c, s);
    BagEmpty(s.pool.writers, Held);
    BagEmpty(s.pool.writers, Uncounted);
    BagEmpty(s.pool.writers, Unreported);
    var settled := s.pool.store.persisted + s.pool.store.abandoned;
    assert InTransit(s) == multiset{} && settled + multiset{} == settled;
    assert multiset(s.fan.ingress.sent) + multiset{} == multiset(s.fan.ingress.sent);
  }

  lemma ReachInit(c: Config)
    ensures Reachable(c, Init(c))
  {
    assert Init(c) == Exec(Init(c), []);
  }

  /** One message on its way: admitted, fanned out, and in a full batch of size one. */
  lemma OneMessageReachesWriter(c: Config, m: Msg) returns (s: Pipe)
    requires c == Config(1, 1, 1, 1, 1)
    ensures Reachable(c, s) && s.fan.ingress.sent == [m]
    ensures s.pool == Init(c).pool.(writers := [Writer([m], Inserting(false, false))])
  {
    var s0 := Init(c);
    ReachInit(c);
    ReachStep(c, s0, Dispatch(m));
    var s1 := s0.(fan := s0.fan.(ingress := Chan(1, [m], [m], [])));
    assert s1 == Step(s0, Dispatch(m));
    ReachStep(c, s1, TakeIngress);
    var s2 := s0.(fan := s0.fan.(ingress := Chan(1, [], [m], [m]), hand := ToDB(m)));
    assert s2 == Step(s1, TakeIngress);
    ReachStep(c, s2, SendDB);
    var s3 := s2.(fan := s2.fan.(db := Chan(1, [m], [m], []), hand := ToState(m)));
    assert s3 == Step(s2, SendDB);
    ReachStep(c, s3, ReceiveDB(0));
    s := Step(s3, ReceiveDB(0));
    assert s.pool.writers == [Writer([m], Inserting(false, false))];
  }

  /** The retry makes a lost acknowledgement visible: one admitted message, two rows. */
  lemma LostAcknowledgementDuplicates(c: Config, m: Msg) returns (s: Pipe)
    requires c == Config(1, 1, 1, 1, 1)
    ensures Reachable(c, s) && s.fan.ingress.sent == [m] && s.pool.store.persisted == multiset{m, m}
  {
    var s4 := OneMessageReachesWriter(c, m);
    var lost := Insert(0, CommittedUnacknowledged);
    ReachStep(c, s4, lost);
    ReachStep(c, Step(s4, lost), Insert(0, Committed));
    s := Step(Step(s4, lost), Insert(0, Committed));
    assert multiset([m]) == multiset{m};
  }

  // ------------------------------------------------------------------ backpressure

  ghost function Batched(w: Writer): multiset<Msg> { multiset(w.batch) }

  lemma BagSize(ws: seq<Writer>, f: Writer -> multiset<Msg>)
    requires ws != []
    ensures |Bag(ws, f)| == |f(ws[0])| + |Bag(ws[1..], f)|
  {
  }

  lemma BatchSplit(w: Writer, batchSize: nat)
    requires WriterOk(w, batchSize)
    ensures |Batched(w)| == |Held(w)| + |Uncounted(w)| + |Unreported(w)|
    ensures |Batched(w)| <= batchSize
  {
  }

  lemma {:induction false} BatchesSplit(ws: seq<Writer>, batchSize: nat)
    requires forall i :: 0 <= i < |ws| ==> WriterOk(ws[i], batchSize)
    ensures |Bag(ws, Batched)| == |Bag(ws, Held)| + |Bag(ws, Uncounted)| + |Bag(ws, Unreported)|
    decreases ws
  {
    if ws != [] {
      BatchesSplit(ws[1..], batchSize);
      BatchSplit(ws[0], batchSize);
      BagSize(ws, Batched);
      BagSize(ws, Held);
      BagSize(ws, Uncounted);
      BagSize(ws, Unreported);
    }
  }

  lemma OneMore(n: nat, batchSize: nat)
    ensures batchSize + n * batchSize == (n + 1) * batchSize
  {
  }

  lemma {:induction false} BatchesBounded(ws: seq<Writer>, batchSize: nat)
    requires forall i :: 0 <= i < |ws| ==> WriterOk(ws[i], batchSize)
    ensures |Bag(ws, Batched)| <= |ws| * batchSize
    decreases ws
  {
    if ws != [] {
      var rest := ws[1..];
      BatchesBounded(rest, batchSize);
      BatchSplit(ws[0], batchSize);
      BagSize(ws, Batched);
      OneMore(|rest|, batchSize);
      assert |ws| == |rest| + 1;
    }
  }

  /** Messages that neither counter has seen, by where they are. */
  ghost function Backlog(s: Pipe): nat {
    |s.fan.ingress.queue| + |InHandForDB(s.fan.hand)| + |s.fan.db.queue| + |Bag(s.pool.writers, Batched)|
  }

  lemma BacklogIsTransit(s: Pipe)
    requires Inv(s)
    ensures |InTransit(s)| + |Bag(s.pool.writers, Uncounted)| + |Bag(s.pool.writers, Unreported)| == Backlog(s)
    ensures Backlog(s) <= s.fan.ingress.cap + 1 + s.fan.db.cap + |s.pool.writers| * s.pool.batchSize
  {
    BatchesSplit(s.pool.writers, s.pool.batchSize);
    BatchesBounded(s.pool.writers, s.pool.batchSize);
  }

  lemma ConservedSizes(s: Pipe)
    requires Conserved(s)
    ensures |s.fan.ingress.sent| == s.pool.store.success + s.pool.store.failures
              + |Bag(s.pool.writers, Uncounted)| + |Bag(s.pool.writers, Unreported)| + |InTransit(s)|
  {
    var st := s.pool.store;
    assert |multiset(s.fan.ingress.sent) + st.duplicated| == |s.fan.ingress.sent| + |st.duplicated|;
  }

  /** Backpressure: every admitted message that neither counter has seen sits in the ingress
      buffer, the dispatcher's hand, the database queue or some writer's batch, and the sum of
      their capacities bounds it. */
  lemma Backpressure(c: Config, s: Pipe)
    requires Reachable(c, s)
    ensures |s.fan.ingress.sent| == s.pool.store.success + s.pool.store.failures + Backlog(s)
    ensures Backlog(s) <= c.stateSize + 1 + c.dbSize + c.writers * ClampedBatchSize(c.batchSize)
    ensures forall i :: 0 <= i < |s.pool.writers| && s.pool.writers[i].phase.Collecting?
              ==> |s.pool.writers[i].batch| < ClampedBatchSize(c.batchSize)
  {
    ReachableInv(c, s);
    InvConserves(s);
    BacklogIsTransit(s);
    ConservedSizes(s);
  }
}
