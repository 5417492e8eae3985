/** The WebSocket hub as a machine of atomic steps: the hub's select loop, and beside it any
    number of clients whose read and write pumps run at their own pace. */
module Hub {
  import opened Domain
  import opened Channel

  const SEND_BUFFER: nat := 256
  const REGISTER_QUEUE: nat := 64

  type Data = string

  /** How far a client's `close` has come: not called, blocked on the unregister channel,
      queued there, or taken out by the hub. It runs at most once. */
  datatype Unregister = NotYet | Sending | Queued | Handled

  /** `send` is the client's channel with its history; `closes` counts close(send); `start` and
      `stop` are positions in the fleet's fan-out history; `written` is what reached the socket. */
  datatype Client = Client(
    fleet: string, added: bool, open: bool, closes: nat, send: Chan<Data>,
    start: nat, stop: Option<nat>, unregister: Unregister, pumping: bool, written: seq<Data>)

  datatype Fleet = Fleet(members: set<nat>, sub: nat)

  /** A fleet's pair of Redis subscriptions and how often it was cancelled. */
  datatype Subscription = Subscription(fleet: string, cancels: nat)

  /** `panicked` records a close of a closed channel or a send on one. */
  datatype State = State(
    clients: seq<Client>, fleets: map<string, Fleet>, subs: seq<Subscription>,
    registerQ: seq<nat>, unregisterQ: seq<nat>, history: map<string, seq<Data>>,
    down: bool, panicked: bool)

  datatype Action =
    | Connect(fleet: string)
    | HandleRegister | HandleUnregister
    | FanOut(fleet: string, d: Data)
    | Shutdown
    | Write(c: nat, ok: bool)
    | StopPump(c: nat)
    | CloseBegin(c: nat) | CloseSend(c: nat)

  function Init(): State {
    State([], map[], [], [], [], map[], false, false)
  }

  function History(s: State, f: string): seq<Data> {
    if f in s.history then s.history[f] else []
  }

  predicate IsMember(s: State, i: nat) {
    i < |s.clients| && s.clients[i].fleet in s.fleets && i in s.fleets[s.clients[i].fleet].members
  }

  function NewClient(fleet: string): Client {
    Client(fleet, false, true, 0, Make(SEND_BUFFER), 0, None, NotYet, true, [])
  }

  /** close(client.send), at position `at` of the fleet's history. */
  function CloseClient(c: Client, at: nat): Client {
    c.(open := false, closes := c.closes + 1, stop := Some(at))
  }

  /** enqueue, and eviction when the buffer is full. */
  function Deliver(c: Client, d: Data, at: nat): Client {
    if c.send.HasRoom() then c.(send := c.send.Send(d)) else CloseClient(c, at)
  }

  function ConnectStep(s: State, fleet: string): State {
    if |s.registerQ| < REGISTER_QUEUE then
      s.(clients := s.clients + [NewClient(fleet)], registerQ := s.registerQ + [|s.clients|])
    else s
  }

  function WithFleet(s: State, f: string): State {
    if f in s.fleets then s
    else s.(fleets := s.fleets[f := Fleet({}, |s.subs|)], subs := s.subs + [Subscription(f, 0)])
  }

  function Join(s: State, i: nat): State
    requires i < |s.clients| && s.clients[i].fleet in s.fleets
  {
    var f := s.clients[i].fleet;
    s.(fleets := s.fleets[f := s.fleets[f].(members := s.fleets[f].members + {i})],
       clients := s.clients[i := s.clients[i].(added := true, start := |History(s, f)|)])
  }

  function AddClient(s: State, i: nat): State
    requires i < |s.clients|
  {
    Join(WithFleet(s, s.clients[i].fleet), i)
  }

  function DropMember(s: State, i: nat): State
    requires i < |s.clients| && s.clients[i].fleet in s.fleets
  {
    var f := s.clients[i].fleet;
    if i in s.fleets[f].members then
      s.(fleets := s.fleets[f := s.fleets[f].(members := s.fleets[f].members - {i})],
         clients := s.clients[i := CloseClient(s.clients[i], |History(s, f)|)],
         panicked := s.panicked || !s.clients[i].open)
    else s
  }

  function Cancel(s: State, f: string): State
    requires f in s.fleets
  {
    var n := s.fleets[f].sub;
    s.(fleets := s.fleets - {f},
       subs := if n < |s.subs| then s.subs[n := s.subs[n].(cancels := s.subs[n].cancels + 1)] else s.subs)
  }

  function RemoveClient(s: State, i: nat): State
    requires i < |s.clients|
  {
    var f := s.clients[i].fleet;
    if f !in s.fleets then s
    else
      var s' := DropMember(s, i);
      if s'.fleets[f].members == {} then Cancel(s', f) else s'
  }

  function RegisterStep(s: State): State {
    if !s.down && s.registerQ != [] && s.registerQ[0] < |s.clients| then
      AddClient(s.(registerQ := s.registerQ[1..]), s.registerQ[0])
    else s
  }

  function UnregisterStep(s: State): State {
    if !s.down && s.unregisterQ != [] && s.unregisterQ[0] < |s.clients| then
      var i := s.unregisterQ[0];
      RemoveClient(s.(unregisterQ := s.unregisterQ[1..],
                      clients := s.clients[i := s.clients[i].(unregister := Handled)]), i)
    else s
  }

  /** Every member is offered the message; the order in which the loop meets them is immaterial. */
  function Delivered(clients: seq<Client>, members: set<nat>, d: Data, at: nat): (r: seq<Client>)
    ensures |r| == |clients|
    ensures forall i :: 0 <= i < |r| ==> r[i] == if i in members then Deliver(clients[i], d, at) else clients[i]
  {
    seq(|clients|, i requires 0 <= i < |clients| => if i in members then Deliver(clients[i], d, at) else clients[i])
  }

  function Kept(clients: seq<Client>, members: set<nat>): set<nat> {
    set i | i in members && i < |clients| && clients[i].send.HasRoom()
  }

  predicate AnyClosed(clients: seq<Client>, members: set<nat>) {
    exists i :: i in members && i < |clients| && !clients[i].open
  }

  function Broadcast(s: State, f: string, d: Data): State
    requires f in s.fleets
  {
    var fleet := s.fleets[f];
    s.(history := s.history[f := History(s, f) + [d]],
       clients := Delivered(s.clients, fleet.members, d, |History(s, f)|),
       fleets := s.fleets[f := fleet.(members := Kept(s.clients, fleet.members))],
       panicked := s.panicked || AnyClosed(s.clients, fleet.members))
  }

  function FanOutStep(s: State, f: string, d: Data): State {
    if s.down then s
    else if f in s.fleets then Broadcast(s, f, d)
    else s.(history := s.history[f := History(s, f) + [d]])
  }

  predicate InAnyFleet(s: State, i: nat) {
    exists f :: f in s.fleets && i in s.fleets[f].members
  }

  predicate SubInUse(s: State, n: nat) {
    exists f :: f in s.fleets && s.fleets[f].sub == n
  }

  function ShutdownStep(s: State): State {
    if s.down then s
    else
      s.(clients := seq(|s.clients|, i requires 0 <= i < |s.clients| =>
                          if InAnyFleet(s, i) then CloseClient(s.clients[i], |History(s, s.clients[i].fleet)|)
                          else s.clients[i]),
         subs := seq(|s.subs|, n requires 0 <= n < |s.subs| =>
                       if SubInUse(s, n) then s.subs[n].(cancels := s.subs[n].cancels + 1) else s.subs[n]),
         fleets := map[], down := true,
         panicked := s.panicked || exists i :: 0 <= i < |s.clients| && InAnyFleet(s, i) && !s.clients[i].open)
  }

  function Pumped(c: Client, ok: bool): Client {
    if c.pumping && c.send.queue != [] then
      c.(send := c.send.Receive(), pumping := ok, written := if ok then c.written + [c.send.queue[0]] else c.written)
    else c
  }

  function Update(s: State, i: nat, c: Client): State {
    if i < |s.clients| then s.(clients := s.clients[i := c]) else s
  }

  function Step(s: State, a: Action): State {
    match a
    case Connect(fleet) => ConnectStep(s, fleet)
    case HandleRegister => RegisterStep(s)
    case HandleUnregister => UnregisterStep(s)
    case FanOut(fleet, d) => FanOutStep(s, fleet, d)
    case Shutdown => ShutdownStep(s)
    case Write(c, ok) => if c < |s.clients| then Update(s, c, Pumped(s.clients[c], ok)) else s
    case StopPump(c) => if c < |s.clients| then Update(s, c, s.clients[c].(pumping := false)) else s
    case CloseBegin(c) =>
      if c < |s.clients| && s.clients[c].unregister.NotYet? then Update(s, c, s.clients[c].(unregister := Sending))
      else s
    case CloseSend(c) =>
      if c < |s.clients| && s.clients[c].unregister.Sending? && |s.unregisterQ| < REGISTER_QUEUE then
        Update(s.(unregisterQ := s.unregisterQ + [c]), c, s.clients[c].(unregister := Queued))
      else s
  }

  function Exec(s: State, schedule: seq<Action>): State
    decreases |schedule|
  {
    if schedule == [] then s
    else Step(Exec(s, schedule[..|schedule| - 1]), schedule[|schedule| - 1])
  }

  ghost predicate Reachable(s: State) {
    exists schedule :: s == Exec(Init(), schedule)
  }

  // ------------------------------------------------------------------- invariant

  /** The end of the segment of the fleet's history h that was meant for this client. */
  function SegmentEnd(c: Client, h: seq<Data>): nat {
    if c.stop.Some? then c.stop.value else |h|
  }

  /** Everything handed to the client's channel is a contiguous piece of its fleet's history. */
  ghost predicate Gapless(c: Client, h: seq<Data>) {
    && c.start <= SegmentEnd(c, h) <= |h|
    && c.send.sent == h[c.start..SegmentEnd(c, h)]
  }

  ghost predicate ChannelOk(c: Client) {
    && c.send.Valid() && c.send.cap == SEND_BUFFER
    && c.closes == (if c.open then 0 else 1)
    && c.stop.Some? == !c.open
    && (!c.added ==> c.open && c.send.sent == [])
    && c.written <= c.send.received && |c.send.received| <= |c.written| + 1
    && (c.pumping ==> c.written == c.send.received)
  }

  ghost predicate ClientInv(s: State, i: nat)
    requires i < |s.clients|
  {
    && ChannelOk(s.clients[i])
    && (IsMember(s, i) <==> s.clients[i].added && s.clients[i].open)
    && (s.clients[i].added ==> Gapless(s.clients[i], History(s, s.clients[i].fleet)))
  }

  ghost predicate ClientsInv(s: State) {
    forall i :: 0 <= i < |s.clients| ==> ClientInv(s, i)
  }

  ghost predicate FleetsInv(s: State) {
    forall f :: f in s.fleets ==>
      && s.fleets[f].sub < |s.subs| && s.subs[s.fleets[f].sub].fleet == f
      && (forall i :: i in s.fleets[f].members ==> i < |s.clients| && s.clients[i].fleet == f)
  }

  ghost predicate SubsInv(s: State) {
    forall n :: 0 <= n < |s.subs| ==>
      s.subs[n].cancels
        == (if s.subs[n].fleet in s.fleets && s.fleets[s.subs[n].fleet].sub == n then 0 else 1)
  }

  ghost predicate Core(s: State) {
    ClientsInv(s) && FleetsInv(s) && SubsInv(s) && !s.panicked
  }

  ghost predicate Distinct(q: seq<nat>) {
    forall k, l :: 0 <= k < l < |q| ==> q[k] != q[l]
  }

  /** Exactly the clients the hub has not added yet are waiting in the register queue, once. */
  ghost predicate QueuesInv(s: State) {
    && Distinct(s.registerQ)
    && (forall i :: i in s.registerQ ==> i < |s.clients|)
    && (forall i :: 0 <= i < |s.clients| ==> (i in s.registerQ <==> !s.clients[i].added))
    && (forall i :: i in s.unregisterQ ==> i < |s.clients|)
  }

  ghost predicate Inv(s: State) {
    Core(s) && QueuesInv(s)
  }

  // ------------------------------------------------------------- each step keeps it

  lemma HeadTail(q: seq<nat>, i: nat)
    requires q != []
    ensures i in q <==> i == q[0] || i in q[1..]
    ensures Distinct(q) ==> Distinct(q[1..]) && q[0] !in q[1..]
  {
    assert q == [q[0]] + q[1..];
  }

  lemma ConnectKeepsInv(s: State, fleet: string)
    requires Inv(s)
    ensures Inv(ConnectStep(s, fleet))
  {
    if |s.registerQ| < REGISTER_QUEUE {
      var s' := ConnectStep(s, fleet);
      var n := |s.clients|;
      assert n !in s.registerQ;
      assert Distinct(s.registerQ + [n]);
      forall i | 0 <= i < |s'.clients| ensures ClientInv(s', i) {
        if i < n { assert ClientInv(s, i) && IsMember(s', i) == IsMember(s, i); }
      }
    }
  }

  /** A client that keeps its record, its membership and its fleet's history. */
  lemma SameClient(s: State, s': State, i: nat)
    requires i < |s.clients| && i < |s'.clients| && ClientInv(s, i) && s'.clients[i] == s.clients[i]
    requires IsMember(s', i) == IsMember(s, i) && History(s', s.clients[i].fleet) == History(s, s.clients[i].fleet)
    ensures ClientInv(s', i)
  {
  }

  lemma WithFleetKeepsCore(s: State, f: string)
    requires Core(s)
    ensures Core(WithFleet(s, f))
  {
    if f !in s.fleets {
      var s' := WithFleet(s, f);
      forall j | 0 <= j < |s'.clients| ensures ClientInv(s', j) { SameClient(s, s', j); }
      NewFleetKeepsSubs(s, f);
    }
  }

  lemma NewFleetKeepsSubs(s: State, f: string)
    requires FleetsInv(s) && SubsInv(s) && f !in s.fleets
    ensures FleetsInv(WithFleet(s, f)) && SubsInv(WithFleet(s, f))
  {
  }

  lemma JoinKeepsCore(s: State, i: nat)
    requires Core(s) && i < |s.clients| && !s.clients[i].added && s.clients[i].fleet in s.fleets
    ensures Core(Join(s, i))
  {
    var s' := Join(s, i);
    assert ClientInv(s, i);
    forall j | 0 <= j < |s'.clients| ensures ClientInv(s', j) {
      assert ClientInv(s, j);
      assert j != i ==> IsMember(s', j) == IsMember(s, j);
    }
  }

  lemma RegisterKeepsInv(s: State)
    requires Inv(s)
    ensures Inv(RegisterStep(s))
  {
    if !s.down && s.registerQ != [] {
      var i := s.registerQ[0];
      assert i in s.registerQ;
      var popped := s.(registerQ := s.registerQ[1..]);
      assert Core(popped) by {
        forall j | 0 <= j < |s.clients| ensures ClientInv(popped, j) { assert ClientInv(s, j); }
      }
      WithFleetKeepsCore(popped, s.clients[i].fleet);
      JoinKeepsCore(WithFleet(popped, s.clients[i].fleet), i);
      RegisterKeepsQueues(s);
    }
  }

  lemma RegisterKeepsQueues(s: State)
    requires QueuesInv(s)
    ensures QueuesInv(RegisterStep(s))
  {
    if !s.down && s.registerQ != [] && s.registerQ[0] < |s.clients| {
      var s' := RegisterStep(s);
      forall j: nat ensures j in s.registerQ <==> j == s.registerQ[0] || j in s.registerQ[1..]
      { HeadTail(s.registerQ, j); }
      HeadTail(s.registerQ, 0);
      assert s'.registerQ == s.registerQ[1..] && s'.unregisterQ == s.unregisterQ;
      assert forall j :: 0 <= j < |s.clients| ==> s'.clients[j].added == (s.clients[j].added || j == s.registerQ[0]);
    }
  }

  lemma DropKeepsCore(s: State, i: nat)
    requires Core(s) && i < |s.clients| && s.clients[i].fleet in s.fleets
    ensures Core(DropMember(s, i))
  {
    var s' := DropMember(s, i);
    assert ClientInv(s, i);
    forall j | 0 <= j < |s'.clients| ensures ClientInv(s', j) {
      assert ClientInv(s, j);
    }
  }

  lemma CancelKeepsCore(s: State, f: string)
    requires Core(s) && f in s.fleets && s.fleets[f].members == {}
    ensures Core(Cancel(s, f))
  {
    var s' := Cancel(s, f);
    forall j | 0 <= j < |s'.clients| ensures ClientInv(s', j) {
      assert ClientInv(s, j);
    }
  }

  lemma RemoveKeepsCore(s: State, i: nat)
    requires Core(s) && i < |s.clients|
    ensures Core(RemoveClient(s, i))
    ensures |RemoveClient(s, i).clients| == |s.clients|
    ensures forall j :: 0 <= j < |s.clients| ==> RemoveClient(s, i).clients[j].added == s.clients[j].added
  {
    var f := s.clients[i].fleet;
    if f in s.fleets {
      DropKeepsCore(s, i);
      if DropMember(s, i).fleets[f].members == {} { CancelKeepsCore(DropMember(s, i), f); }
    }
  }

  /** A change to one client that leaves alone what the hub's bookkeeping depends on. */
  lemma UpdateKeepsCore(s: State, i: nat, c: Client)
    requires Core(s) && i < |s.clients| && ChannelOk(c)
    requires var b := s.clients[i];
             c.fleet == b.fleet && c.added == b.added && c.open == b.open && c.start == b.start && c.stop == b.stop
             && c.send.sent == b.send.sent
    ensures Core(Update(s, i, c))
  {
    var s' := Update(s, i, c);
    forall j | 0 <= j < |s'.clients| ensures ClientInv(s', j) {
      assert ClientInv(s, j);
      assert IsMember(s', j) == IsMember(s, j);
    }
  }

  lemma UpdateKeepsQueues(s: State, i: nat, c: Client)
    requires QueuesInv(s) && i < |s.clients| && c.added == s.clients[i].added
    ensures QueuesInv(Update(s, i, c))
  {
  }

  /** Taking the head of the unregister queue, before the client is removed. */
  lemma UnregisterHeadKeepsCore(s: State)
    requires Inv(s) && s.unregisterQ != []
    ensures s.unregisterQ[0] < |s.clients|
    ensures var i := s.unregisterQ[0];
            Core(s.(unregisterQ := s.unregisterQ[1..], clients := s.clients[i := s.clients[i].(unregister := Handled)]))
  {
    var i := s.unregisterQ[0];
    assert i in s.unregisterQ && ClientInv(s, i);
    var c := s.clients[i].(unregister := Handled);
    UpdateKeepsCore(s, i, c);
    var s1 := s.(unregisterQ := s.unregisterQ[1..], clients := s.clients[i := c]);
    forall j | 0 <= j < |s1.clients| ensures ClientInv(s1, j) { assert ClientInv(Update(s, i, c), j); }
  }

  lemma UnregisterKeepsInv(s: State)
    requires Inv(s)
    ensures Inv(UnregisterStep(s))
  {
    if !s.down && s.unregisterQ != [] {
      var i := s.unregisterQ[0];
      UnregisterHeadKeepsCore(s);
      var c := s.clients[i].(unregister := Handled);
      var s1 := s.(unregisterQ := s.unregisterQ[1..], clients := s.clients[i := c]);
      RemoveKeepsCore(s1, i);
      forall j: nat | j in s1.unregisterQ ensures j in s.unregisterQ { HeadTail(s.unregisterQ, j); }
    }
  }

  lemma MembersAreOpen(s: State, f: string, i: nat)
    requires Core(s) && f in s.fleets && i in s.fleets[f].members
    ensures i < |s.clients| && IsMember(s, i) && s.clients[i].added && s.clients[i].open && s.clients[i].fleet == f
  {
    assert ClientInv(s, i);
  }

  lemma DeliverOk(c: Client, h: seq<Data>, d: Data)
    requires ChannelOk(c) && c.added && c.open && Gapless(c, h)
    ensures ChannelOk(Deliver(c, d, |h|)) && Gapless(Deliver(c, d, |h|), h + [d])
    ensures Deliver(c, d, |h|).open == c.send.HasRoom()
  {
  }

  lemma GaplessStays(c: Client, h: seq<Data>, d: Data)
    requires Gapless(c, h) && c.stop.Some?
    ensures Gapless(c, h + [d])
  {
  }

  lemma BroadcastKeepsClient(s: State, f: string, d: Data, i: nat)
    requires Core(s) && f in s.fleets && i < |s.clients|
    ensures ClientInv(Broadcast(s, f, d), i)
  {
    var c, h := s.clients[i], History(s, f);
    assert ClientInv(s, i);
    if i in s.fleets[f].members {
      MembersAreOpen(s, f, i);
      DeliverOk(c, h, d);
    } else if c.fleet == f {
      if c.added { GaplessStays(c, h, d); }
    } else {
      assert History(Broadcast(s, f, d), c.fleet) == History(s, c.fleet);
    }
  }

  lemma BroadcastKeepsCore(s: State, f: string, d: Data)
    requires Core(s) && f in s.fleets
    ensures Core(Broadcast(s, f, d))
  {
    var s' := Broadcast(s, f, d);
    forall i | 0 <= i < |s'.clients| ensures ClientInv(s', i) { BroadcastKeepsClient(s, f, d, i); }
    forall i | i in s.fleets[f].members ensures i < |s.clients| && s.clients[i].open { MembersAreOpen(s, f, i); }
    assert !AnyClosed(s.clients, s.fleets[f].members);
  }

  lemma UnheardKeepsCore(s: State, f: string, d: Data)
    requires Core(s) && f !in s.fleets
    ensures Core(s.(history := s.history[f := History(s, f) + [d]]))
  {
    var s' := s.(history := s.history[f := History(s, f) + [d]]);
    forall i | 0 <= i < |s'.clients| ensures ClientInv(s', i) {
      assert ClientInv(s, i);
      var c := s.clients[i];
      if c.added && c.fleet == f { GaplessStays(c, History(s, f), d); }
      assert c.fleet != f ==> History(s', c.fleet) == History(s, c.fleet);
    }
  }

  lemma FanOutKeepsInv(s: State, f: string, d: Data)
    requires Inv(s)
    ensures Inv(FanOutStep(s, f, d))
  {
    if !s.down {
      if f in s.fleets { BroadcastKeepsCore(s, f, d); } else { UnheardKeepsCore(s, f, d); }
    }
  }

  lemma ShutdownKeepsInv(s: State)
    requires Inv(s)
    ensures Inv(ShutdownStep(s))
  {
    if !s.down {
      var s' := ShutdownStep(s);
      forall i | 0 <= i < |s.clients| && InAnyFleet(s, i) ensures IsMember(s, i) && s.clients[i].open {
        var f :| f in s.fleets && i in s.fleets[f].members;
        MembersAreOpen(s, f, i);
      }
      forall i | 0 <= i < |s'.clients| ensures ClientInv(s', i) {
        assert ClientInv(s, i);
        assert InAnyFleet(s, i) == IsMember(s, i);
      }
    }
  }

  lemma PumpOk(c: Client, ok: bool)
    requires ChannelOk(c)
    ensures ChannelOk(Pumped(c, ok)) && Pumped(c, ok).send.sent == c.send.sent
  {
  }

  lemma StepKeepsInv(s: State, a: Action)
    requires Inv(s)
    ensures Inv(Step(s, a))
  {
    match a
    case Connect(fleet) => ConnectKeepsInv(s, fleet);
    case HandleRegister => RegisterKeepsInv(s);
    case HandleUnregister => UnregisterKeepsInv(s);
    case FanOut(f, d) => FanOutKeepsInv(s, f, d);
    case Shutdown => ShutdownKeepsInv(s);
    case Write(i, ok) =>
      if i < |s.clients| {
        assert ClientInv(s, i);
        PumpOk(s.clients[i], ok);
        ClientStep(s, i, Pumped(s.clients[i], ok));
      }
    case StopPump(i) =>
      if i < |s.clients| {
        assert ClientInv(s, i);
        ClientStep(s, i, s.clients[i].(pumping := false));
      }
    case CloseBegin(i) =>
      if i < |s.clients| {
        assert ClientInv(s, i);
        ClientStep(s, i, s.clients[i].(unregister := Sending));
      }
    case CloseSend(i) => CloseSendKeepsInv(s, i);
  }

  lemma ClientStep(s: State, i: nat, c: Client)
    requires Inv(s) && i < |s.clients| && ChannelOk(c)
    requires var b := s.clients[i];
             c.fleet == b.fleet && c.added == b.added && c.open == b.open && c.start == b.start && c.stop == b.stop
             && c.send.sent == b.send.sent
    ensures Inv(Update(s, i, c))
  {
    UpdateKeepsCore(s, i, c);
    UpdateKeepsQueues(s, i, c);
  }

  lemma CloseSendKeepsInv(s: State, i: nat)
    requires Inv(s)
    ensures Inv(Step(s, CloseSend(i)))
  {
    if i < |s.clients| {
      var queued := s.(unregisterQ := s.unregisterQ + [i]);
      assert Core(queued) by {
        forall j | 0 <= j < |s.clients| ensures ClientInv(queued, j) { assert ClientInv(s, j); }
      }
      assert ClientInv(s, i);
      ClientStep(queued, i, s.clients[i].(unregister := Queued));
    }
  }

  lemma {:induction false} ExecKeepsInv(schedule: seq<Action>)
    ensures Inv(Exec(Init(), schedule))
    decreases |schedule|
  {
    if schedule != [] {
      ExecKeepsInv(schedule[..|schedule| - 1]);
      StepKeepsInv(Exec(Init(), schedule[..|schedule| - 1]), schedule[|schedule| - 1]);
    }
  }

  lemma ReachableInv(s: State)
    requires Reachable(s)
    ensures Inv(s)
  {
    var schedule :| s == Exec(Init(), schedule);
    ExecKeepsInv(schedule);
  }

  // ---------------------------------------------------------------- main results

  /** In any order of register, unregister, broadcast and shutdown: no channel is closed twice
      or sent to after its close, and a client is in its fleet's set exactly from being added
      until its channel is closed. */
  lemma ClosedOnceAndNeverSentAfter(s: State, i: nat)
    requires Reachable(s) && i < |s.clients|
    ensures !s.panicked && s.clients[i].closes <= 1
    ensures s.clients[i].closes == 0 <==> s.clients[i].open
    ensures IsMember(s, i) <==> s.clients[i].added && s.clients[i].open
    ensures forall f :: f in s.fleets && i in s.fleets[f].members ==> s.clients[i].fleet == f
  {
    ReachableInv(s);
    assert ClientInv(s, i);
  }

  /** Gap-free delivery: what was enqueued to a client is the contiguous segment of its own
      fleet's history from its addition to its removal, eviction or now; what reached the
      socket is a prefix of that segment. */
  lemma DeliveryHasNoGaps(s: State, i: nat)
    requires Reachable(s) && i < |s.clients| && s.clients[i].added
    ensures var c, h := s.clients[i], History(s, s.clients[i].fleet);
            && c.start <= SegmentEnd(c, h) <= |h| && (IsMember(s, i) ==> SegmentEnd(c, h) == |h|)
            && c.send.sent == h[c.start..SegmentEnd(c, h)]
            && c.written <= c.send.sent && |c.send.queue| <= 256
  {
    ReachableInv(s);
    assert ClientInv(s, i);
    var c := s.clients[i];
    assert c.send.received <= c.send.sent;
  }

  /** The same client as far as its segment goes. */
  ghost predicate SameSegment(c: Client, c': Client) {
    c'.send.sent == c.send.sent && c'.stop == c.stop && c'.start == c.start
    && c'.closes == c.closes && c'.open == c.open
  }

  lemma ClosedIsNoMember(s: State, i: nat)
    requires Core(s) && i < |s.clients| && !s.clients[i].open
    ensures forall f :: f in s.fleets ==> i !in s.fleets[f].members
    ensures s.clients[i].added
  {
    assert ClientInv(s, i);
    forall f | f in s.fleets && i in s.fleets[f].members ensures false { MembersAreOpen(s, f, i); }
  }

  lemma UnregisterSparesClosed(s: State, j: nat)
    requires Inv(s) && j < |s.clients| && !s.clients[j].open
    ensures j < |UnregisterStep(s).clients| && SameSegment(s.clients[j], UnregisterStep(s).clients[j])
  {
    ClosedIsNoMember(s, j);
  }

  lemma BroadcastSparesClosed(s: State, f: string, d: Data, i: nat)
    requires Core(s) && i < |s.clients| && !s.clients[i].open
    ensures i < |FanOutStep(s, f, d).clients| && SameSegment(s.clients[i], FanOutStep(s, f, d).clients[i])
    ensures i < |ShutdownStep(s).clients| && SameSegment(s.clients[i], ShutdownStep(s).clients[i])
  {
    ClosedIsNoMember(s, i);
  }

  lemma RegisterSparesClosed(s: State, i: nat)
    requires Inv(s) && i < |s.clients| && !s.clients[i].open
    ensures i < |RegisterStep(s).clients| && SameSegment(s.clients[i], RegisterStep(s).clients[i])
  {
    ClosedIsNoMember(s, i);
    if s.registerQ != [] { assert s.registerQ[0] in s.registerQ; }
  }

  lemma WriteSpares(s: State, c: nat, ok: bool, i: nat)
    requires c < |s.clients| && i < |s.clients|
    ensures SameSegment(s.clients[i], Step(s, Write(c, ok)).clients[i])
  {
    PumpSpares(s.clients[c], ok);
    UpdateSpares(s, c, Pumped(s.clients[c], ok), i);
  }

  lemma StopPumpSpares(s: State, c: nat, i: nat)
    requires c < |s.clients| && i < |s.clients|
    ensures SameSegment(s.clients[i], Step(s, StopPump(c)).clients[i])
  {
    UpdateSpares(s, c, s.clients[c].(pumping := false), i);
  }

  lemma CloseSpares(s: State, c: nat, i: nat)
    requires c < |s.clients| && i < |s.clients|
    ensures SameSegment(s.clients[i], Step(s, CloseBegin(c)).clients[i])
    ensures SameSegment(s.clients[i], Step(s, CloseSend(c)).clients[i])
  {
    UpdateSpares(s, c, s.clients[c].(unregister := Sending), i);
    UpdateSpares(s, c, s.clients[c].(unregister := Queued), i);
  }

  lemma PumpSpares(c: Client, ok: bool)
    ensures SameSegment(c, Pumped(c, ok))
  {
  }

  lemma UpdateSpares(s: State, c: nat, b: Client, i: nat)
    requires c < |s.clients| && i < |s.clients| && SameSegment(s.clients[c], b)
    ensures SameSegment(s.clients[i], s.clients[c := b][i])
  {
  }

  /** A closed client stays as it is: no later step adds to its segment or closes it again. */
  lemma ClosedIsFinal(s: State, a: Action, i: nat)
    requires Reachable(s) && i < |s.clients| && !s.clients[i].open
    ensures i < |Step(s, a).clients| && SameSegment(s.clients[i], Step(s, a).clients[i])
  {
    ReachableInv(s);
    match a
    case HandleRegister => RegisterSparesClosed(s, i);
    case HandleUnregister => UnregisterSparesClosed(s, i);
    case FanOut(f, d) => BroadcastSparesClosed(s, f, d, i);
    case Shutdown => BroadcastSparesClosed(s, "", "", i);
    case Write(c, ok) => if c < |s.clients| { WriteSpares(s, c, ok, i); }
    case StopPump(c) => if c < |s.clients| { StopPumpSpares(s, c, i); }
    case CloseBegin(c) => if c < |s.clients| { CloseSpares(s, c, i); }
    case CloseSend(c) => if c < |s.clients| { CloseSpares(s, c, i); }
    case Connect(_) =>
  }

  /** Every fleet in the map has exactly one uncancelled subscription pair, and a pair is
      cancelled exactly once, namely when its fleet has left the map. */
  lemma OneSubscriptionPerFleet(s: State)
    requires Reachable(s)
    ensures forall f :: f in s.fleets ==>
              var n := s.fleets[f].sub; n < |s.subs| && s.subs[n] == Subscription(f, 0)
    ensures forall n :: 0 <= n < |s.subs| ==> s.subs[n].cancels <= 1
    ensures forall n :: 0 <= n < |s.subs| ==>
              (s.subs[n].cancels == 0 <==> s.subs[n].fleet in s.fleets && s.fleets[s.subs[n].fleet].sub == n)
  {
    ReachableInv(s);
  }

  // ------------------------------------------ what each step does, client by client

  /** A close leaves the buffer and the pump alone: what is waiting can still be written. */
  ghost predicate OnlyClosed(c: Client, c': Client) {
    && !c'.open && c'.send == c.send && c'.written == c.written && c'.pumping == c.pumping
    && c'.fleet == c.fleet && c'.added == c.added && c'.unregister == c.unregister && c'.start == c.start
  }

  /** `fanOut`: a member with fewer than 256 messages waiting gets the message at the end of its
      buffer and stays, a member with 256 is closed and dropped, and nobody else is touched. */
  lemma FanOutExactly(s: State, f: string, d: Data, i: nat)
    requires Reachable(s) && !s.down && i < |s.clients|
    ensures var s', c := Step(s, FanOut(f, d)), s.clients[i];
            && |s'.clients| == |s.clients|
            && if !(f in s.fleets && i in s.fleets[f].members) then s'.clients[i] == c
               else if |c.send.queue| < 256 then
                 s'.clients[i] == c.(send := s'.clients[i].send) && s'.clients[i].send.queue == c.send.queue + [d]
               else OnlyClosed(c, s'.clients[i])
  {
    ReachableInv(s);
    assert ClientInv(s, i);
    if f in s.fleets && i in s.fleets[f].members { MembersAreOpen(s, f, i); }
  }

  /** The message joins the history of its fleet; of the fleet's members those with fewer than
      256 messages waiting stay, and every other fleet is as it was. */
  lemma FanOutFleetsExactly(s: State, f: string, d: Data, g: string)
    requires Reachable(s) && !s.down
    ensures var s' := Step(s, FanOut(f, d));
            && History(s', g) == History(s, g) + (if g == f then [d] else [])
            && s'.fleets.Keys == s.fleets.Keys && s'.subs == s.subs
            && (g in s.fleets && g != f ==> s'.fleets[g] == s.fleets[g])
            && (g in s.fleets && g == f ==>
                  && s'.fleets[g].sub == s.fleets[g].sub
                  && forall i :: i in s'.fleets[g].members <==>
                       i in s.fleets[g].members && i < |s.clients| && |s.clients[i].send.queue| < 256)
  {
    ReachableInv(s);
    if f in s.fleets {
      forall i | i in s.fleets[f].members
        ensures i < |s.clients| && (s.clients[i].send.HasRoom() <==> |s.clients[i].send.queue| < 256)
      {
        assert ClientInv(s, i);
      }
    }
  }

  /** `addClient`: the head of the register channel becomes a member of its fleet, from this
      point of the fleet's history on; a fleet new to the map gets a subscription pair. */
  lemma RegisterExactly(s: State)
    requires Reachable(s) && !s.down && s.registerQ != []
    ensures var i := s.registerQ[0];
            && i < |s.clients|
            && var s', c := Step(s, HandleRegister), s.clients[i];
            && s'.registerQ == s.registerQ[1..] && |s'.clients| == |s.clients|
            && s'.clients[i] == c.(added := true, start := |History(s, c.fleet)|)
            && (forall j :: 0 <= j < |s.clients| && j != i ==> s'.clients[j] == s.clients[j])
            && s'.fleets.Keys == s.fleets.Keys + {c.fleet}
            && s'.fleets[c.fleet].members == (if c.fleet in s.fleets then s.fleets[c.fleet].members else {}) + {i}
            && s'.subs == s.subs + (if c.fleet in s.fleets then [] else [Subscription(c.fleet, 0)])
  {
    ReachableInv(s);
    assert s.registerQ[0] in s.registerQ;
  }

  /** `removeClient`: the head of the unregister channel is closed if it still was a member, and
      nobody else is touched. */
  lemma UnregisterExactly(s: State, j: nat)
    requires Reachable(s) && !s.down && s.unregisterQ != [] && j < |s.clients|
    ensures var i := s.unregisterQ[0];
            && i < |s.clients|
            && var s', c := Step(s, HandleUnregister), s.clients[j];
            && s'.unregisterQ == s.unregisterQ[1..] && |s'.clients| == |s.clients|
            && if j != i then s'.clients[j] == c
               else if IsMember(s, i) then OnlyClosed(c.(unregister := Handled), s'.clients[j])
               else s'.clients[j] == c.(unregister := Handled)
  {
    ReachableInv(s);
    assert s.unregisterQ[0] in s.unregisterQ;
  }

  /** The client's fleet goes exactly when nobody is left in it; the others stay. */
  lemma UnregisterFleetsExactly(s: State, g: string)
    requires Reachable(s) && !s.down && s.unregisterQ != []
    ensures var i := s.unregisterQ[0];
            && i < |s.clients|
            && var s', f := Step(s, HandleUnregister), s.clients[i].fleet;
               if g != f then
                 (g in s'.fleets <==> g in s.fleets) && (g in s.fleets ==> s'.fleets[g] == s.fleets[g])
               else
                 && (g in s'.fleets <==> g in s.fleets && s.fleets[g].members - {i} != {})
                 && (g in s'.fleets ==> s'.fleets[g] == s.fleets[g].(members := s.fleets[g].members - {i}))
  {
    ReachableInv(s);
    assert s.unregisterQ[0] in s.unregisterQ;
  }

  /** `shutdown`: every member of every fleet is closed, every mapped fleet's subscription is
      cancelled, the map is emptied. */
  lemma ShutdownExactly(s: State, i: nat)
    requires Reachable(s) && !s.down && i < |s.clients|
    ensures var s' := Step(s, Shutdown);
            && s'.down && s'.fleets == map[] && |s'.clients| == |s.clients| && |s'.subs| == |s.subs|
            && (if IsMember(s, i) then OnlyClosed(s.clients[i], s'.clients[i]) else s'.clients[i] == s.clients[i])
            && forall n :: 0 <= n < |s.subs| ==> s'.subs[n].cancels == 1
  {
    ReachableInv(s);
    ShutdownKeepsInv(s);
    assert ClientInv(s, i) && ClientInv(Step(s, Shutdown), i);
  }

  /** A connection is queued for registration while fewer than 64 wait there. */
  lemma ConnectExactly(s: State, f: string)
    ensures var s' := Step(s, Connect(f));
            if |s.registerQ| >= 64 then s' == s
            else
              && s'.registerQ == s.registerQ + [|s.clients|] && |s'.clients| == |s.clients| + 1
              && s.clients <= s'.clients && s'.fleets == s.fleets
              && s'.clients[|s.clients|] == Client(f, false, true, 0, Chan(256, [], [], []), 0, None, NotYet, true, [])
  {
  }

  /** `writePump`: the oldest waiting message leaves the buffer; it reaches the socket if the
      write succeeds, and otherwise the pump stops. */
  lemma WriteExactly(s: State, i: nat, ok: bool)
    requires i < |s.clients|
    ensures var c, c' := s.clients[i], Step(s, Write(i, ok)).clients[i];
            if !c.pumping || c.send.queue == [] then c' == c
            else
              && c'.send.queue == c.send.queue[1..] && c'.pumping == ok && c'.open == c.open
              && c'.written == c.written + if ok then [c.send.queue[0]] else []
    ensures Step(s, StopPump(i)).clients == s.clients[i := s.clients[i].(pumping := false)]
  {
  }

  /** `close`: a first call starts, ... */
  lemma CloseBeginExactly(s: State, i: nat)
    requires i < |s.clients|
    ensures var c, s' := s.clients[i], Step(s, CloseBegin(i));
            if c.unregister.NotYet? then s' == s.(clients := s.clients[i := c.(unregister := Sending)]) else s' == s
  {
  }

  /** ... and gets through, once, while fewer than 64 wait to unregister. */
  lemma CloseSendExactly(s: State, i: nat)
    requires i < |s.clients|
    ensures var c, s' := s.clients[i], Step(s, CloseSend(i));
            if c.unregister.Sending? && |s.unregisterQ| < 64 then
              s'.unregisterQ == s.unregisterQ + [i] && s'.clients == s.clients[i := c.(unregister := Queued)]
            else s' == s
  {
  }

  // ------------------------------------------------------------- no fleet is forgotten

  /** The hub takes the unregister of a client of fleet f only after its register. The two are
      separate channels of one select, so nothing in the code enforces it. */
  ghost predicate OrderedStep(s: State, a: Action, f: string) {
    a.HandleUnregister? && s.unregisterQ != [] && s.unregisterQ[0] < |s.clients| ==>
      var c := s.clients[s.unregisterQ[0]]; c.fleet == f ==> c.added
  }

  ghost predicate OrderedRun(f: string, schedule: seq<Action>) {
    forall n :: 0 <= n < |schedule| ==> OrderedStep(Exec(Init(), schedule[..n]), schedule[n], f)
  }

  ghost predicate ReachableOrdered(f: string, s: State) {
    exists schedule :: OrderedRun(f, schedule) && s == Exec(Init(), schedule)
  }

  /** An evicted client of f whose unregister the hub has yet to take. */
  ghost predicate Owes(s: State, f: string, i: nat) {
    i < |s.clients| && s.clients[i].fleet == f && s.clients[i].added && !s.clients[i].open
    && !s.clients[i].unregister.Handled?
  }

  /** A client of f whose unregister was taken is out of the fleet for good. */
  ghost predicate Settled(s: State, f: string, i: nat)
    requires i < |s.clients|
  {
    s.clients[i].fleet == f && s.clients[i].unregister.Handled? ==> !IsMember(s, i) && s.clients[i].added
  }

  predicate Empty(s: State, f: string) {
    f in s.fleets && s.fleets[f].members == {}
  }

  ghost predicate OwedInv(s: State, f: string) {
    && (forall i :: 0 <= i < |s.clients| ==> Settled(s, f, i))
    && (Empty(s, f) ==> exists i :: Owes(s, f, i))
  }

  /** The same client as far as the fleet's debts go: it may only join or be closed. */
  ghost predicate SameStanding(c: Client, c': Client) {
    && c'.fleet == c.fleet && (c.added ==> c'.added) && (c'.open ==> c.open)
    && c'.unregister.Handled? == c.unregister.Handled?
  }

  /** A step that empties no fleet and takes no unregister keeps what is owed. */
  lemma OwedFrame(s: State, s': State, f: string)
    requires OwedInv(s, f) && |s.clients| <= |s'.clients|
    requires forall i :: 0 <= i < |s.clients| ==> SameStanding(s.clients[i], s'.clients[i])
    requires forall i :: 0 <= i < |s'.clients| && s'.clients[i].unregister.Handled? ==>
               i < |s.clients| && (IsMember(s', i) ==> IsMember(s, i))
    requires Empty(s', f) ==> Empty(s, f)
    ensures OwedInv(s', f)
  {
    forall i | 0 <= i < |s'.clients| ensures Settled(s', f, i) {
      if s'.clients[i].unregister.Handled? { assert Settled(s, f, i); }
    }
    if Empty(s', f) {
      var i: nat :| Owes(s, f, i);
      assert SameStanding(s.clients[i], s'.clients[i]);
      assert Owes(s', f, i);
    }
  }

  lemma RegisterKeepsOwed(s: State, f: string)
    requires Inv(s) && OwedInv(s, f)
    ensures OwedInv(RegisterStep(s), f)
  {
    if !s.down && s.registerQ != [] {
      var h, s' := s.registerQ[0], RegisterStep(s);
      assert h in s.registerQ && !s.clients[h].added;
      forall i | 0 <= i < |s.clients| ensures Settled(s', f, i) {
        assert Settled(s, f, i);
        if i != h { assert IsMember(s', i) ==> IsMember(s, i); }
      }
      if Empty(s', f) {
        assert Empty(s, f);
        var i :| Owes(s, f, i);
        assert Owes(s', f, i);
      }
    }
  }

  /** Taking client i's unregister; s is the state in which it is already marked as taken. */
  lemma RemoveKeepsOwed(s: State, i: nat, f: string)
    requires Core(s) && i < |s.clients| && s.clients[i].unregister.Handled?
    requires s.clients[i].fleet == f ==> s.clients[i].added
    requires forall j :: 0 <= j < |s.clients| && j != i ==> Settled(s, f, j)
    requires s.clients[i].fleet != f && Empty(s, f) ==> exists j :: Owes(s, f, j)
    ensures OwedInv(RemoveClient(s, i), f)
  {
    var s' := RemoveClient(s, i);
    if s.clients[i].fleet == f {
      RemoveEmptiesOwn(s, i);
      forall j | 0 <= j < |s'.clients| ensures Settled(s', f, j) {
        RemoveSparesOther(s, i, j);
        if j != i { assert Settled(s, f, j); }
      }
    } else {
      RemoveSparesFleet(s, i, f);
      forall j | 0 <= j < |s'.clients| ensures Settled(s', f, j) {
        RemoveSparesOther(s, i, j);
        if j != i { assert Settled(s, f, j); }
      }
      if Empty(s', f) {
        var j :| Owes(s, f, j);
        RemoveSparesOther(s, i, j);
        assert Owes(s', f, j);
      }
    }
  }

  /** The fleet of a removed client is gone or still has members, and it is not one of them. */
  lemma RemoveEmptiesOwn(s: State, i: nat)
    requires i < |s.clients|
    ensures !Empty(RemoveClient(s, i), s.clients[i].fleet) && !IsMember(RemoveClient(s, i), i)
  {
  }

  lemma RemoveSparesFleet(s: State, i: nat, f: string)
    requires i < |s.clients| && s.clients[i].fleet != f
    ensures f in RemoveClient(s, i).fleets <==> f in s.fleets
    ensures f in s.fleets ==> RemoveClient(s, i).fleets[f] == s.fleets[f]
  {
  }

  lemma RemoveSparesOther(s: State, i: nat, j: nat)
    requires i < |s.clients| && j < |s.clients|
    ensures var s' := RemoveClient(s, i);
            && |s'.clients| == |s.clients| && (j != i ==> s'.clients[j] == s.clients[j])
            && (IsMember(s', j) ==> IsMember(s, j)) && s'.clients[j].fleet == s.clients[j].fleet
            && s'.clients[j].added == s.clients[j].added && s'.clients[j].unregister == s.clients[j].unregister
            && s'.down == s.down && s'.registerQ == s.registerQ && s'.unregisterQ == s.unregisterQ
  {
    if s.clients[i].fleet in s.fleets { DropSparesOther(s, i, j); }
  }

  lemma DropSparesOther(s: State, i: nat, j: nat)
    requires i < |s.clients| && j < |s.clients| && s.clients[i].fleet in s.fleets
    ensures var s' := DropMember(s, i);
            && |s'.clients| == |s.clients| && (j != i ==> s'.clients[j] == s.clients[j])
            && (IsMember(s', j) ==> IsMember(s, j)) && s'.clients[j].fleet == s.clients[j].fleet
            && s'.clients[j].added == s.clients[j].added && s'.clients[j].unregister == s.clients[j].unregister
            && s'.down == s.down && s'.registerQ == s.registerQ && s'.unregisterQ == s.unregisterQ
  {
  }

  /** The head of the unregister queue has been taken, its client not yet removed. */
  function Popped(s: State): State
    requires s.unregisterQ != [] && s.unregisterQ[0] < |s.clients|
  {
    var i := s.unregisterQ[0];
    s.(unregisterQ := s.unregisterQ[1..], clients := s.clients[i := s.clients[i].(unregister := Handled)])
  }

  lemma UnregisterKeepsOwed(s: State, f: string)
    requires Inv(s) && OwedInv(s, f) && OrderedStep(s, HandleUnregister, f)
    ensures OwedInv(UnregisterStep(s), f)
  {
    if !s.down && s.unregisterQ != [] {
      var i := s.unregisterQ[0];
      UnregisterHeadKeepsCore(s);
      var s1 := Popped(s);
      forall j | 0 <= j < |s1.clients| && j != i ensures Settled(s1, f, j) {
        assert Settled(s, f, j);
        assert IsMember(s1, j) == IsMember(s, j);
      }
      if s.clients[i].fleet != f && Empty(s1, f) {
        var j :| Owes(s, f, j);
        assert Owes(s1, f, j);
      }
      RemoveKeepsOwed(s1, i, f);
    }
  }

  /** Eviction leaves a debtor: a member whose buffer is full owes its unregister. */
  lemma EvictedOwes(s: State, f: string, d: Data, i: nat)
    requires Inv(s) && OwedInv(s, f) && f in s.fleets && i in s.fleets[f].members
    requires i !in Kept(s.clients, s.fleets[f].members)
    ensures Owes(Broadcast(s, f, d), f, i)
  {
    MembersAreOpen(s, f, i);
    assert Settled(s, f, i);
  }

  lemma BroadcastKeepsStanding(s: State, g: string, d: Data, i: nat)
    requires g in s.fleets && i < |s.clients|
    ensures SameStanding(s.clients[i], Broadcast(s, g, d).clients[i])
    ensures IsMember(Broadcast(s, g, d), i) ==> IsMember(s, i)
  {
  }

  lemma BroadcastKeepsOwed(s: State, g: string, d: Data, f: string)
    requires Inv(s) && OwedInv(s, f) && g in s.fleets
    ensures OwedInv(Broadcast(s, g, d), f)
  {
    var s' := Broadcast(s, g, d);
    forall i | 0 <= i < |s'.clients|
      ensures SameStanding(s.clients[i], s'.clients[i]) && (IsMember(s', i) ==> IsMember(s, i))
    {
      BroadcastKeepsStanding(s, g, d, i);
    }
    if Empty(s', f) && !Empty(s, f) {
      assert f == g;
      var i :| i in s.fleets[f].members;
      EvictedOwes(s, f, d, i);
      forall j | 0 <= j < |s'.clients| ensures Settled(s', f, j) { assert Settled(s, f, j); }
    } else {
      OwedFrame(s, s', f);
    }
  }

  lemma FanOutKeepsOwed(s: State, g: string, d: Data, f: string)
    requires Inv(s) && OwedInv(s, f)
    ensures OwedInv(FanOutStep(s, g, d), f)
  {
    if !s.down {
      if g in s.fleets { BroadcastKeepsOwed(s, g, d, f); } else { OwedFrame(s, FanOutStep(s, g, d), f); }
    }
  }

  lemma ClientStepKeepsOwed(s: State, i: nat, c: Client, f: string)
    requires OwedInv(s, f) && i < |s.clients| && c.fleet == s.clients[i].fleet && c.added == s.clients[i].added
    requires c.open == s.clients[i].open && c.unregister.Handled? == s.clients[i].unregister.Handled?
    ensures OwedInv(Update(s, i, c), f)
  {
    OwedFrame(s, Update(s, i, c), f);
  }

  lemma ConnectKeepsOwed(s: State, fleet: string, f: string)
    requires Inv(s) && OwedInv(s, f)
    ensures OwedInv(ConnectStep(s, fleet), f)
  {
    OwedFrame(s, ConnectStep(s, fleet), f);
  }

  lemma ShutdownKeepsOwed(s: State, f: string)
    requires OwedInv(s, f)
    ensures OwedInv(ShutdownStep(s), f)
  {
    var s' := ShutdownStep(s);
    if !s.down {
      forall i | 0 <= i < |s'.clients| ensures Settled(s', f, i) { assert Settled(s, f, i); }
    }
  }

  lemma CloseSendKeepsOwed(s: State, i: nat, f: string)
    requires OwedInv(s, f)
    ensures OwedInv(Step(s, CloseSend(i)), f)
  {
    OwedFrame(s, Step(s, CloseSend(i)), f);
  }

  lemma StepKeepsOwed(s: State, a: Action, f: string)
    requires Inv(s) && OwedInv(s, f) && OrderedStep(s, a, f)
    ensures OwedInv(Step(s, a), f)
  {
    match a
    case Connect(fleet) => ConnectKeepsOwed(s, fleet, f);
    case HandleRegister => RegisterKeepsOwed(s, f);
    case HandleUnregister => UnregisterKeepsOwed(s, f);
    case FanOut(g, d) => FanOutKeepsOwed(s, g, d, f);
    case Shutdown => ShutdownKeepsOwed(s, f);
    case Write(i, ok) => if i < |s.clients| { ClientStepKeepsOwed(s, i, Pumped(s.clients[i], ok), f); }
    case StopPump(i) => if i < |s.clients| { ClientStepKeepsOwed(s, i, s.clients[i].(pumping := false), f); }
    case CloseBegin(i) =>
      if i < |s.clients| && s.clients[i].unregister.NotYet? {
        ClientStepKeepsOwed(s, i, s.clients[i].(unregister := Sending), f);
      }
    case CloseSend(i) => CloseSendKeepsOwed(s, i, f);
  }

  lemma {:induction false} OrderedRunKeepsOwed(f: string, schedule: seq<Action>)
    requires OrderedRun(f, schedule)
    ensures OwedInv(Exec(Init(), schedule), f)
    decreases |schedule|
  {
    if schedule != [] {
      var n := |schedule| - 1;
      forall m | 0 <= m < n ensures OrderedStep(Exec(Init(), schedule[..n][..m]), schedule[..n][m], f) {
        assert schedule[..n][..m] == schedule[..m];
      }
      OrderedRunKeepsOwed(f, schedule[..n]);
      ExecKeepsInv(schedule[..n]);
      StepKeepsOwed(Exec(Init(), schedule[..n]), schedule[n], f);
    }
  }

  /** If for the clients of fleet f, whatever other fleets' clients do, each register is taken
      before its unregister, then f without members always has an evicted client still owing an
      unregister, and taking that unregister removes the fleet. */
  lemma EmptyFleetIsOwed(s: State, f: string) returns (i: nat)
    requires ReachableOrdered(f, s) && f in s.fleets && s.fleets[f].members == {}
    ensures Owes(s, f, i)
    ensures !s.down && s.unregisterQ != [] && s.unregisterQ[0] == i ==> f !in UnregisterStep(s).fleets
  {
    var schedule :| OrderedRun(f, schedule) && s == Exec(Init(), schedule);
    OrderedRunKeepsOwed(f, schedule);
    i :| Owes(s, f, i);
  }

  // ------------------------------------ and why the order of the two channels matters

  /** Exactly the clients whose close has been queued are in the unregister channel, once. */
  ghost predicate ClosesInv(s: State) {
    && Distinct(s.unregisterQ)
    && forall i: nat :: i in s.unregisterQ <==> i < |s.clients| && s.clients[i].unregister.Queued?
  }

  lemma ClosesFrame(s: State, s': State)
    requires ClosesInv(s) && s'.unregisterQ == s.unregisterQ && |s.clients| <= |s'.clients|
    requires forall i :: 0 <= i < |s'.clients| ==>
               (s'.clients[i].unregister.Queued? <==> i < |s.clients| && s.clients[i].unregister.Queued?)
    ensures ClosesInv(s')
  {
  }

  lemma UnregisterKeepsCloses(s: State)
    requires ClosesInv(s)
    ensures ClosesInv(UnregisterStep(s))
  {
    if !s.down && s.unregisterQ != [] && s.unregisterQ[0] < |s.clients| {
      var i, s1, s' := s.unregisterQ[0], Popped(s), UnregisterStep(s);
      forall j: nat ensures j in s.unregisterQ <==> j == i || j in s.unregisterQ[1..] { HeadTail(s.unregisterQ, j); }
      HeadTail(s.unregisterQ, 0);
      assert ClosesInv(s1);
      forall j | 0 <= j < |s1.clients| ensures s'.clients[j].unregister == s1.clients[j].unregister {
        RemoveSparesOther(s1, i, j);
      }
      RemoveSparesOther(s1, i, i);
      ClosesFrame(s1, s');
    }
  }

  lemma CloseSendKeepsCloses(s: State, c: nat)
    requires ClosesInv(s)
    ensures ClosesInv(Step(s, CloseSend(c)))
  {
    if c < |s.clients| && s.clients[c].unregister.Sending? { assert c !in s.unregisterQ; }
  }

  lemma StepKeepsCloses(s: State, a: Action)
    requires ClosesInv(s)
    ensures ClosesInv(Step(s, a))
  {
    match a
    case HandleUnregister => UnregisterKeepsCloses(s);
    case CloseSend(c) => CloseSendKeepsCloses(s, c);
    case HandleRegister => RegisterSparesCloses(s);
    case FanOut(f, d) => BroadcastSparesCloses(s, f, d);
    case Shutdown => BroadcastSparesCloses(s, "", "");
    case _ => ClientsSpareCloses(s, a);
  }

  lemma RegisterSparesCloses(s: State)
    requires ClosesInv(s)
    ensures ClosesInv(RegisterStep(s))
  {
    ClosesFrame(s, RegisterStep(s));
  }

  lemma BroadcastSparesCloses(s: State, f: string, d: Data)
    requires ClosesInv(s)
    ensures ClosesInv(FanOutStep(s, f, d)) && ClosesInv(ShutdownStep(s))
  {
    ClosesFrame(s, FanOutStep(s, f, d));
    ClosesFrame(s, ShutdownStep(s));
  }

  lemma ClientsSpareCloses(s: State, a: Action)
    requires ClosesInv(s) && (a.Connect? || a.Write? || a.StopPump? || a.CloseBegin?)
    ensures ClosesInv(Step(s, a))
  {
    ClosesFrame(s, Step(s, a));
  }

  lemma {:induction false} ExecKeepsCloses(schedule: seq<Action>)
    ensures ClosesInv(Exec(Init(), schedule))
    decreases |schedule|
  {
    if schedule != [] {
      ExecKeepsCloses(schedule[..|schedule| - 1]);
      StepKeepsCloses(Exec(Init(), schedule[..|schedule| - 1]), schedule[|schedule| - 1]);
    }
  }

  /** Some continuation leads from s0 to s. */
  ghost predicate LeadsTo(s0: State, s: State) {
    exists schedule :: s == Exec(s0, schedule)
  }

  lemma LeadsStep(s0: State, s: State, a: Action)
    requires LeadsTo(s0, s)
    ensures LeadsTo(s0, Step(s, a))
  {
    var schedule :| s == Exec(s0, schedule);
    assert (schedule + [a])[..|schedule|] == schedule;
    assert Step(s, a) == Exec(s0, schedule + [a]);
  }

  /** Client i of fleet f is open although its unregister has been taken. */
  ghost predicate Stranded(s0: State, s: State, i: nat, f: string) {
    && LeadsTo(s0, s) && Inv(s) && ClosesInv(s) && !s.down
    && i < |s.clients| && s.clients[i].fleet == f && s.clients[i].open && s.clients[i].unregister.Handled?
  }

  lemma StrandedStep(s0: State, s: State, a: Action, i: nat, f: string)
    requires Stranded(s0, s, i, f) && !Step(s, a).down && i < |Step(s, a).clients|
    requires var c, c' := s.clients[i], Step(s, a).clients[i];
             c'.fleet == c.fleet && c'.open == c.open && c'.unregister == c.unregister
    ensures Stranded(s0, Step(s, a), i, f)
  {
    LeadsStep(s0, s, a);
    StepKeepsInv(s, a);
    StepKeepsCloses(s, a);
  }

  lemma RegisterOne(s: State, i: nat)
    requires Inv(s) && !s.down && s.registerQ != [] && i < |s.clients|
    ensures var s' := RegisterStep(s);
            && s'.registerQ == s.registerQ[1..] && !s'.down && |s'.clients| == |s.clients|
            && s'.clients[i].fleet == s.clients[i].fleet && s'.clients[i].open == s.clients[i].open
            && s'.clients[i].unregister == s.clients[i].unregister
  {
    assert s.registerQ[0] in s.registerQ;
  }

  lemma {:induction false} DrainRegisters(s0: State, s: State, i: nat, f: string) returns (s': State)
    requires Stranded(s0, s, i, f)
    ensures Stranded(s0, s', i, f) && s'.registerQ == []
    decreases |s.registerQ|
  {
    s' := s;
    if s.registerQ != [] {
      RegisterOne(s, i);
      StrandedStep(s0, s, HandleRegister, i, f);
      s' := DrainRegisters(s0, RegisterStep(s), i, f);
    }
  }

  /** Taking the unregister of client h: it is marked, and every other client stays as it is. */
  lemma UnregisterOne(s: State, h: nat, j: nat)
    requires ClosesInv(s) && !s.down && s.unregisterQ != [] && s.unregisterQ[0] == h && j < |s.clients|
    ensures h < |s.clients| && s.clients[h].unregister.Queued?
    ensures var s' := UnregisterStep(s);
            && s'.registerQ == s.registerQ && s'.unregisterQ == s.unregisterQ[1..] && !s'.down
            && |s'.clients| == |s.clients|
            && (if j == h then s'.clients[j].unregister.Handled? else s'.clients[j] == s.clients[j])
  {
    assert h in s.unregisterQ;
    RemoveSparesOther(Popped(s), h, j);
  }

  lemma {:induction false} DrainUnregisters(s0: State, s: State, i: nat, f: string) returns (s': State)
    requires Stranded(s0, s, i, f) && s.registerQ == []
    ensures Stranded(s0, s', i, f) && s'.registerQ == [] && s'.unregisterQ == []
    decreases |s.unregisterQ|
  {
    s' := s;
    if s.unregisterQ != [] {
      UnregisterOne(s, s.unregisterQ[0], i);
      StrandedStep(s0, s, HandleUnregister, i, f);
      s' := DrainUnregisters(s0, UnregisterStep(s), i, f);
    }
  }

  /** Nothing waits in either channel. */
  ghost predicate Drained(s: State) {
    s.registerQ == [] && s.unregisterQ == []
  }

  /** Client j begins to close and gets as far as the channel. */
  lemma QueueOne(s0: State, s: State, i: nat, f: string, j: nat) returns (s': State)
    requires Stranded(s0, s, i, f) && Drained(s) && j < |s.clients| && !s.clients[j].unregister.Handled?
    ensures Stranded(s0, s', i, f) && s'.registerQ == [] && s'.unregisterQ == [j]
    ensures s'.clients == s.clients[j := s.clients[j].(unregister := Queued)]
  {
    assert j !in s.unregisterQ && j != i;
    StrandedStep(s0, s, CloseBegin(j), i, f);
    var s1 := Step(s, CloseBegin(j));
    assert s1.clients == s.clients[j := s.clients[j].(unregister := Sending)];
    StrandedStep(s0, s1, CloseSend(j), i, f);
    s' := Step(s1, CloseSend(j));
  }

  /** One more client closes in good order. */
  lemma RetireOne(s0: State, s: State, i: nat, f: string, j: nat) returns (s': State)
    requires Stranded(s0, s, i, f) && Drained(s) && j < |s.clients| && !s.clients[j].unregister.Handled?
    ensures Stranded(s0, s', i, f) && Drained(s') && |s'.clients| == |s.clients| && s'.clients[j].unregister.Handled?
    ensures forall k :: 0 <= k < |s.clients| && s.clients[k].unregister.Handled? ==> s'.clients[k].unregister.Handled?
  {
    var s1 := QueueOne(s0, s, i, f, j);
    UnregisterOne(s1, j, i);
    StrandedStep(s0, s1, HandleUnregister, i, f);
    s' := UnregisterStep(s1);
    forall k | 0 <= k < |s.clients|
      ensures s'.clients[k].unregister.Handled? <== k == j || s.clients[k].unregister.Handled?
    {
      UnregisterOne(s1, j, k);
    }
  }

  lemma {:induction false} RetireFirst(s0: State, s: State, i: nat, f: string, n: nat) returns (s': State)
    requires Stranded(s0, s, i, f) && Drained(s) && n <= |s.clients|
    ensures Stranded(s0, s', i, f) && Drained(s') && |s'.clients| == |s.clients|
    ensures forall k :: 0 <= k < n ==> s'.clients[k].unregister.Handled?
  {
    s' := s;
    if n > 0 {
      s' := RetireFirst(s0, s, i, f, n - 1);
      if !s'.clients[n - 1].unregister.Handled? { s' := RetireOne(s0, s', i, f, n - 1); }
    }
  }

  ghost predicate AllHandled(s: State) {
    forall k :: 0 <= k < |s.clients| ==> s.clients[k].unregister.Handled?
  }

  /** Nobody owes f anything, and each of its members has n messages waiting. */
  ghost predicate Flooded(s0: State, s: State, f: string, n: nat) {
    && LeadsTo(s0, s) && Inv(s) && !s.down && f in s.fleets && AllHandled(s)
    && forall j :: j in s.fleets[f].members ==> j < |s.clients| && |s.clients[j].send.queue| >= n
  }

  lemma FloodOne(s0: State, s: State, f: string, d: Data, n: nat)
    requires Flooded(s0, s, f, n)
    ensures Flooded(s0, FanOutStep(s, f, d), f, n + 1)
  {
    LeadsStep(s0, s, FanOut(f, d));
    FanOutKeepsInv(s, f, d);
  }

  lemma {:induction false} Flood(s0: State, s: State, f: string, d: Data, n: nat) returns (s': State)
    requires Flooded(s0, s, f, 0)
    ensures Flooded(s0, s', f, n)
  {
    s' := s;
    if n > 0 {
      var s1 := Flood(s0, s, f, d, n - 1);
      FloodOne(s0, s1, f, d, n - 1);
      s' := FanOutStep(s1, f, d);
    }
  }

  /** An empty fleet with a live subscription, which nobody is left to remove. */
  ghost predicate Leaked(s: State, f: string) {
    && f in s.fleets && s.fleets[f].members == {} && (forall i :: !Owes(s, f, i))
    && s.fleets[f].sub < |s.subs| && s.subs[s.fleets[f].sub] == Subscription(f, 0)
  }

  lemma FloodedIsLeaked(s0: State, s: State, f: string)
    requires Flooded(s0, s, f, SEND_BUFFER + 1)
    ensures Leaked(s, f)
  {
    if s.fleets[f].members != {} {
      var j :| j in s.fleets[f].members;
      MemberBuffer(s, f, j);
      assert false;
    }
  }

  lemma MemberBuffer(s: State, f: string, j: nat)
    requires Core(s) && f in s.fleets && j in s.fleets[f].members
    ensures j < |s.clients| && |s.clients[j].send.queue| <= SEND_BUFFER
  {
    assert ClientInv(s, j);
  }

  lemma EveryoneElseLeaves(s0: State, s: State, i: nat, f: string) returns (s': State)
    requires Stranded(s0, s, i, f)
    ensures Flooded(s0, s', f, 0)
  {
    var s1 := DrainRegisters(s0, s, i, f);
    var s2 := DrainUnregisters(s0, s1, i, f);
    s' := RetireFirst(s0, s2, i, f, |s2.clients|);
    assert ClientInv(s', i) && i !in s'.registerQ;
    assert s'.clients[i].added && IsMember(s', i);
    forall j | j in s'.fleets[f].members ensures j < |s'.clients| { MembersAreOpen(s', f, j); }
  }

  /** Taking the unregister of a client that is not added yet leaves it stranded. */
  lemma TakenTooEarly(s: State)
    requires Inv(s) && ClosesInv(s) && !s.down && s.unregisterQ != [] && s.unregisterQ[0] < |s.clients|
    requires !s.clients[s.unregisterQ[0]].added
    ensures var i := s.unregisterQ[0]; Stranded(s, UnregisterStep(s), i, s.clients[i].fleet)
  {
    var i := s.unregisterQ[0];
    assert s == Exec(s, []);
    LeadsStep(s, s, HandleUnregister);
    UnregisterKeepsInv(s);
    UnregisterKeepsCloses(s);
    UnregisterOne(s, i, i);
    assert ClientInv(s, i);
    assert i in s.registerQ;
    assert ClientInv(UnregisterStep(s), i);
  }

  /** The order is needed wherever it can fail: from every reachable running state in which the
      next unregister belongs to a client not yet added, its fleet can be made to leak. */
  lemma OutOfOrderLeaks(s: State, d: Data) returns (s': State)
    requires Reachable(s) && !s.down && s.unregisterQ != [] && s.unregisterQ[0] < |s.clients|
    requires !s.clients[s.unregisterQ[0]].added
    ensures LeadsTo(s, s') && Leaked(s', s.clients[s.unregisterQ[0]].fleet)
  {
    var i, f := s.unregisterQ[0], s.clients[s.unregisterQ[0]].fleet;
    var schedule :| s == Exec(Init(), schedule);
    ExecKeepsInv(schedule);
    ExecKeepsCloses(schedule);
    TakenTooEarly(s);
    var s1 := EveryoneElseLeaves(s, UnregisterStep(s), i, f);
    s' := Flood(s, s1, f, d, SEND_BUFFER + 1);
    FloodedIsLeaked(s, s', f);
  }

  lemma ReachStep(s: State, a: Action)
    requires Reachable(s)
    ensures Reachable(Step(s, a))
  {
    var schedule :| s == Exec(Init(), schedule);
    assert (schedule + [a])[..|schedule|] == schedule;
    assert Step(s, a) == Exec(Init(), schedule + [a]);
  }

  lemma {:induction false} ReachOn(s: State, schedule: seq<Action>)
    requires Reachable(s)
    ensures Reachable(Exec(s, schedule))
    decreases |schedule|
  {
    if schedule != [] {
      ReachOn(s, schedule[..|schedule| - 1]);
      ReachStep(Exec(s, schedule[..|schedule| - 1]), schedule[|schedule| - 1]);
    }
  }

  lemma CloseQueued(f: string) returns (s: State)
    ensures Reachable(s)
    ensures s == Init().(clients := [NewClient(f).(unregister := Queued)], registerQ := [0], unregisterQ := [0])
  {
    var c := NewClient(f);
    assert Init() == Exec(Init(), []);
    ReachStep(Init(), Connect(f));
    var s1 := Init().(clients := [c], registerQ := [0]);
    assert s1 == Step(Init(), Connect(f));
    ReachStep(s1, CloseBegin(0));
    var s2 := s1.(clients := [c.(unregister := Sending)]);
    assert s2 == Step(s1, CloseBegin(0));
    ReachStep(s2, CloseSend(0));
    s := s1.(clients := [c.(unregister := Queued)], unregisterQ := [0]);
    assert s == Step(s2, CloseSend(0));
  }

  /** Such states are reachable for every fleet, hence so is a leak. */
  lemma UnregisterFirstLeaksFleet(f: string, d: Data) returns (s: State)
    ensures Reachable(s) && Leaked(s, f)
  {
    var s0 := CloseQueued(f);
    s := OutOfOrderLeaks(s0, d);
    var schedule :| s == Exec(s0, schedule);
    ReachOn(s0, schedule);
  }
}
