/** The hub's handlers as the service runs them: maps changed in place, clients visited one at
    a time in whatever order the map yields them. */
module HubService {
  import opened Hub

  /** The members in `done` have been offered the message, the others not yet. */
  ghost predicate PartlyDelivered(before: seq<Client>, now: seq<Client>, done: set<nat>, d: Data, at: nat) {
    && |now| == |before|
    && forall i :: 0 <= i < |now| ==> now[i] == if i in done then Deliver(before[i], d, at) else before[i]
  }

  /** The members that the loop has yet to visit or has visited without evicting. */
  ghost function Remaining(clients: seq<Client>, all: set<nat>, todo: set<nat>): set<nat> {
    set i | i in all && (i in todo || (i < |clients| && clients[i].send.HasRoom()))
  }

  /** The clients in `done` have had their channel closed, the others not yet. */
  ghost predicate PartlyClosed(s: State, now: seq<Client>, done: iset<nat>) {
    && |now| == |s.clients|
    && forall i :: 0 <= i < |now| ==>
         now[i] == if i in done then CloseClient(s.clients[i], |History(s, s.clients[i].fleet)|) else s.clients[i]
  }

  /** The clients in `done` have had their channel closed at this position, the others not. */
  ghost predicate AllClosed(before: seq<Client>, now: seq<Client>, done: set<nat>, at: nat) {
    && |now| == |before|
    && forall i :: 0 <= i < |now| ==> now[i] == if i in done then CloseClient(before[i], at) else before[i]
  }

  /** Client i belongs to a fleet that shutdown has already deleted from the map. */
  ghost predicate Gone(s: State, left: map<string, Fleet>, i: nat) {
    exists g :: g in s.fleets && g !in left && i in s.fleets[g].members
  }

  /** Subscription n belongs to such a fleet. */
  ghost predicate Released(s: State, left: map<string, Fleet>, n: nat) {
    exists g :: g in s.fleets && g !in left && s.fleets[g].sub == n
  }

  ghost predicate PartlyCancelled(s: State, now: seq<Subscription>, left: map<string, Fleet>) {
    && |now| == |s.subs|
    && forall n :: 0 <= n < |now| ==>
         now[n] == if Released(s, left, n) then s.subs[n].(cancels := s.subs[n].cancels + 1) else s.subs[n]
  }

  lemma OneMoreGone(s: State, left: map<string, Fleet>, f: string)
    requires f in left && f in s.fleets
    ensures forall i: nat :: Gone(s, left - {f}, i) <==> Gone(s, left, i) || i in s.fleets[f].members
    ensures forall n: nat :: Released(s, left - {f}, n) <==> Released(s, left, n) || n == s.fleets[f].sub
  {
  }

  /** `left` holds the fleets of s that shutdown has yet to visit; the others' subscriptions are
      cancelled and their members closed. */
  ghost predicate ShutSoFar(s: State, clients: seq<Client>, subs: seq<Subscription>, left: map<string, Fleet>) {
    && left.Keys <= s.fleets.Keys && (forall g :: g in left ==> left[g] == s.fleets[g])
    && PartlyClosed(s, clients, iset i | Gone(s, left, i)) && PartlyCancelled(s, subs, left)
  }

  lemma CancelNext(s: State, clients: seq<Client>, now: seq<Subscription>, left: map<string, Fleet>, f: string)
    requires Inv(s) && ShutSoFar(s, clients, now, left) && f in left
    ensures var n := left[f].sub;
            n < |now| && PartlyCancelled(s, now[n := now[n].(cancels := now[n].cancels + 1)], left - {f})
  {
    var n := left[f].sub;
    assert s.subs[n].fleet == f && !Released(s, left, n);
    OneMoreGone(s, left, f);
  }

  lemma MembersStillOpen(s: State, now: seq<Client>, subs: seq<Subscription>, left: map<string, Fleet>, f: string)
    requires Inv(s) && ShutSoFar(s, now, subs, left) && f in left
    ensures left[f].sub < |subs| && forall i :: i in left[f].members ==> i < |now| && now[i].open
    ensures forall i :: i in left[f].members ==> now[i] == s.clients[i] && now[i].fleet == f && !Gone(s, left, i)
  {
    forall i | i in left[f].members
      ensures i < |now| && now[i].open && now[i] == s.clients[i] && now[i].fleet == f && !Gone(s, left, i)
    {
      MembersAreOpen(s, f, i);
    }
  }

  /** One fleet more: its subscriptions cancelled, its members closed, its entry deleted. */
  lemma ShutNext(s: State, before: seq<Client>, now: seq<Client>, subs: seq<Subscription>,
                 left: map<string, Fleet>, f: string)
    requires Inv(s) && ShutSoFar(s, before, subs, left) && f in left
    requires AllClosed(before, now, left[f].members, |History(s, f)|)
    ensures var n := left[f].sub;
            n < |subs| && ShutSoFar(s, now, subs[n := subs[n].(cancels := subs[n].cancels + 1)], left - {f})
  {
    CancelNext(s, before, subs, left, f);
    MembersStillOpen(s, before, subs, left, f);
    OneMoreGone(s, left, f);
  }

  lemma ShutdownReached(s: State, clients: seq<Client>, subs: seq<Subscription>)
    requires Inv(s) && !s.down
    requires PartlyClosed(s, clients, iset i | Gone(s, map[], i)) && PartlyCancelled(s, subs, map[])
    ensures ShutdownStep(s) == s.(clients := clients, subs := subs, fleets := map[], down := true)
  {
    var s' := ShutdownStep(s);
    ShutdownKeepsInv(s);
    forall i | 0 <= i < |clients| ensures clients[i] == s'.clients[i] { assert Gone(s, map[], i) == InAnyFleet(s, i); }
    forall n | 0 <= n < |subs| ensures subs[n] == s'.subs[n] { assert Released(s, map[], n) == SubInUse(s, n); }
    assert clients == s'.clients && subs == s'.subs;
  }

  /** The write pump on a sequence of socket outcomes. */
  function PumpedAll(c: Client, outcomes: seq<bool>): Client
    decreases |outcomes|
  {
    if outcomes == [] then c
    else Pumped(PumpedAll(c, outcomes[..|outcomes| - 1]), outcomes[|outcomes| - 1])
  }

  /** Whatever the outcomes, what is written grows as a prefix of what was enqueued; while every
      write succeeds the buffer shrinks by one each time. */
  lemma {:induction false} PumpedAllOk(b: Client, outcomes: seq<bool>)
    requires ChannelOk(b) && b.pumping
    ensures var c := PumpedAll(b, outcomes);
            && ChannelOk(c) && c.send.sent == b.send.sent && b.written <= c.written <= c.send.sent
            && ((forall k :: 0 <= k < |outcomes| ==> outcomes[k]) ==>
                  c.pumping && (|outcomes| >= |b.send.queue| ==> c.written == c.send.sent))
            && (c.pumping ==> |c.send.queue| == Left(|b.send.queue|, |outcomes|))
    decreases |outcomes|
  {
    if outcomes != [] {
      var n := |outcomes| - 1;
      PumpedAllOk(b, outcomes[..n]);
      PumpOk(PumpedAll(b, outcomes[..n]), outcomes[n]);
      PumpOnce(PumpedAll(b, outcomes[..n]), outcomes[n]);
    }
  }

  function Left(n: nat, k: nat): nat {
    if k < n then n - k else 0
  }

  lemma PumpOnce(c: Client, ok: bool)
    requires ChannelOk(c)
    ensures var c' := Pumped(c, ok);
            && c.written <= c'.written <= c'.send.sent && (c'.pumping ==> c.pumping)
            && (c.pumping && ok ==> c'.pumping)
            && (c'.pumping ==> |c'.send.queue| == Left(|c.send.queue|, 1))
            && (c'.pumping && c'.send.queue == [] ==> c'.written == c'.send.sent)
  {
    PumpOk(c, ok);
    var c' := Pumped(c, ok);
    assert c'.send.received <= c'.send.sent;
  }

  lemma AllMembersOpen(s: State, f: string)
    requires Core(s) && f in s.fleets
    ensures forall i :: i in s.fleets[f].members ==> i < |s.clients| && s.clients[i].open
    ensures !AnyClosed(s.clients, s.fleets[f].members)
  {
    forall i | i in s.fleets[f].members ensures i < |s.clients| && s.clients[i].open { MembersAreOpen(s, f, i); }
  }

  /** `close` as far as it gets: begun at once, queued if the unregister channel has room. */
  function Closing(s: State, i: nat): State
    requires i < |s.clients|
  {
    var c := s.clients[i];
    if !c.unregister.NotYet? && !c.unregister.Sending? then s
    else if |s.unregisterQ| < REGISTER_QUEUE then
      s.(unregisterQ := s.unregisterQ + [i], clients := s.clients[i := c.(unregister := Queued)])
    else s.(clients := s.clients[i := c.(unregister := Sending)])
  }

  lemma CloseIsSteps(s: State, i: nat)
    requires Inv(s) && i < |s.clients|
    ensures Step(Step(s, CloseBegin(i)), CloseSend(i)) == Closing(s, i) && Inv(Closing(s, i))
  {
    var c, s1 := s.clients[i], Step(s, CloseBegin(i));
    StepKeepsInv(s, CloseBegin(i));
    StepKeepsInv(s1, CloseSend(i));
    assert c.unregister.Sending? ==> c.(unregister := Sending) == c && s.clients[i := c] == s.clients;
    assert s1.clients[i := c.(unregister := Queued)] == s.clients[i := c.(unregister := Queued)];
  }

  class Service {
    var clients: seq<Client>
    var fleets: map<string, Fleet>
    var subs: seq<Subscription>
    var registerQ: seq<nat>
    var unregisterQ: seq<nat>
    var history: map<string, seq<Data>>
    var down: bool
    var panicked: bool

    ghost function View(): State
      reads this
    {
      State(clients, fleets, subs, registerQ, unregisterQ, history, down, panicked)
    }

    constructor ()
      ensures View() == Init() && Inv(View())
    {
      clients, fleets, subs, registerQ, unregisterQ := [], map[], [], [], [];
      history, down, panicked := map[], false, false;
    }

    /** The register case of the loop: `addClient` on the head of the queue. */
    method TakeRegister()
      requires Inv(View()) && !down && registerQ != []
      modifies this
      ensures View() == Step(old(View()), HandleRegister) && Inv(View())
    {
      RegisterKeepsInv(View());
      assert registerQ[0] in registerQ;
      var i := registerQ[0];
      registerQ := registerQ[1..];
      var f := clients[i].fleet;
      if f !in fleets {
        fleets := fleets[f := Fleet({}, |subs|)];
        subs := subs + [Subscription(f, 0)];
      }
      fleets := fleets[f := fleets[f].(members := fleets[f].members + {i})];
      var h := if f in history then history[f] else [];
      clients := clients[i := clients[i].(added := true, start := |h|)];
    }

    method CloseSendChannel(i: nat, at: nat)
      requires i < |clients| && clients[i].open
      modifies this`clients, this`panicked
      ensures clients == old(clients)[i := CloseClient(old(clients)[i], at)] && panicked == old(panicked)
    {
      panicked := panicked || !clients[i].open;
      clients := clients[i := CloseClient(clients[i], at)];
    }

    /** `removeClient`. */
    method RemoveFromFleet(i: nat)
      requires Core(View()) && i < |clients|
      modifies this`clients, this`fleets, this`subs, this`panicked
      ensures View() == RemoveClient(old(View()), i)
    {
      var f := clients[i].fleet;
      if f !in fleets {
        return;
      }
      if i in fleets[f].members {
        MembersAreOpen(View(), f, i);
        fleets := fleets[f := fleets[f].(members := fleets[f].members - {i})];
        var h := if f in history then history[f] else [];
        CloseSendChannel(i, |h|);
      }
      if fleets[f].members == {} {
        var n := fleets[f].sub;
        if n < |subs| {
          subs := subs[n := subs[n].(cancels := subs[n].cancels + 1)];
        }
        fleets := fleets - {f};
      }
    }

    /** The unregister case: `removeClient` on the head of the queue. */
    method TakeUnregister()
      requires Inv(View()) && !down && unregisterQ != []
      modifies this
      ensures View() == Step(old(View()), HandleUnregister) && Inv(View())
    {
      ghost var s := View();
      UnregisterKeepsInv(s);
      assert unregisterQ[0] in unregisterQ;
      var i := unregisterQ[0];
      UnregisterHeadKeepsCore(s);
      unregisterQ := unregisterQ[1..];
      clients := clients[i := clients[i].(unregister := Handled)];
      RemoveFromFleet(i);
    }

    /** One round of the loop in `fanOut`: enqueue, or evict a client whose buffer is full. */
    method Offer(f: string, i: nat, d: Data, at: nat)
      requires f in fleets && i < |clients| && clients[i].open
      modifies this`clients, this`fleets, this`panicked
      ensures clients == old(clients)[i := Deliver(old(clients)[i], d, at)] && panicked == old(panicked)
      ensures fleets == if old(clients)[i].send.HasRoom() then old(fleets)
                        else old(fleets)[f := old(fleets)[f].(members := old(fleets)[f].members - {i})]
    {
      if clients[i].send.HasRoom() {
        clients := clients[i := clients[i].(send := clients[i].send.Send(d))];
      } else {
        fleets := fleets[f := fleets[f].(members := fleets[f].members - {i})];
        CloseSendChannel(i, at);
      }
    }

    /** The loop of `fanOut`, over the members in any order. */
    method OfferAll(f: string, d: Data, at: nat)
      requires f in fleets
      requires forall i :: i in fleets[f].members ==> i < |clients| && clients[i].open
      modifies this`clients, this`fleets, this`panicked
      ensures clients == Delivered(old(clients), old(fleets)[f].members, d, at) && panicked == old(panicked)
      ensures fleets == old(fleets)[f := old(fleets)[f].(members := Kept(old(clients), old(fleets)[f].members))]
    {
      var all := fleets[f].members;
      var todo := all;
      assert Remaining(clients, all, all) == all;
      while todo != {}
        invariant todo <= all && f in fleets && panicked == old(panicked)
        invariant PartlyDelivered(old(clients), clients, all - todo, d, at)
        invariant fleets[f] == old(fleets)[f].(members := Remaining(old(clients), all, todo))
        invariant fleets == old(fleets)[f := fleets[f]]
        decreases todo
      {
        var i :| i in todo;
        Offer(f, i, d, at);
        assert Remaining(old(clients), all, todo - {i})
            == if old(clients)[i].send.HasRoom() then Remaining(old(clients), all, todo)
               else Remaining(old(clients), all, todo) - {i};
        todo := todo - {i};
      }
      assert Remaining(old(clients), all, {}) == Kept(old(clients), all);
    }

    /** The broadcast case: `fanOut`. */
    method FanOutMessage(f: string, d: Data)
      requires Inv(View()) && !down
      modifies this
      ensures View() == Step(old(View()), FanOut(f, d)) && Inv(View())
    {
      ghost var s := View();
      FanOutKeepsInv(s, f, d);
      var h := if f in history then history[f] else [];
      history := history[f := h + [d]];
      if f in fleets {
        AllMembersOpen(s, f);
        OfferAll(f, d, |h|);
      }
    }

    /** The inner loop of `shutdown`: close every member of one fleet. */
    method CloseAll(f: string, at: nat)
      requires f in fleets
      requires forall i :: i in fleets[f].members ==> i < |clients| && clients[i].open
      modifies this`clients, this`panicked
      ensures AllClosed(old(clients), clients, fleets[f].members, at) && panicked == old(panicked)
    {
      var all := fleets[f].members;
      var todo := all;
      while todo != {}
        invariant todo <= all && panicked == old(panicked)
        invariant AllClosed(old(clients), clients, all - todo, at)
        decreases todo
      {
        var i :| i in todo;
        CloseSendChannel(i, at);
        todo := todo - {i};
      }
      assert all - todo == all;
    }

    method CancelPair(n: nat)
      requires n < |subs|
      modifies this`subs
      ensures subs == old(subs)[n := old(subs)[n].(cancels := old(subs)[n].cancels + 1)]
    {
      subs := subs[n := subs[n].(cancels := subs[n].cancels + 1)];
    }

    /** The outer loop's body: cancel one fleet's subscriptions, close its members, delete it. */
    method CancelOne(f: string, ghost s: State)
      requires Inv(s) && ShutSoFar(s, clients, subs, fleets) && f in fleets && history == s.history
      modifies this`clients, this`fleets, this`subs, this`panicked
      ensures fleets == old(fleets) - {f} && panicked == old(panicked) && ShutSoFar(s, clients, subs, fleets)
    {
      MembersStillOpen(s, clients, subs, fleets, f);
      CancelPair(fleets[f].sub);
      var h := if f in history then history[f] else [];
      CloseAll(f, |h|);
      ShutNext(s, old(clients), clients, old(subs), fleets, f);
      fleets := fleets - {f};
    }

    /** The loop of `shutdown`, over the fleets in any order. */
    method CancelAll(ghost s: State)
      requires Inv(s) && View() == s
      modifies this`clients, this`fleets, this`subs, this`panicked
      ensures fleets == map[] && panicked == old(panicked) && ShutSoFar(s, clients, subs, map[])
    {
      while fleets != map[]
        invariant ShutSoFar(s, clients, subs, fleets) && panicked == s.panicked
        decreases fleets.Keys
      {
        var f :| f in fleets;
        CancelOne(f, s);
      }
    }

    /** The shutdown case: every fleet is cancelled, its members closed, its entry deleted. */
    method ShutDown()
      requires Inv(View()) && !down
      modifies this
      ensures View() == Step(old(View()), Shutdown) && Inv(View())
    {
      ghost var s := View();
      ShutdownKeepsInv(s);
      CancelAll(s);
      ShutdownReached(s, clients, subs);
      down := true;
    }

    // ------------------------------------------------------------------- client side

    /** `close`: once only, it hands the client to the hub's unregister channel; while that is
        full the call stays blocked, and a later turn of it goes on. */
    method Close(i: nat)
      requires Inv(View()) && i < |clients|
      modifies this`clients, this`unregisterQ
      ensures View() == Step(Step(old(View()), CloseBegin(i)), CloseSend(i)) && Inv(View())
      ensures !old(clients)[i].unregister.NotYet? && !old(clients)[i].unregister.Sending? ==> View() == old(View())
      ensures |old(unregisterQ)| >= REGISTER_QUEUE ==> unregisterQ == old(unregisterQ)
    {
      CloseIsSteps(View(), i);
      if clients[i].unregister.NotYet? {
        clients := clients[i := clients[i].(unregister := Sending)];
      }
      if clients[i].unregister.Sending? && |unregisterQ| < REGISTER_QUEUE {
        unregisterQ := unregisterQ + [i];
        clients := clients[i := clients[i].(unregister := Queued)];
      }
    }

    /** The loop of `writePump` on the outcomes of its socket writes: what is written stays a
        prefix of what was enqueued, and with enough successful writes is all of it. */
    method WritePump(i: nat, outcomes: seq<bool>)
      requires i < |clients| && ChannelOk(clients[i]) && clients[i].pumping
      modifies this`clients
      ensures clients == old(clients)[i := PumpedAll(old(clients)[i], outcomes)] && ChannelOk(clients[i])
      ensures clients[i].send.sent == old(clients)[i].send.sent
      ensures old(clients)[i].written <= clients[i].written <= clients[i].send.sent
      ensures (forall k :: 0 <= k < |outcomes| ==> outcomes[k]) && |outcomes| >= |old(clients)[i].send.queue| ==>
                clients[i].written == clients[i].send.sent
    {
      var b := clients[i];
      var c := b;
      for k := 0 to |outcomes|
        invariant c == PumpedAll(b, outcomes[..k])
      {
        assert outcomes[..k + 1][..k] == outcomes[..k];
        c := Pumped(c, outcomes[k]);
      }
      assert outcomes[..|outcomes|] == outcomes;
      PumpedAllOk(b, outcomes);
      clients := clients[i := c];
    }
  }
}
