/** The dispatcher and the state writers joined at the state channel. */
module Ingestion {
  import Pipeline
  import StateWrites

  /** The workers have taken exactly what has left the state channel, in its order. */
  ghost predicate Joined(s: Pipeline.Pipe, w: StateWrites.State) {
    w.taken == s.fan.state.received
  }

  /** Nothing admitted is still on its way to a state worker. */
  ghost predicate StateDrained(s: Pipeline.Pipe) {
    && s.fan.ingress.queue == [] && s.fan.state.queue == []
    && !s.fan.hand.ToDB? && !s.fan.hand.ToState?
  }

  /** Nothing is dropped or reordered between admission and the workers. */
  lemma WorkersTakeAdmitted(c: Pipeline.Config, s: Pipeline.Pipe, w: StateWrites.State)
    requires Pipeline.Reachable(c, s) && Joined(s, w)
    ensures w.taken <= s.fan.ingress.sent
    ensures StateDrained(s) <==> w.taken == s.fan.ingress.sent
  {
    Pipeline.ReachableInv(c, s);
    FanInOrder(s.fan);
    var onTheWay := OnTheWay(s.fan);
    assert onTheWay == [] <==> StateDrained(s);
  }

  function OnTheWay(f: Pipeline.Fan): seq<Pipeline.Msg> {
    f.state.queue + Pipeline.InHandForState(f.hand) + Pipeline.InHandForDB(f.hand) + f.ingress.queue
  }

  lemma FanInOrder(f: Pipeline.Fan)
    requires Pipeline.FanInv(f)
    ensures f.ingress.sent == f.state.received + OnTheWay(f)
  {
    assert f.ingress.sent == f.db.sent + Pipeline.InHandForDB(f.hand) + f.ingress.queue;
    assert f.db.sent == f.state.received + f.state.queue + Pipeline.InHandForState(f.hand);
  }

  /** From admission to Redis, with one state worker and no failed pipeline: once nothing is on
      the way or held, every vehicle's hash is its last admitted message, and a vehicle without
      a hash has none. */
  lemma LastAdmittedIsStored(c: Pipeline.Config, s: Pipeline.Pipe, w: StateWrites.State)
    requires Pipeline.Reachable(c, s) && StateWrites.ReachableUnfailed(1, w) && Joined(s, w)
    requires StateDrained(s) && StateWrites.Quiet(w)
    ensures StateWrites.HoldsLatest(w.hashes, s.fan.ingress.sent)
  {
    WorkersTakeAdmitted(c, s, w);
    StateWrites.OneWorkerLatest(w);
  }

  /** With any number of workers and any failures, a hash is still some admitted message of its
      vehicle. */
  lemma StoredWasAdmitted(c: Pipeline.Config, s: Pipeline.Pipe, n: nat, w: StateWrites.State, v: string)
    requires Pipeline.Reachable(c, s) && StateWrites.Reachable(n, w) && Joined(s, w) && v in w.hashes
    ensures w.hashes[v].vehicleId == v && w.hashes[v] in s.fan.ingress.sent
  {
    WorkersTakeAdmitted(c, s, w);
    StateWrites.HashIsLastWrite(n, w);
    var ms := StateWrites.At(w.taken, w.written);
    var k :| StateWrites.LastFor(ms, v, k) && w.hashes[v] == ms[k];
    assert w.taken[w.written[k]] == s.fan.ingress.sent[w.written[k]];
  }
}
