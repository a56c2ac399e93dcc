/** What the acknowledgement counter of an instance holds at every point of a proposer's life
    (paxos/proposer.c over paxos/quorum.c). */
module CounterLives {
  import opened PaxosTypes
  import opened Majorities
  import opened Phases
  import opened Proposers
  import Q = QuorumCounter

  /** What the event does to the counter of the instance: an acknowledgement at the present ballot
      is added, a preemption and the start of the accept phase clear. */
  ghost function OpsOf(p: ProposerState, e: Event, iid: nat): seq<Q.Op>
    requires Valid(p) && EventOk(p, e)
  {
    match e
    case GotPrepareAck(rec, _) =>
      var k := Find(p.prepare, iid);
      if rec.iid != iid || k == |p.prepare| || rec.ballot < p.prepare[k].ballot then []
      else if rec.ballot > p.prepare[k].ballot then [Q.Clear] else [Q.Add(rec.acceptor)]
    case Accept => if FrontReady(p) && p.prepare[0].iid == iid then [Q.Clear] else []
    case GotAcceptAck(rec, _) =>
      var k := Find(p.accept, iid);
      if rec.iid != iid || k == |p.accept| then []
      else if rec.ballot != p.accept[k].ballot then [Q.Clear] else [Q.Add(rec.acceptor)]
    case _ => []
  }

  /** Everything that happened to the counter of the instance in a life. */
  ghost function Ops(id: nat, n: nat, events: seq<Event>, iid: nat): seq<Q.Op>
    requires id < MAX_N_OF_PROPOSERS && n >= 1 && RunOk(id, n, events)
  {
    if events == [] then []
    else
      var init := events[..|events| - 1];
      Ops(id, n, init, iid) + OpsOf(Run(id, n, init).p, events[|events| - 1], iid)
  }

  ghost function MemoryAfter(p: ProposerState, e: Event, iid: nat, memory: seq<int>): seq<int> {
    if e.Prepare? && p.nextPrepareIid + 1 == iid then e.garbage else memory
  }

  /** The memory that the instance's flags were allocated from. */
  ghost function Memory(id: nat, n: nat, events: seq<Event>, iid: nat): seq<int>
    requires id < MAX_N_OF_PROPOSERS && n >= 1 && RunOk(id, n, events)
  {
    if events == [] then []
    else
      var init := events[..|events| - 1];
      MemoryAfter(Run(id, n, init).p, events[|events| - 1], iid, Memory(id, n, init, iid))
  }

  /** The instance, if open, has exactly this counter. */
  ghost predicate HasCounter(p: ProposerState, iid: nat, q: Q.QuorumState) {
    && (forall k :: 0 <= k < |p.prepare| && p.prepare[k].iid == iid ==> p.prepare[k].quorum == q)
    && (forall k :: 0 <= k < |p.accept| && p.accept[k].iid == iid ==> p.accept[k].quorum == q)
  }

  ghost predicate CounterOk(p: ProposerState, iid: nat, memory: seq<int>, ops: seq<Q.Op>) {
    if iid > p.nextPrepareIid then ops == []
    else
      && |memory| == p.acceptors && Q.OpsOk(ops, p.acceptors)
      && HasCounter(p, iid, Q.Replay(Q.Fresh(p.acceptors, memory), ops))
  }

  lemma ReplayMore(q: Q.QuorumState, ops: seq<Q.Op>, op: Q.Op)
    requires Q.OpsOk(ops, |q.flags|) && (op.Add? ==> op.id < |q.flags|)
    ensures Q.OpsOk(ops + [op], |q.flags|)
    ensures Q.Replay(q, ops + [op]) ==
            if op.Clear? then Q.Cleared(Q.Replay(q, ops)) else Q.Added(Q.Replay(q, ops), op.id)
  {
    assert (ops + [op])[..|ops|] == ops;
  }

  /** The counter after the operation, if there is one. */
  ghost function Counted(q: Q.QuorumState, ops: seq<Q.Op>): Q.QuorumState
    requires |ops| <= 1 && Q.OpsOk(ops, |q.flags|)
  {
    if ops == [] then q else if ops[0].Clear? then Q.Cleared(q) else Q.Added(q, ops[0].id)
  }

  lemma PrepareAckCounts(p: ProposerState, rec: Record, now: int, iid: nat, q: Q.QuorumState)
    requires Valid(p) && EventOk(p, GotPrepareAck(rec, now)) && HasCounter(p, iid, q) && |q.flags| == p.acceptors
    ensures HasCounter(ReceivePrepareAck(p, rec, now), iid, Counted(q, OpsOf(p, GotPrepareAck(rec, now), iid)))
  {
    var k := Find(p.prepare, rec.iid);
    if k < |p.prepare| {
      assert InstanceOk(p, p.prepare[k]);
    }
  }

  lemma AcceptCounts(p: ProposerState, iid: nat, q: Q.QuorumState)
    requires Valid(p) && HasCounter(p, iid, q)
    ensures HasCounter(AcceptNext(p), iid, Counted(q, OpsOf(p, Accept, iid)))
  {
    if CanAccept(p) {
      var p' := AcceptNext(p);
      assert forall k :: 0 <= k < |p'.prepare| ==> p'.prepare[k] == p.prepare[k + 1];
      assert forall k :: 0 <= k < |p.accept| ==> p'.accept[k] == p.accept[k];
      assert p'.accept[|p.accept|] == Accepting(p);
    }
  }

  lemma AcceptAckCounts(p: ProposerState, rec: Record, now: int, iid: nat, q: Q.QuorumState)
    requires Valid(p) && EventOk(p, GotAcceptAck(rec, now)) && HasCounter(p, iid, q) && |q.flags| == p.acceptors
    ensures HasCounter(ReceiveAcceptAck(p, rec, now), iid, Counted(q, OpsOf(p, GotAcceptAck(rec, now), iid)))
  {
    var k := Find(p.accept, rec.iid);
    if k < |p.accept| {
      assert InstanceOk(p, p.accept[k]);
      WithoutIsRemoval(p.accept, k);
    }
  }

  lemma PrepareCounts(p: ProposerState, memory: seq<int>, now: int, iid: nat)
    requires Valid(p) && |memory| == p.acceptors && iid == p.nextPrepareIid + 1
    ensures HasCounter(PrepareNext(p, memory, now), iid, Q.Fresh(p.acceptors, memory))
  {
    assert forall k :: 0 <= k < |p.prepare| ==> InstanceOk(p, p.prepare[k]);
    assert forall k :: 0 <= k < |p.accept| ==> InstanceOk(p, p.accept[k]);
  }

  lemma OpenStepCounts(p: ProposerState, e: Event, iid: nat, q: Q.QuorumState)
    requires Valid(p) && EventOk(p, e) && HasCounter(p, iid, q) && |q.flags| == p.acceptors && iid <= p.nextPrepareIid
    ensures HasCounter(Next(p, e), iid, Counted(q, OpsOf(p, e, iid)))
  {
    match e
    case GotPrepareAck(rec, now) => PrepareAckCounts(p, rec, now, iid, q);
    case Accept => AcceptCounts(p, iid, q);
    case GotAcceptAck(rec, now) => AcceptAckCounts(p, rec, now, iid, q);
    case _ =>
  }

  lemma UnopenedHasNoOps(p: ProposerState, e: Event, iid: nat)
    requires Valid(p) && EventOk(p, e) && iid > p.nextPrepareIid
    ensures OpsOf(p, e, iid) == []
  {
    assert forall k :: 0 <= k < |p.prepare| ==> InstanceOk(p, p.prepare[k]);
    assert forall k :: 0 <= k < |p.accept| ==> InstanceOk(p, p.accept[k]);
  }

  lemma StepCounts(p: ProposerState, e: Event, iid: nat, memory: seq<int>, ops: seq<Q.Op>)
    requires Valid(p) && EventOk(p, e) && CounterOk(p, iid, memory, ops)
    ensures CounterOk(Next(p, e), iid, MemoryAfter(p, e, iid, memory), ops + OpsOf(p, e, iid))
  {
    NextKeepsValid(p, e);
    if iid > p.nextPrepareIid {
      UnopenedHasNoOps(p, e, iid);
      if e.Prepare? && iid == p.nextPrepareIid + 1 {
        PrepareCounts(p, e.garbage, e.now, iid);
      }
    } else {
      var q := Q.Fresh(p.acceptors, memory);
      var op := OpsOf(p, e, iid);
      OpenStepCounts(p, e, iid, Q.Replay(q, ops));
      if op == [] {
        assert ops + op == ops;
      } else {
        ReplayMore(q, ops, op[0]);
        assert op == [op[0]];
      }
    }
  }

  /** The counter of an open instance is the replay, over the memory it was allocated from, of the
      acknowledgements and clears that concerned it. */
  lemma {:induction false} CounterIsReplay(id: nat, n: nat, events: seq<Event>, iid: nat)
    requires id < MAX_N_OF_PROPOSERS && n >= 1 && RunOk(id, n, events) && iid >= 1
    ensures CounterOk(Run(id, n, events).p, iid, Memory(id, n, events, iid), Ops(id, n, events, iid))
  {
    if events != [] {
      var init := events[..|events| - 1];
      CounterIsReplay(id, n, init, iid);
      StepCounts(Run(id, n, init).p, events[|events| - 1], iid, Memory(id, n, init, iid), Ops(id, n, init, iid));
    }
  }

  /** Over every life: the round of an open instance is complete if and only if a majority of
      distinct acceptors has answered since its last clear, not counting those whose flag the
      partial clear left marked from an earlier round or from the allocation. */
  lemma RoundIsCompleteIff(id: nat, n: nat, events: seq<Event>, inst: Instance)
    requires id < MAX_N_OF_PROPOSERS && n >= 1 && RunOk(id, n, events)
    requires inst in Run(id, n, events).p.prepare || inst in Run(id, n, events).p.accept
    ensures var ops, memory := Ops(id, n, events, inst.iid), Memory(id, n, events, inst.iid);
      && |memory| == n && Q.OpsOk(ops, n)
      && inst.quorum.count == |Q.SinceClear(ops) - Q.Stale(n, memory, ops)|
      && (Q.Reached(inst.quorum) <==> |Q.SinceClear(ops) - Q.Stale(n, memory, ops)| >= PaxosQuorum(n))
  {
    var p := Run(id, n, events).p;
    assert InstanceOk(p, inst);
    CounterIsReplay(id, n, events, inst.iid);
    Q.CounterIsExact(n, Memory(id, n, events, inst.iid), Ops(id, n, events, inst.iid));
  }
}
