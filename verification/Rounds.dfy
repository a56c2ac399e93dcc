/** When a proposer's rounds start and end, in terms of the acknowledgements it has received over
    its life (paxos/proposer.c over paxos/quorum.c). */
module Rounds {
  import opened PaxosTypes
  import opened Majorities
  import opened Proposers
  import opened CounterLives
  import Adoption
  import Phases
  import Q = QuorumCounter

  /** The acceptors that count in the present round of the instance: they answered since its last
      clear and were not left marked before. */
  ghost function CountingNow(n: nat, memory: seq<int>, ops: seq<Q.Op>): set<nat>
    requires |memory| == n
  {
    Q.SinceClear(ops) - Q.Stale(n, memory, ops)
  }

  // ---- no complete round is left waiting ---------------------------------------------------------

  ghost predicate NoneFull(p: ProposerState) {
    forall k :: 0 <= k < |p.accept| ==> p.accept[k].quorum.count < p.accept[k].quorum.quorum
  }

  lemma AcceptAckLeavesNoneFull(p: ProposerState, rec: Record, now: int)
    requires Valid(p) && EventOk(p, GotAcceptAck(rec, now)) && NoneFull(p)
    ensures NoneFull(ReceiveAcceptAck(p, rec, now))
  {
    var k := Find(p.accept, rec.iid);
    if k < |p.accept| {
      assert InstanceOk(p, p.accept[k]);
      WithoutIsRemoval(p.accept, k);
    }
  }

  lemma StepLeavesNoneFull(p: ProposerState, e: Event)
    requires Valid(p) && EventOk(p, e) && NoneFull(p)
    ensures NoneFull(Next(p, e))
  {
    match e
    case Accept =>
      if CanAccept(p) {
        assert InstanceOk(p, p.prepare[0]);
      }
    case GotAcceptAck(rec, now) => AcceptAckLeavesNoneFull(p, rec, now);
    case _ =>
  }

  /** Over every life no instance in the accept queue has as many acknowledgements as its quorum. */
  lemma {:induction false} NoFullRoundWaits(id: nat, n: nat, events: seq<Event>)
    requires id < MAX_N_OF_PROPOSERS && n >= 1 && RunOk(id, n, events)
    ensures NoneFull(Run(id, n, events).p)
  {
    if events != [] {
      var init := events[..|events| - 1];
      NoFullRoundWaits(id, n, init);
      StepLeavesNoneFull(Run(id, n, init).p, events[|events| - 1]);
    }
  }

  // ---- when a round ends ---------------------------------------------------------------------------

  ghost predicate Open(p: ProposerState, iid: nat) {
    iid in Iids(p.prepare) || iid in Iids(p.accept)
  }

  lemma AckClosesIff(p: ProposerState, k: nat, rec: Record, now: int)
    requires Valid(p) && EventOk(p, GotAcceptAck(rec, now)) && NoneFull(p)
    requires k < |p.accept| && p.accept[k].iid == rec.iid && p.accept[k].ballot == rec.ballot
    requires rec.acceptor < |p.accept[k].quorum.flags|
    ensures !Open(Next(p, GotAcceptAck(rec, now)), rec.iid)
            <==> Q.Added(p.accept[k].quorum, rec.acceptor).count >= p.accept[k].quorum.quorum
  {
    assert Find(p.accept, rec.iid) == k;
    AcceptAckKeepsOpen(p, rec, now);
    assert rec.iid in Iids(p.accept);
    assert InstanceOk(p, p.accept[k]);
  }

  /** Over every life: an acknowledgement at the ballot of an accepting instance closes it if and
      only if the acceptors that count in this round, its sender included, are then a majority. */
  lemma ClosesIffMajority(id: nat, n: nat, events: seq<Event>, k: nat, rec: Record, now: int)
    requires id < MAX_N_OF_PROPOSERS && n >= 1 && RunOk(id, n, events)
    requires EventOk(Run(id, n, events).p, GotAcceptAck(rec, now)) && k < |Run(id, n, events).p.accept|
    requires var inst := Run(id, n, events).p.accept[k]; inst.iid == rec.iid && inst.ballot == rec.ballot
    ensures var ops, memory := Ops(id, n, events, rec.iid) + [Q.Add(rec.acceptor)], Memory(id, n, events, rec.iid);
      && |memory| == n && Q.OpsOk(ops, n)
      && (!Open(Next(Run(id, n, events).p, GotAcceptAck(rec, now)), rec.iid)
          <==> |CountingNow(n, memory, ops)| >= PaxosQuorum(n))
  {
    var p := Run(id, n, events).p;
    var ops, memory := Ops(id, n, events, rec.iid), Memory(id, n, events, rec.iid);
    assert InstanceOk(p, p.accept[k]);
    NoFullRoundWaits(id, n, events);
    CounterIsReplay(id, n, events, rec.iid);
    ReplayMore(Q.Fresh(n, memory), ops, Q.Add(rec.acceptor));
    Q.CounterIsExact(n, memory, ops + [Q.Add(rec.acceptor)]);
    AckClosesIff(p, k, rec, now);
  }

  /** An open instance is given up by nothing but an acknowledgement at its ballot in the accept
      phase. */
  lemma OnlyAcksClose(p: ProposerState, e: Event, iid: nat)
    requires Valid(p) && EventOk(p, e) && Open(p, iid) && !Open(Next(p, e), iid)
    ensures e.GotAcceptAck? && e.rec.iid == iid
    ensures exists k :: 0 <= k < |p.accept| && p.accept[k].iid == iid && p.accept[k].ballot == e.rec.ballot
  {
    StepConservesInstances(p, e);
    assert iid in OpenIids(p) && iid !in OpenIids(Next(p, e));
    assert p.accept[Find(p.accept, iid)].iid == iid;
  }

  // ---- when a round starts ----------------------------------------------------------------------------

  /** The accept phase of the front instance can start, in terms of what was received for it. */
  ghost predicate CanStart(id: nat, n: nat, events: seq<Event>)
    requires id < MAX_N_OF_PROPOSERS && n >= 1 && RunOk(id, n, events)
  {
    var p := Run(id, n, events).p;
    && p.prepare != []
    && var iid := p.prepare[0].iid;
       && |Memory(id, n, events, iid)| == n
       && |CountingNow(n, Memory(id, n, events, iid), Ops(id, n, events, iid))| >= PaxosQuorum(n)
       && (Adoption.Offers(id, n, events, iid) != [] || p.values != [])
  }

  /** The value it starts with: the first of the highest offers, or else the next client value. */
  ghost predicate StartsWith(id: nat, n: nat, events: seq<Event>, iid: nat, v: Value)
    requires id < MAX_N_OF_PROPOSERS && n >= 1 && RunOk(id, n, events)
  {
    var offers, values := Adoption.Offers(id, n, events, iid), Run(id, n, events).p.values;
    if offers == [] then values != [] && v == values[0]
    else exists b: nat :: Adoption.FirstHighest(offers, Adoption.Offer(b, v))
  }

  /** Over every life: an accept event sends a request if and only if a majority counts in the
      prepare round of the front instance and it was offered a value or one is queued; the request
      is for that instance at its ballot and carries the first of the highest offers, or else the
      next client value. */
  lemma AcceptStartsIff(id: nat, n: nat, events: seq<Event>)
    requires id < MAX_N_OF_PROPOSERS && n >= 1 && RunOk(id, n, events)
    ensures var p := Run(id, n, events).p;
      match Sends(p, Accept)
      case None => !CanStart(id, n, events) && Next(p, Accept) == p
      case Some(req) =>
        && CanStart(id, n, events) && req.AcceptReq?
        && req.iid == p.prepare[0].iid && req.ballot == p.prepare[0].ballot
        && StartsWith(id, n, events, req.iid, req.value)
  {
    var p := Run(id, n, events).p;
    Phases.AcceptMeaning(p);
    if p.prepare != [] {
      var front := p.prepare[0];
      assert front in p.prepare && InstanceOk(p, front);
      RoundIsCompleteIff(id, n, events, front);
      Adoption.ValueIsFirstHighest(id, n, events, front);
    }
  }
}
