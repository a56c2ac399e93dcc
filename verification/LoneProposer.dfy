/** With a single proposer nothing is ever preempted: every ballot is its first one and every
    instance is proposed once, so agreement holds even for empty values. */
module LoneProposer {
  import opened PaxosTypes
  import opened Acceptors
  import opened Protocol
  import opened World
  import opened Scenarios
  import P = Proposers

  const FIRST: nat := MAX_N_OF_PROPOSERS

  ghost predicate NetLone(net: set<Msg>) {
    && (forall req :: Ask(req) in net ==> !req.RepeatReq? && req.ballot == FIRST)
    && (forall rec :: PrepareAck(rec) in net || AcceptAck(rec) in net ==> rec.ballot == FIRST)
    && (forall rec :: AcceptAck(rec) in net && rec.valueBallot == rec.ballot ==> Proposed(net, rec.iid, FIRST, rec.value))
    && OneValue(net)
  }

  ghost predicate StoreLone(net: set<Msg>, store: Store) {
    forall iid :: iid in store ==>
      && store[iid].iid == iid && store[iid].ballot == FIRST
      && (store[iid].valueBallot == FIRST ==> Proposed(net, iid, FIRST, store[iid].value))
  }

  ghost predicate Unproposed(net: set<Msg>, iid: nat) {
    forall b: nat, v :: !Proposed(net, iid, b, v)
  }

  /** Everything is at the first ballot; what is preparing was not proposed, what is accepting was. */
  ghost predicate ProposerLone(net: set<Msg>, p: P.ProposerState) {
    && p.id == 0
    && (forall k :: 0 <= k < |p.prepare| ==> p.prepare[k].ballot == FIRST && Unproposed(net, p.prepare[k].iid))
    && (forall k :: 0 <= k < |p.accept| ==>
          p.accept[k].ballot == FIRST && p.accept[k].value.Some?
          && Proposed(net, p.accept[k].iid, FIRST, p.accept[k].value.value))
    && (forall iid: nat, b: nat, v :: Proposed(net, iid, b, v) ==> iid <= p.nextPrepareIid)
  }

  ghost predicate Lone(c: Config, s: State) {
    && Formed(c, s) && c.proposers <= 1 && NetLone(s.net)
    && (forall a :: 0 <= a < c.acceptors ==> StoreLone(s.net, s.stores[a]))
    && (forall i :: 0 <= i < c.proposers ==> ProposerLone(s.net, s.proposers[i]))
  }

  // ---- acceptor steps --------------------------------------------------------------------------

  lemma ServeKeepsLone(net: set<Msg>, a: nat, store: Store, req: Request)
    requires NetLone(net) && StoreLone(net, store) && (req.RepeatReq? || Ask(req) in net)
    ensures var (store', reply) := Serve(a, store, req);
      StoreLone(net, store') && NetLone(net + Answers(req, reply))
  {
    if req.AcceptReq? {
      assert Proposed(net, req.iid, req.ballot, req.value);
    }
    var (store', reply) := Serve(a, store, req);
    var net' := net + Answers(req, reply);
    assert forall iid: nat, b: nat, v :: Proposed(net', iid, b, v) ==> Proposed(net, iid, b, v);
    if reply.Some? {
      assert req.iid in store' && store'[req.iid] == reply.value;
    }
  }

  lemma AcceptorKeepsLone(c: Config, s: State, a: nat, req: Request)
    requires Lone(c, s) && Enabled(c, s, AcceptorStep(a, req))
    ensures Lone(c, Apply(c, s, AcceptorStep(a, req)))
  {
    var s' := Apply(c, s, AcceptorStep(a, req));
    ServeKeepsLone(s.net, a, s.stores[a], req);
    forall e | 0 <= e < c.acceptors
      ensures StoreLone(s'.net, s'.stores[e])
    {
      assert StoreLone(s.net, s.stores[e]);
    }
    forall i | 0 <= i < c.proposers
      ensures ProposerLone(s'.net, s'.proposers[i])
    {
      AnswersProposeNothing(s.net, req, Serve(a, s.stores[a], req).1, s.proposers[i]);
    }
  }

  lemma AnswersProposeNothing(net: set<Msg>, req: Request, reply: Option<Record>, p: P.ProposerState)
    requires ProposerLone(net, p)
    ensures ProposerLone(net + Answers(req, reply), p)
  {
    var net' := net + Answers(req, reply);
    assert forall iid: nat, b: nat, v :: Proposed(net', iid, b, v) <==> Proposed(net, iid, b, v);
  }

  // ---- proposer steps --------------------------------------------------------------------------

  /** Steps that propose nothing new. */
  lemma SameProposals(net: set<Msg>, out: Option<Request>, p: P.ProposerState)
    requires NetLone(net) && ProposerLone(net, p)
    requires out.Some? ==> (out.value.PrepareReq? && out.value.ballot == FIRST) || Ask(out.value) in net
    ensures NetLone(net + Outgoing(out)) && ProposerLone(net + Outgoing(out), p)
  {
    var net' := net + Outgoing(out);
    assert forall iid: nat, b: nat, v :: Proposed(net', iid, b, v) <==> Proposed(net, iid, b, v);
  }

  lemma PrepareAckLone(net: set<Msg>, p: P.ProposerState, rec: Record, now: int)
    requires P.Valid(p) && ProposerLone(net, p) && rec.acceptor < p.acceptors && rec.ballot == FIRST
    ensures ProposerLone(net, P.ReceivePrepareAck(p, rec, now))
    ensures P.Sends(p, P.GotPrepareAck(rec, now)) == None
  {
  }

  lemma AcceptAckLone(net: set<Msg>, p: P.ProposerState, rec: Record, now: int)
    requires P.Valid(p) && ProposerLone(net, p) && P.EventOk(p, P.GotAcceptAck(rec, now)) && rec.ballot == FIRST
    ensures ProposerLone(net, P.ReceiveAcceptAck(p, rec, now))
    ensures P.Sends(p, P.GotAcceptAck(rec, now)) == None
  {
    var k := P.Find(p.accept, rec.iid);
    if k < |p.accept| {
      P.WithoutIsRemoval(p.accept, k);
    }
  }

  lemma AcceptLone(net: set<Msg>, p: P.ProposerState)
    requires P.Valid(p) && NetLone(net) && ProposerLone(net, p) && P.CanAccept(p)
    ensures var net' := net + Outgoing(Some(P.AcceptOf(P.Accepting(p))));
      NetLone(net') && ProposerLone(net', P.AcceptNext(p))
  {
    var inst, q := P.Accepting(p), P.AcceptNext(p);
    var net' := net + Outgoing(Some(P.AcceptOf(inst)));
    assert P.InstanceOk(p, p.prepare[0]);
    assert forall iid: nat, b: nat, v :: Proposed(net', iid, b, v) <==>
        Proposed(net, iid, b, v) || AcceptReq(iid, b, v) == P.AcceptOf(inst);
    assert forall k :: 0 <= k < |q.prepare| ==> q.prepare[k] == p.prepare[k + 1];
    assert forall k :: 0 <= k < |q.accept| ==> q.accept[k] == (if k < |p.accept| then p.accept[k] else inst);
    assert Unproposed(net, p.prepare[0].iid);
  }

  lemma PrepareLone(net: set<Msg>, p: P.ProposerState, garbage: seq<int>, now: int)
    requires ProposerLone(net, p) && |garbage| == p.acceptors
    ensures ProposerLone(net, P.PrepareNext(p, garbage, now))
  {
  }

  lemma StepLone(c: Config, net: set<Msg>, p: P.ProposerState, e: P.Event)
    requires P.Valid(p) && P.EventOk(p, e) && FromEnvironment(c, net, e) && NetLone(net) && ProposerLone(net, p)
    ensures NetLone(net + Outgoing(P.Sends(p, e))) && ProposerLone(net + Outgoing(P.Sends(p, e)), P.Next(p, e))
  {
    match e
    case Propose(v) => SameProposals(net, None, P.Next(p, e));
    case Prepare(garbage, now) =>
      PrepareLone(net, p, garbage, now);
      SameProposals(net, P.Sends(p, e), P.Next(p, e));
    case GotPrepareAck(rec, now) =>
      PrepareAckLone(net, p, rec, now);
      SameProposals(net, None, P.Next(p, e));
    case Accept =>
      if P.CanAccept(p) { AcceptLone(net, p); } else { SameProposals(net, None, p); }
    case GotAcceptAck(rec, now) =>
      AcceptAckLone(net, p, rec, now);
      SameProposals(net, None, P.Next(p, e));
    case ResendPrepare(k, now) => SameProposals(net, P.Sends(p, e), P.Next(p, e));
    case ResendAccept(k, now) =>
      assert Proposed(net, p.accept[k].iid, FIRST, p.accept[k].value.value);
      SameProposals(net, P.Sends(p, e), P.Next(p, e));
  }

  lemma StoreStaysLone(net: set<Msg>, net': set<Msg>, store: Store)
    requires net <= net' && StoreLone(net, store)
    ensures StoreLone(net', store)
  {
  }

  lemma ProposerKeepsLone(c: Config, s: State, i: nat, e: P.Event)
    requires Lone(c, s) && Enabled(c, s, ProposerStep(i, e))
    ensures Lone(c, Apply(c, s, ProposerStep(i, e)))
  {
    var s' := Apply(c, s, ProposerStep(i, e));
    assert ProposerFormed(c, i, s.proposers[i]);
    ApplyKeepsFormed(c, s, ProposerStep(i, e));
    StepLone(c, s.net, s.proposers[i], e);
    forall a | 0 <= a < c.acceptors
      ensures StoreLone(s'.net, s'.stores[a])
    {
      StoreStaysLone(s.net, s'.net, s.stores[a]);
    }
  }

  lemma {:induction false} RunIsLone(c: Config, steps: seq<Step>)
    requires ConfigOk(c) && RunOk(c, steps) && c.proposers <= 1
    ensures Lone(c, Run(c, steps))
  {
    if steps != [] {
      var init, last := steps[..|steps| - 1], steps[|steps| - 1];
      RunIsLone(c, init);
      match last
      case ProposerStep(i, e) => ProposerKeepsLone(c, Run(c, init), i, e);
      case AcceptorStep(a, req) => AcceptorKeepsLone(c, Run(c, init), a, req);
    }
  }

  lemma ChosenIsProposed(c: Config, s: State, iid: nat, b: nat, v: Value)
    requires Lone(c, s) && Chosen(c.acceptors, s.net, iid, b, v)
    ensures b == FIRST && Proposed(s.net, iid, FIRST, v)
  {
    var voters := Voters(c.acceptors, s.net, iid, b, v);
    assert |voters| >= 1;
    var a :| a in voters;
    assert AcceptAck(Vote(a, iid, b, v)) in s.net;
  }

  /** A lone proposer never leaves its first ballot and its values agree, empty ones included. */
  lemma LoneProposerAgrees(c: Config, s: State, iid: nat, b: nat, v: Value, b': nat, v': Value)
    requires Reachable(c, s) && c.proposers <= 1
    requires Chosen(c.acceptors, s.net, iid, b, v) && Chosen(c.acceptors, s.net, iid, b', v')
    ensures b == b' == MAX_N_OF_PROPOSERS && v == v'
  {
    var steps :| RunOk(c, steps) && Run(c, steps) == s;
    RunIsLone(c, steps);
    ChosenIsProposed(c, s, iid, b, v);
    ChosenIsProposed(c, s, iid, b', v');
  }
}
