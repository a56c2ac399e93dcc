/** Exactly when a refusal trips the assertion in `proposer_receive_accept_ack`
    (paxos/proposer.c:254): a newer prepare request of the same proposer overtook the refused
    accept request, and the accept request of the newer ballot has not arrived yet. */
module Overtaking {
  import opened PaxosTypes
  import opened Acceptors
  import opened Protocol
  import opened Agreement
  import P = Proposers
  import V = Lives

  /** The highest ballot asked for before is a newer one of the same proposer. */
  ghost predicate Overtaken(history: seq<Request>, req: Request)
    requires req.AcceptReq?
  {
    var h := Highest(history, req.iid);
    req.ballot < h && h % MAX_N_OF_PROPOSERS == req.ballot % MAX_N_OF_PROPOSERS
  }

  /** A refusal carries a ballot of the requester if and only if a newer request of its own
      overtook the refused one. */
  lemma RefusalIsOwnIff(id: nat, history: seq<Request>, req: Request)
    requires PositiveBallots(history) && req.AcceptReq?
    ensures var reply := Route(req, ReplyTo(id, history, req));
      (reply.ToSender? && reply.rec.ballot % MAX_N_OF_PROPOSERS == req.ballot % MAX_N_OF_PROPOSERS)
      <==> Overtaken(history, req)
  {
    RefusalMeaning(id, history, req);
  }

  /** The proposer is in the accept phase of the instance at this ballot. */
  ghost predicate AcceptingAt(p: P.ProposerState, iid: nat, b: nat) {
    exists k :: 0 <= k < |p.accept| && p.accept[k].iid == iid && p.accept[k].ballot == b
  }

  lemma AcceptingIsFound(p: P.ProposerState, iid: nat, b: nat)
    requires P.Distinct(p.accept)
    ensures var k := P.Find(p.accept, iid);
      AcceptingAt(p, iid, b) <==> k < |p.accept| && p.accept[k].ballot == b
  {
  }

  /** The reply to an accept request trips the assertion of a proposer that receives it, at any
      later time, if and only if the proposer is then in the accept phase of the instance at the
      highest ballot the acceptor had been asked for, that ballot is above the refused one, and
      the acceptor had not yet been asked to accept anything at it. */
  lemma AssertionFailsIff(id: nat, history: seq<Request>, req: Request, p: P.ProposerState)
    requires PositiveBallots(history) && req.AcceptReq? && P.Valid(p)
    ensures var h, reply := Highest(history, req.iid), ReplyTo(id, history, req);
      && reply.Some?
      && (!P.AssertionHolds(p, reply.value)
          <==> req.ballot < h && AcceptingAt(p, req.iid, h) && !Asked(history, req.iid, h))
  {
    RefusalMeaning(id, history, req);
    BroadcastIsTheVote(id, history, req);
    AcceptingIsFound(p, req.iid, Highest(history, req.iid));
  }

  // ---- in runs ------------------------------------------------------------------------------

  /** Everything an acceptor serves, repeat requests apart, was sent and has a positive ballot. */
  lemma {:induction false} ServedWasSent(c: Config, steps: seq<Step>, a: nat)
    requires ConfigOk(c) && RunOk(c, steps)
    ensures forall k :: 0 <= k < |ServedBy(steps, a)| && !ServedBy(steps, a)[k].RepeatReq? ==>
              Ask(ServedBy(steps, a)[k]) in Run(c, steps).net
    ensures PositiveBallots(ServedBy(steps, a))
  {
    var served := ServedBy(steps, a);
    if steps != [] {
      ServedWasSent(c, steps[..|steps| - 1], a);
      NetGrows(c, steps, |steps| - 1);
    }
    forall k | 0 <= k < |served| && !served[k].RepeatReq?
      ensures served[k].ballot > 0
    {
      var j := V.RequestsNameSender(c, steps, served[k]);
      V.SentHasOwnBallot(c, steps, j, served[k].ballot % MAX_N_OF_PROPOSERS, served[k]);
    }
  }

  /** In a run, what trips the assertion of proposer `i` is this: after `k` steps acceptor `a`
      serves `req`, having served a prepare request of proposer `i` for the same instance at a
      higher ballot, which no accept request has followed yet. The prepare request is the newest
      one the acceptor has seen and the proposer, when it gets the reply, still works at it. */
  lemma AssertionFailsInRunIff(c: Config, steps: seq<Step>, k: nat, a: nat, i: nat, req: Request)
    requires ConfigOk(c) && RunOk(c, steps) && k <= |steps| && RunOk(c, steps[..k])
    requires a < c.acceptors && i < c.proposers && req.AcceptReq?
    ensures var rec := Serve(a, Run(c, steps[..k]).stores[a], req).1.value;
      var served, p := ServedBy(steps[..k], a), Run(c, steps).proposers[i];
      var h := Highest(served, req.iid);
      && (!P.AssertionHolds(p, rec)
          <==> req.ballot < h && AcceptingAt(p, req.iid, h) && !Asked(served, req.iid, h))
      && (!P.AssertionHolds(p, rec) ==>
            PrepareReq(req.iid, h) in served && h % MAX_N_OF_PROPOSERS == i)
  {
    var served, p := ServedBy(steps[..k], a), Run(c, steps).proposers[i];
    StoreIsServed(c, steps[..k], a);
    ServedWasSent(c, steps[..k], a);
    AssertionFailsIff(a, served, req, p);
    if AcceptingAt(p, req.iid, Highest(served, req.iid)) && !Asked(served, req.iid, Highest(served, req.iid)) {
      OwnPrepareWasServed(served, req.iid, p);
    }
  }

  lemma OwnPrepareWasServed(served: seq<Request>, iid: nat, p: P.ProposerState)
    requires P.Valid(p) && AcceptingAt(p, iid, Highest(served, iid)) && !Asked(served, iid, Highest(served, iid))
    ensures PrepareReq(iid, Highest(served, iid)) in served && Highest(served, iid) % MAX_N_OF_PROPOSERS == p.id
  {
    HighestIsMaximum(served, iid);
    var k :| 0 <= k < |p.accept| && p.accept[k].iid == iid && p.accept[k].ballot == Highest(served, iid);
    assert P.InstanceOk(p, p.accept[k]);
  }
}
