/** When a proposer starts the accept phase of an instance, and what it announces
    (paxos/proposer.c). */
module Phases {
  import opened PaxosTypes
  import opened Proposers
  import opened Ballots

  /** The front instance has counted as many promises as its quorum, and it has a value or a client
      value is queued. */
  ghost predicate FrontReady(p: ProposerState) {
    && p.prepare != []
    && p.prepare[0].quorum.count >= p.prepare[0].quorum.quorum
    && (p.prepare[0].value.Some? || p.values != [])
  }

  /** The value the front instance would be proposed with: its own, or the next client value. */
  ghost function FrontValue(p: ProposerState): Value
    requires FrontReady(p)
  {
    if p.prepare[0].value.Some? then p.prepare[0].value.value else p.values[0]
  }

  /** An accept event sends a request if and only if the front is ready. The request carries the
      instance's own value if it has one and the next client value otherwise, and only that is
      taken from the queue. */
  lemma AcceptMeaning(p: ProposerState)
    requires Valid(p)
    ensures FrontReady(p) ==>
      && Sends(p, Accept) == Some(AcceptReq(p.prepare[0].iid, p.prepare[0].ballot, FrontValue(p)))
      && Next(p, Accept).prepare == p.prepare[1..]
      && Next(p, Accept).values == (if p.prepare[0].value.Some? then p.values else p.values[1..])
      && |Next(p, Accept).accept| == |p.accept| + 1 && Next(p, Accept).accept[..|p.accept|] == p.accept
      && Next(p, Accept).accept[|p.accept|].value == Some(FrontValue(p))
    ensures !FrontReady(p) ==> Sends(p, Accept) == None && Next(p, Accept) == p
  {
  }

  lemma ReadyIsAccepted(p: ProposerState)
    ensures FrontReady(p) <==> CanAccept(p)
  {
  }

  // ---- a proposer announces its changes ----------------------------------------------------------

  /** The instance is in the accept phase with this ballot and value. */
  ghost predicate AcceptingWith(p: ProposerState, iid: nat, b: nat, v: Value) {
    exists k :: 0 <= k < |p.accept| && p.accept[k].iid == iid && p.accept[k].ballot == b && p.accept[k].value == Some(v)
  }

  /** A prepare request for everything that is open at a ballot it was not open at before, an
      accept request for everything that is newly in the accept phase, and nothing else. */
  ghost predicate Announces(p: ProposerState, q: ProposerState, sent: Option<Request>) {
    && (forall iid: nat, b: nat :: OpenAt(q, iid, b) && !OpenAt(p, iid, b) ==> sent == Some(PrepareReq(iid, b)))
    && (forall iid: nat, b: nat, v :: AcceptingWith(q, iid, b, v) && !AcceptingWith(p, iid, b, v) ==>
          sent == Some(AcceptReq(iid, b, v)))
    && (sent.Some? ==> match sent.value
        case PrepareReq(iid, b) => OpenAt(q, iid, b) && !OpenAt(p, iid, b)
        case AcceptReq(iid, b, v) => AcceptingWith(q, iid, b, v) && !AcceptingWith(p, iid, b, v)
        case RepeatReq(_) => false)
  }

  lemma PrepareAnnounces(p: ProposerState, garbage: seq<int>, now: int)
    requires Valid(p) && |garbage| == p.acceptors
    ensures Announces(p, PrepareNext(p, garbage, now), Some(PrepareReq(p.nextPrepareIid + 1, NextBallot(p.id, 0))))
  {
    var q := PrepareNext(p, garbage, now);
    assert forall k :: 0 <= k < |p.prepare| ==> q.prepare[k] == p.prepare[k] && InstanceOk(p, p.prepare[k]);
    assert forall k :: 0 <= k < |p.accept| ==> InstanceOk(p, p.accept[k]);
    assert q.prepare[|p.prepare|].iid == p.nextPrepareIid + 1;
  }

  lemma PrepareAckAnnounces(p: ProposerState, rec: Record, now: int)
    requires Valid(p) && EventOk(p, GotPrepareAck(rec, now))
    ensures Announces(p, ReceivePrepareAck(p, rec, now), Sends(p, GotPrepareAck(rec, now)))
  {
    var q := ReceivePrepareAck(p, rec, now);
    var k := Find(p.prepare, rec.iid);
    assert |q.prepare| == |p.prepare| && q.accept == p.accept;
    assert forall j :: 0 <= j < |p.prepare| && j != k ==> q.prepare[j] == p.prepare[j];
    if k < |p.prepare| {
      assert InstanceOk(p, p.prepare[k]);
      assert q.prepare[k].iid == rec.iid;
      assert OpenAt(q, rec.iid, q.prepare[k].ballot);
    }
  }

  lemma AcceptAnnounces(p: ProposerState)
    requires Valid(p)
    ensures Announces(p, AcceptNext(p), Sends(p, Accept))
  {
    if CanAccept(p) {
      var q, inst := AcceptNext(p), Accepting(p);
      assert forall k :: 0 <= k < |q.prepare| ==> q.prepare[k] == p.prepare[k + 1];
      assert forall k :: 0 <= k < |p.accept| ==> q.accept[k] == p.accept[k];
      assert q.accept[|p.accept|] == inst;
      assert OpenAt(p, inst.iid, inst.ballot) by {
        assert p.prepare[0].iid == inst.iid;
      }
    }
  }

  lemma PreemptionAnnounces(p: ProposerState, k: nat, x: Instance)
    requires Valid(p) && k < |p.accept| && x.iid == p.accept[k].iid && x.ballot != p.accept[k].ballot
    ensures Announces(p, p.(accept := p.accept[..k] + p.accept[k + 1..], prepare := [x] + p.prepare),
              Some(PrepareReq(x.iid, x.ballot)))
  {
    var q := p.(accept := p.accept[..k] + p.accept[k + 1..], prepare := [x] + p.prepare);
    assert forall j :: 1 <= j < |q.prepare| ==> q.prepare[j] == p.prepare[j - 1];
    assert forall j :: 0 <= j < |q.accept| ==> q.accept[j] == p.accept[if j < k then j else j + 1];
    assert q.prepare[0] == x;
  }

  ghost predicate IsLike(x: Instance, s: seq<Instance>) {
    exists k :: 0 <= k < |s| && x.iid == s[k].iid && x.ballot == s[k].ballot && x.value == s[k].value
  }

  /** Taking an accepting instance out, or counting for it, is not announced. */
  lemma QuietAnnounces(p: ProposerState, q: ProposerState)
    requires q == p.(accept := q.accept)
    requires forall j :: 0 <= j < |q.accept| ==> IsLike(q.accept[j], p.accept)
    ensures Announces(p, q, None)
  {
  }

  lemma AcceptAckAnnounces(p: ProposerState, rec: Record, now: int)
    requires Valid(p) && EventOk(p, GotAcceptAck(rec, now))
    ensures Announces(p, ReceiveAcceptAck(p, rec, now), Sends(p, GotAcceptAck(rec, now)))
  {
    var q := ReceiveAcceptAck(p, rec, now);
    var k := Find(p.accept, rec.iid);
    if k < |p.accept| && rec.ballot != p.accept[k].ballot {
      WithoutIsRemoval(p.accept, k);
      assert InstanceOk(p, p.accept[k]);
      PreemptionAnnounces(p, k, Preempted(p.id, p.accept[k], now));
    } else {
      forall j | 0 <= j < |q.accept|
        ensures IsLike(q.accept[j], p.accept)
      {
        WithoutIsPart(p.accept, rec.iid);
        if k < |p.accept| && ClosesInstance(p, rec) {
          assert q.accept[j] in p.accept;
        }
      }
      QuietAnnounces(p, q);
    }
  }

  /** Resends apart, a step announces exactly what it changed: new and raised ballots by prepare
      requests, instances entering the accept phase by accept requests. A resend repeats what is
      open. */
  lemma StepAnnounces(p: ProposerState, e: Event)
    requires Valid(p) && EventOk(p, e)
    ensures !e.ResendPrepare? && !e.ResendAccept? ==> Announces(p, Next(p, e), Sends(p, e))
    ensures e.ResendPrepare? ==> Sends(p, e) == Some(PrepareReq(p.prepare[e.k].iid, p.prepare[e.k].ballot))
    ensures e.ResendAccept? ==>
      Sends(p, e) == Some(AcceptReq(p.accept[e.k].iid, p.accept[e.k].ballot, p.accept[e.k].value.value))
  {
    match e
    case Propose(v) =>
      assert forall iid: nat, b: nat :: OpenAt(Next(p, e), iid, b) ==> OpenAt(p, iid, b);
    case Prepare(garbage, now) => PrepareAnnounces(p, garbage, now);
    case GotPrepareAck(rec, now) => PrepareAckAnnounces(p, rec, now);
    case Accept => AcceptAnnounces(p);
    case GotAcceptAck(rec, now) => AcceptAckAnnounces(p, rec, now);
    case ResendPrepare(k, now) =>
    case ResendAccept(k, now) =>
  }

  /** An instance that loses its ballot in the accept phase is the very next one to be retried. */
  lemma PreemptedIsNext(p: ProposerState, k: nat, rec: Record, now: int)
    requires Valid(p) && EventOk(p, GotAcceptAck(rec, now))
    requires k < |p.accept| && p.accept[k].iid == rec.iid && p.accept[k].ballot != rec.ballot
    ensures var q := Next(p, GotAcceptAck(rec, now));
      && q.prepare != [] && q.prepare[0].iid == rec.iid && q.prepare[1..] == p.prepare
      && q.accept == p.accept[..k] + p.accept[k + 1..]
  {
    WithoutIsRemoval(p.accept, k);
    assert Find(p.accept, rec.iid) == k;
  }
}
