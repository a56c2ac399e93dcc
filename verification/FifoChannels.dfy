/** Proposer-to-acceptor connections that may lose requests but keep their order, as TCP
    does. Acknowledgements may still be lost, duplicated and reordered. */
module FifoChannels {
  import opened PaxosTypes
  import opened Acceptors
  import P = Proposers

  /** `requests[i][a]` is in flight from proposer `i` to acceptor `a`. Refusals go to the
      proposer that asked; acceptances go to everybody (evpaxos/evacceptor.c). */
  datatype State = State(
    stores: seq<Store>, proposers: seq<P.ProposerState>,
    requests: seq<seq<seq<Request>>>,
    promises: set<Record>, accepted: set<Record>, refused: seq<set<Record>>)

  datatype Step =
    | ProposerStep(i: nat, e: P.Event)
    | AcceptorStep(a: nat, i: nat)          // serves the oldest request of proposer i
    | Drop(a: nat, i: nat, k: nat)          // loses a request

  ghost function Init(n: nat, m: nat): State {
    State(
      seq(n, _ => map[]), seq(m, i requires 0 <= i < m => P.NewProposer(i, n)),
      seq(m, _ => seq(n, _ => [])), {}, {}, seq(m, _ => {}))
  }

  ghost predicate Formed(n: nat, m: nat, s: State) {
    && n >= 1 && m <= MAX_N_OF_PROPOSERS
    && |s.stores| == n && |s.proposers| == |s.requests| == |s.refused| == m
    && (forall i :: 0 <= i < m ==> |s.requests[i]| == n)
    && (forall i :: 0 <= i < m ==> ProposerFormed(n, i, s.proposers[i]))
  }

  ghost predicate ProposerFormed(n: nat, i: nat, p: P.ProposerState) {
    P.Valid(p) && p.id == i && p.acceptors == n
  }

  ghost predicate Delivered(s: State, i: nat, e: P.Event)
    requires i < |s.refused|
  {
    match e
    case GotPrepareAck(rec, _) => rec in s.promises
    case GotAcceptAck(rec, _) => rec in s.accepted || rec in s.refused[i]
    case _ => true
  }

  ghost predicate Enabled(n: nat, m: nat, s: State, step: Step)
    requires Formed(n, m, s)
  {
    match step
    case ProposerStep(i, e) => i < m && Delivered(s, i, e) && P.EventOk(s.proposers[i], e)
    case AcceptorStep(a, i) => a < n && i < m && s.requests[i][a] != []
    case Drop(a, i, k) => a < n && i < m && k < |s.requests[i][a]|
  }

  function Appended(queues: seq<seq<Request>>, req: Option<Request>): seq<seq<Request>> {
    if req.None? then queues
    else seq(|queues|, a requires 0 <= a < |queues| => queues[a] + [req.value])
  }

  ghost function Apply(n: nat, m: nat, s: State, step: Step): State
    requires Formed(n, m, s) && Enabled(n, m, s, step)
  {
    match step
    case ProposerStep(i, e) =>
      var p := s.proposers[i];
      s.(proposers := s.proposers[i := P.Next(p, e)],
         requests := s.requests[i := Appended(s.requests[i], P.Sends(p, e))])
    case AcceptorStep(a, i) =>
      var queue := s.requests[i][a];
      var req := queue[0];
      var (store, reply) := Serve(a, s.stores[a], req);
      var t := s.(stores := s.stores[a := store], requests := s.requests[i := s.requests[i][a := queue[1..]]]);
      (match Route(req, reply)
       case Silence => t
       case Broadcast(rec) => t.(accepted := t.accepted + {rec})
       case ToSender(rec) =>
         if req.PrepareReq? then t.(promises := t.promises + {rec})
         else t.(refused := t.refused[i := t.refused[i] + {rec}]))
    case Drop(a, i, k) =>
      var queue := s.requests[i][a];
      s.(requests := s.requests[i := s.requests[i][a := queue[..k] + queue[k + 1..]]])
  }

  // ---- the newest ballot of a proposer -------------------------------------------------

  /** `b` may have been sent by `p` for the instance: no open instance is below it. */
  ghost predicate Sent(p: P.ProposerState, iid: nat, b: nat) {
    && iid <= p.nextPrepareIid
    && (forall k :: 0 <= k < |p.prepare| && p.prepare[k].iid == iid ==> b <= p.prepare[k].ballot)
    && (forall k :: 0 <= k < |p.accept| && p.accept[k].iid == iid ==> b <= p.accept[k].ballot)
  }

  lemma AcceptAckKeepsSent(p: P.ProposerState, rec: Record, now: int, iid: nat, b: nat)
    requires P.Valid(p) && rec.acceptor < p.acceptors && Sent(p, iid, b)
    ensures Sent(P.ReceiveAcceptAck(p, rec, now), iid, b)
  {
    var k := P.Find(p.accept, rec.iid);
    if k < |p.accept| {
      P.WithoutIsRemoval(p.accept, k);
    }
  }

  lemma AcceptKeepsSent(p: P.ProposerState, iid: nat, b: nat)
    requires Sent(p, iid, b)
    ensures Sent(P.AcceptNext(p), iid, b)
  {
  }

  lemma PrepareAckKeepsSent(p: P.ProposerState, rec: Record, now: int, iid: nat, b: nat)
    requires P.PrepareAckFits(p, rec) && Sent(p, iid, b)
    ensures Sent(P.ReceivePrepareAck(p, rec, now), iid, b)
  {
  }

  /** Ballots of an instance never fall. */
  lemma SentStays(p: P.ProposerState, e: P.Event, iid: nat, b: nat)
    requires P.Valid(p) && P.EventOk(p, e) && Sent(p, iid, b)
    ensures Sent(P.Next(p, e), iid, b)
  {
    match e
    case GotPrepareAck(rec, now) => PrepareAckKeepsSent(p, rec, now, iid, b);
    case Accept => AcceptKeepsSent(p, iid, b);
    case GotAcceptAck(rec, now) => AcceptAckKeepsSent(p, rec, now, iid, b);
    case _ =>
  }

  /** The instance that a sending step is about. */
  ghost predicate About(p: P.ProposerState, e: P.Event, inst: P.Instance)
    requires P.Valid(p) && P.EventOk(p, e)
  {
    && (inst in p.prepare || inst in p.accept) && P.Sends(p, e).Some?
    && var r := P.Sends(p, e).value;
       !r.RepeatReq? && r.iid == inst.iid
       && (r.ballot == inst.ballot || r.ballot == P.NextBallot(p.id, inst.ballot))
  }

  lemma SendsAboutInstance(p: P.ProposerState, e: P.Event) returns (inst: P.Instance)
    requires P.Valid(p) && P.EventOk(p, e) && P.Sends(p, e).Some? && !e.Prepare?
    ensures About(p, e, inst)
  {
    inst := match e
      case GotPrepareAck(rec, _) => p.prepare[P.Find(p.prepare, rec.iid)]
      case Accept => p.prepare[0]
      case GotAcceptAck(rec, _) => p.accept[P.Find(p.accept, rec.iid)]
      case ResendPrepare(k, _) => p.prepare[k]
      case ResendAccept(k, _) => p.accept[k];
  }

  /** What a step sends is the proposer's own ballot and at least as high as everything it
      sent before for the instance. */
  lemma SendsNewest(p: P.ProposerState, e: P.Event, b: nat)
    requires P.Valid(p) && P.EventOk(p, e) && P.Sends(p, e).Some?
    ensures var r := P.Sends(p, e).value;
      && !r.RepeatReq? && r.ballot % MAX_N_OF_PROPOSERS == p.id
      && (Sent(p, r.iid, b) ==> b <= r.ballot)
  {
    if !e.Prepare? {
      var inst := SendsAboutInstance(p, e);
      assert P.InstanceOk(p, inst);
    }
  }

  lemma SentIsSent(p: P.ProposerState, e: P.Event)
    requires P.Valid(p) && P.EventOk(p, e) && P.Sends(p, e).Some?
    ensures var r := P.Sends(p, e).value; !r.RepeatReq? && Sent(P.Next(p, e), r.iid, r.ballot)
  {
    if e.GotAcceptAck? {
      var k := P.Find(p.accept, e.rec.iid);
      P.WithoutIsRemoval(p.accept, k);
    }
  }

  // ---- the invariant -----------------------------------------------------------------------

  /** One queue: the proposer's own ballots, never falling for an instance. */
  ghost predicate QueueOk(p: P.ProposerState, queue: seq<Request>) {
    && (forall k :: 0 <= k < |queue| ==>
          && !queue[k].RepeatReq? && queue[k].ballot % MAX_N_OF_PROPOSERS == p.id
          && Sent(p, queue[k].iid, queue[k].ballot))
    && (forall k, l :: 0 <= k < l < |queue| && queue[k].iid == queue[l].iid ==> Ballot(queue[k]) <= Ballot(queue[l]))
  }

  function Ballot(req: Request): nat {
    if req.RepeatReq? then 0 else req.ballot
  }

  /** If an acceptor holds a ballot of `p` for an instance, nothing older is still to come. */
  ghost predicate StoreBehind(p: P.ProposerState, store: Store, queue: seq<Request>) {
    forall iid :: iid in store && store[iid].ballot % MAX_N_OF_PROPOSERS == p.id ==>
      && Sent(p, iid, store[iid].ballot)
      && forall k :: 0 <= k < |queue| && queue[k].iid == iid ==> store[iid].ballot <= Ballot(queue[k])
  }

  ghost predicate PairOk(s: State, i: nat, a: nat)
    requires i < |s.proposers| && i < |s.requests| && a < |s.requests[i]| && a < |s.stores|
  {
    QueueOk(s.proposers[i], s.requests[i][a]) && StoreBehind(s.proposers[i], s.stores[a], s.requests[i][a])
  }

  ghost predicate Inv(n: nat, m: nat, s: State) {
    && Formed(n, m, s)
    && (forall i, a :: 0 <= i < m && 0 <= a < n ==> PairOk(s, i, a))
    && (forall rec :: rec in s.accepted ==> rec.valueBallot == rec.ballot)
    && (forall i, rec :: 0 <= i < m && rec in s.refused[i] ==> rec.ballot % MAX_N_OF_PROPOSERS != i)
  }

  lemma QueueGrows(p: P.ProposerState, e: P.Event, store: Store, queue: seq<Request>)
    requires P.Valid(p) && P.EventOk(p, e) && QueueOk(p, queue) && StoreBehind(p, store, queue)
    ensures QueueOk(P.Next(p, e), queue) && StoreBehind(P.Next(p, e), store, queue)
    ensures P.Sends(p, e).Some? ==>
              var more := queue + [P.Sends(p, e).value];
              QueueOk(P.Next(p, e), more) && StoreBehind(P.Next(p, e), store, more)
  {
    P.NextKeepsValid(p, e);
    var p' := P.Next(p, e);
    forall k | 0 <= k < |queue|
      ensures Sent(p', queue[k].iid, Ballot(queue[k]))
    {
      SentStays(p, e, queue[k].iid, Ballot(queue[k]));
    }
    forall iid | iid in store && store[iid].ballot % MAX_N_OF_PROPOSERS == p'.id
      ensures Sent(p', iid, store[iid].ballot)
    {
      SentStays(p, e, iid, store[iid].ballot);
    }
    if P.Sends(p, e).Some? {
      var r := P.Sends(p, e).value;
      SentIsSent(p, e);
      SendsNewest(p, e, 0);
      forall k | 0 <= k < |queue| && queue[k].iid == r.iid
        ensures Ballot(queue[k]) <= r.ballot
      {
        SendsNewest(p, e, Ballot(queue[k]));
      }
      if r.iid in store {
        SendsNewest(p, e, store[r.iid].ballot);
      }
    }
  }

  lemma QueueLoses(p: P.ProposerState, store: Store, queue: seq<Request>, k: nat)
    requires QueueOk(p, queue) && StoreBehind(p, store, queue) && k < |queue|
    ensures QueueOk(p, queue[..k] + queue[k + 1..]) && StoreBehind(p, store, queue[..k] + queue[k + 1..])
  {
    var less := queue[..k] + queue[k + 1..];
    assert forall j :: 0 <= j < |less| ==> less[j] == queue[if j < k then j else j + 1];
  }

  /** Serving the oldest request of proposer `i`: seen from its own queue. */
  lemma ServeOwn(p: P.ProposerState, a: nat, store: Store, queue: seq<Request>)
    requires QueueOk(p, queue) && StoreBehind(p, store, queue) && queue != []
    ensures QueueOk(p, queue[1..]) && StoreBehind(p, Serve(a, store, queue[0]).0, queue[1..])
  {
    var req, rest := queue[0], queue[1..];
    QueueLoses(p, store, queue, 0);
    assert queue[..0] + queue[0 + 1..] == rest;
    var store' := Serve(a, store, req).0;
    forall iid | iid in store' && store'[iid].ballot % MAX_N_OF_PROPOSERS == p.id
      ensures Sent(p, iid, store'[iid].ballot)
      ensures forall k :: 0 <= k < |rest| && rest[k].iid == iid ==> store'[iid].ballot <= Ballot(rest[k])
    {
      if iid == req.iid && store'[iid].ballot == Ballot(req) {
        assert Sent(p, req.iid, Ballot(req));
        assert forall k :: 0 <= k < |rest| ==> rest[k] == queue[k + 1];
      }
    }
  }

  /** A refusal carries a ballot above the one asked for, hence not the proposer's own. */
  lemma RefusalIsForeign(p: P.ProposerState, a: nat, store: Store, queue: seq<Request>)
    requires QueueOk(p, queue) && StoreBehind(p, store, queue) && queue != []
    ensures match Route(queue[0], Serve(a, store, queue[0]).1)
      case Broadcast(rec) => rec.valueBallot == rec.ballot
      case ToSender(rec) => queue[0].AcceptReq? ==> rec.ballot % MAX_N_OF_PROPOSERS != p.id
      case Silence => true
  {
    var req := queue[0];
    if req.iid in store && store[req.iid].ballot % MAX_N_OF_PROPOSERS == p.id {
      assert store[req.iid].ballot <= Ballot(queue[0]);
    }
  }

  /** ... and seen from the queue of another proposer. */
  lemma ServeOther(p: P.ProposerState, a: nat, store: Store, queue: seq<Request>, req: Request)
    requires StoreBehind(p, store, queue) && !req.RepeatReq? && req.ballot % MAX_N_OF_PROPOSERS != p.id
    ensures StoreBehind(p, Serve(a, store, req).0, queue)
  {
  }

  lemma ProposerStepKeeps(n: nat, m: nat, s: State, i: nat, e: P.Event)
    requires Inv(n, m, s) && Enabled(n, m, s, ProposerStep(i, e))
    ensures Inv(n, m, Apply(n, m, s, ProposerStep(i, e)))
  {
    var s' := Apply(n, m, s, ProposerStep(i, e));
    var p := s.proposers[i];
    assert ProposerFormed(n, i, p);
    P.NextKeepsValid(p, e);
    forall j, a | 0 <= j < m && 0 <= a < n
      ensures PairOk(s', j, a)
    {
      assert PairOk(s, j, a);
      if j == i {
        QueueGrows(p, e, s.stores[a], s.requests[i][a]);
      }
    }
  }

  lemma DropKeeps(n: nat, m: nat, s: State, a: nat, i: nat, k: nat)
    requires Inv(n, m, s) && Enabled(n, m, s, Drop(a, i, k))
    ensures Inv(n, m, Apply(n, m, s, Drop(a, i, k)))
  {
    var s' := Apply(n, m, s, Drop(a, i, k));
    assert PairOk(s, i, a);
    QueueLoses(s.proposers[i], s.stores[a], s.requests[i][a], k);
    forall j, b | 0 <= j < m && 0 <= b < n
      ensures PairOk(s', j, b)
    {
      assert PairOk(s, j, b);
    }
  }

  lemma AcceptorStepKeeps(n: nat, m: nat, s: State, a: nat, i: nat)
    requires Inv(n, m, s) && Enabled(n, m, s, AcceptorStep(a, i))
    ensures Inv(n, m, Apply(n, m, s, AcceptorStep(a, i)))
  {
    var s' := Apply(n, m, s, AcceptorStep(a, i));
    var queue, store := s.requests[i][a], s.stores[a];
    var req := queue[0];
    assert PairOk(s, i, a) && ProposerFormed(n, i, s.proposers[i]);
    ServeOwn(s.proposers[i], a, store, queue);
    RefusalIsForeign(s.proposers[i], a, store, queue);
    forall j, b | 0 <= j < m && 0 <= b < n
      ensures PairOk(s', j, b)
    {
      assert PairOk(s, j, b) && ProposerFormed(n, j, s.proposers[j]);
      if b == a && j != i {
        ServeOther(s.proposers[j], a, store, s.requests[j][a], req);
      }
    }
  }

  // ---- runs -------------------------------------------------------------------------------------

  ghost predicate RunOk(n: nat, m: nat, steps: seq<Step>)
    requires n >= 1 && m <= MAX_N_OF_PROPOSERS
    decreases |steps|, 0
  {
    steps == [] || (
      && RunOk(n, m, steps[..|steps| - 1])
      && Enabled(n, m, Run(n, m, steps[..|steps| - 1]), steps[|steps| - 1]))
  }

  lemma ApplyKeepsFormed(n: nat, m: nat, s: State, step: Step)
    requires Formed(n, m, s) && Enabled(n, m, s, step)
    ensures Formed(n, m, Apply(n, m, s, step))
  {
    if step.ProposerStep? {
      assert ProposerFormed(n, step.i, s.proposers[step.i]);
      P.NextKeepsValid(s.proposers[step.i], step.e);
    }
  }

  ghost function Run(n: nat, m: nat, steps: seq<Step>): (s: State)
    requires n >= 1 && m <= MAX_N_OF_PROPOSERS && RunOk(n, m, steps)
    ensures Formed(n, m, s)
    decreases |steps|, 1
  {
    if steps == [] then Init(n, m)
    else
      var s := Run(n, m, steps[..|steps| - 1]);
      ApplyKeepsFormed(n, m, s, steps[|steps| - 1]);
      Apply(n, m, s, steps[|steps| - 1])
  }

  lemma StepKeeps(n: nat, m: nat, s: State, step: Step)
    requires Inv(n, m, s) && Enabled(n, m, s, step)
    ensures Inv(n, m, Apply(n, m, s, step))
  {
    match step
    case ProposerStep(i, e) => ProposerStepKeeps(n, m, s, i, e);
    case AcceptorStep(a, i) => AcceptorStepKeeps(n, m, s, a, i);
    case Drop(a, i, k) => DropKeeps(n, m, s, a, i, k);
  }

  lemma {:induction false} RunKeepsInv(n: nat, m: nat, steps: seq<Step>)
    requires n >= 1 && m <= MAX_N_OF_PROPOSERS && RunOk(n, m, steps)
    ensures Inv(n, m, Run(n, m, steps))
  {
    if steps != [] {
      RunKeepsInv(n, m, steps[..|steps| - 1]);
      StepKeeps(n, m, Run(n, m, steps[..|steps| - 1]), steps[|steps| - 1]);
    }
  }

  /** Over ordered connections every refusal sent to a proposer carries the ballot of another
      proposer, and the assertion on a matching accept acknowledgement never fails. */
  lemma RefusalsNameRivals(n: nat, m: nat, steps: seq<Step>, i: nat, rec: Record)
    requires n >= 1 && m <= MAX_N_OF_PROPOSERS && RunOk(n, m, steps) && i < m
    ensures var s := Run(n, m, steps);
      && (rec in s.refused[i] ==> rec.ballot % MAX_N_OF_PROPOSERS != i)
      && (rec in s.accepted || rec in s.refused[i] ==> P.AssertionHolds(s.proposers[i], rec))
  {
    RunKeepsInv(n, m, steps);
    var s := Run(n, m, steps);
    var p := s.proposers[i];
    assert ProposerFormed(n, i, p);
    var k := P.Find(p.accept, rec.iid);
    if k < |p.accept| {
      assert P.InstanceOk(p, p.accept[k]);
    }
  }
}
