/** What ties a proposer's state to the stores and messages, and why every step keeps it. */
module Proposing {
  import opened PaxosTypes
  import opened Majorities
  import opened Acceptors
  import opened Protocol
  import opened World
  import Q = QuorumCounter
  import P = Proposers

  /** Marked acceptors that have promised the instance's ballot and have not voted between
      its value ballot and its ballot. A mark left over from an earlier round adds nothing. */
  ghost function Promisers(stores: seq<Store>, net: set<Msg>, inst: P.Instance): set<nat> {
    set a | a in Ids(|stores|) && a < |inst.quorum.flags| && inst.quorum.flags[a] != 0
            && inst.ballot <= Promised(stores, a, inst.iid)
            && NoVotesBetween(net, a, inst.iid, inst.valueBallot, inst.ballot)
  }

  /** Marked acceptors that have voted for the instance's value at its ballot. */
  ghost function Backers(stores: seq<Store>, net: set<Msg>, inst: P.Instance): set<nat> {
    set a | a in Ids(|stores|) && a < |inst.quorum.flags| && inst.quorum.flags[a] != 0
            && inst.value.Some? && Voted(net, a, inst.iid, inst.ballot, inst.value.value)
  }

  /** A positive value ballot is a ballot at which the value was proposed, in this round or,
      after a preemption, in an earlier one. */
  ghost predicate ValueOk(net: set<Msg>, inst: P.Instance) {
    && inst.valueBallot < inst.ballot
    && (inst.value.Some? ==> inst.value.value != [])
    && (inst.valueBallot > 0 ==>
          inst.value.Some? && Proposed(net, inst.iid, inst.valueBallot, inst.value.value))
  }

  ghost predicate Preparing(stores: seq<Store>, net: set<Msg>, inst: P.Instance) {
    ValueOk(net, inst) && |Promisers(stores, net, inst)| >= inst.quorum.count
  }

  ghost predicate Accepting(stores: seq<Store>, net: set<Msg>, inst: P.Instance) {
    && ValueOk(net, inst) && inst.value.Some?
    && Proposed(net, inst.iid, inst.ballot, inst.value.value)
    && |Backers(stores, net, inst)| >= inst.quorum.count
  }

  /** Proposals of `p` for an instance lie below its present ballot, except the current one. */
  ghost predicate Past(p: P.ProposerState, iid: nat, b: nat, v: Value) {
    && iid <= p.nextPrepareIid
    && (forall k :: 0 <= k < |p.prepare| && p.prepare[k].iid == iid ==> b < p.prepare[k].ballot)
    && (forall k :: 0 <= k < |p.accept| && p.accept[k].iid == iid ==>
          b < p.accept[k].ballot || (b == p.accept[k].ballot && p.accept[k].value == Some(v)))
  }

  ghost predicate Owns(net: set<Msg>, p: P.ProposerState) {
    forall iid: nat, b: nat, v :: Proposed(net, iid, b, v) && b % MAX_N_OF_PROPOSERS == p.id ==> Past(p, iid, b, v)
  }

  ghost predicate ProposerOk(stores: seq<Store>, net: set<Msg>, p: P.ProposerState) {
    && (forall k :: 0 <= k < |p.prepare| ==> Preparing(stores, net, p.prepare[k]))
    && (forall k :: 0 <= k < |p.accept| ==> Accepting(stores, net, p.accept[k]))
    && (forall k :: 0 <= k < |p.values| ==> p.values[k] != [])
    && Owns(net, p)
  }

  // ---- stability under the steps of others ------------------------------------------

  lemma PreparingStays(stores: seq<Store>, net: set<Msg>, stores': seq<Store>, net': set<Msg>, inst: P.Instance)
    requires Extends(stores, net, stores', net') && Preparing(stores, net, inst)
    ensures Preparing(stores', net', inst)
  {
    var before, after := Promisers(stores, net, inst), Promisers(stores', net', inst);
    forall a | a in before
      ensures a in after
    {
    }
    SubsetSize(before, after);
  }

  lemma AcceptingStays(stores: seq<Store>, net: set<Msg>, stores': seq<Store>, net': set<Msg>, inst: P.Instance)
    requires Extends(stores, net, stores', net') && Accepting(stores, net, inst)
    ensures Accepting(stores', net', inst)
  {
    SubsetSize(Backers(stores, net, inst), Backers(stores', net', inst));
  }

  lemma OthersStayOk(stores: seq<Store>, net: set<Msg>, stores': seq<Store>, net': set<Msg>, p: P.ProposerState)
    requires Extends(stores, net, stores', net') && ProposerOk(stores, net, p)
    requires forall iid: nat, b: nat, v :: Proposed(net', iid, b, v) ==>
               Proposed(net, iid, b, v) || b % MAX_N_OF_PROPOSERS != p.id
    ensures ProposerOk(stores', net', p)
  {
    forall k | 0 <= k < |p.prepare|
      ensures Preparing(stores', net', p.prepare[k])
    {
      PreparingStays(stores, net, stores', net', p.prepare[k]);
    }
    forall k | 0 <= k < |p.accept|
      ensures Accepting(stores', net', p.accept[k])
    {
      AcceptingStays(stores, net, stores', net', p.accept[k]);
    }
  }

  // ---- why an accept request is safe -----------------------------------------------------

  /** Below its ballot, the acceptors counted for the instance cannot help another value. */
  lemma PromisersStandBehind(stores: seq<Store>, net: set<Msg>, inst: P.Instance, v: Value, c: nat)
    requires WorldOk(stores, net) && ValueOk(net, inst)
    requires inst.valueBallot > 0 ==> inst.value == Some(v)
    requires inst.valueBallot <= c < inst.ballot
    ensures Promisers(stores, net, inst) <= Behind(stores, net, inst.iid, c, v)
  {
    forall a | a in Promisers(stores, net, inst)
      ensures a in Behind(stores, net, inst.iid, c, v)
    {
      if w :| Voted(net, a, inst.iid, c, w) {
        assert VoteOk(stores, net, a, inst.iid, c, w);
        assert Proposed(net, inst.iid, c, w) && c == inst.valueBallot;
      }
    }
  }

  /** A quorum of counted promises makes the instance's value safe at its ballot, even when
      the value was carried over from an earlier round with a value ballot that none of the
      present promises mentions. */
  lemma QuorumMakesSafe(stores: seq<Store>, net: set<Msg>, inst: P.Instance, v: Value)
    requires WorldOk(stores, net) && Preparing(stores, net, inst)
    requires Q.Shaped(inst.quorum, |stores|) && Q.Reached(inst.quorum)
    requires inst.valueBallot > 0 ==> inst.value == Some(v)
    ensures SafeAt(stores, net, inst.iid, inst.ballot, v)
  {
    forall c: nat | c < inst.ballot
      ensures |Behind(stores, net, inst.iid, c, v)| >= PaxosQuorum(|stores|)
    {
      if c < inst.valueBallot {
        assert Proposed(net, inst.iid, inst.valueBallot, v);
        assert SafeAt(stores, net, inst.iid, inst.valueBallot, v);
      } else {
        PromisersStandBehind(stores, net, inst, v, c);
        SubsetSize(Promisers(stores, net, inst), Behind(stores, net, inst.iid, c, v));
      }
    }
  }

  // ---- one instance at a time ---------------------------------------------------------------

  /** The instance after a promise at its own ballot has been counted. */
  ghost function Counted(inst: P.Instance, rec: Record): P.Instance
    requires rec.acceptor < |inst.quorum.flags|
  {
    var counted := inst.(quorum := Q.Added(inst.quorum, rec.acceptor));
    if P.AdoptsValue(inst, rec) then counted.(valueBallot := rec.valueBallot, value := Some(rec.value))
    else counted
  }

  lemma CountedValueOk(stores: seq<Store>, net: set<Msg>, inst: P.Instance, rec: Record)
    requires ValueOk(net, inst) && PromiseOk(stores, net, rec)
    requires rec.iid == inst.iid && rec.ballot == inst.ballot
    requires rec.acceptor < |inst.quorum.flags|
    requires forall v :: !Proposed(net, inst.iid, inst.ballot, v)
    ensures ValueOk(net, Counted(inst, rec))
    ensures inst.valueBallot <= Counted(inst, rec).valueBallot
    ensures rec.valueBallot <= Counted(inst, rec).valueBallot
  {
    if rec.valueBallot > 0 {
      assert Proposed(net, rec.iid, rec.valueBallot, rec.value);
    }
  }

  lemma CountedStaysPreparing(stores: seq<Store>, net: set<Msg>, inst: P.Instance, rec: Record)
    requires Preparing(stores, net, inst) && PromiseOk(stores, net, rec)
    requires rec.iid == inst.iid && rec.ballot == inst.ballot
    requires rec.acceptor < |inst.quorum.flags| && Q.CanAdd(inst.quorum, rec.acceptor)
    requires forall v :: !Proposed(net, inst.iid, inst.ballot, v)
    ensures Preparing(stores, net, Counted(inst, rec))
  {
    CountedValueOk(stores, net, inst, rec);
    var inst' := Counted(inst, rec);
    var before, after := Promisers(stores, net, inst), Promisers(stores, net, inst');
    forall a | a in before
      ensures a in after
    {
    }
    assert rec.acceptor in after && rec.acceptor !in before;
    SubsetSize(before + {rec.acceptor}, after);
  }

  /** A preempted instance keeps its value and value ballot and starts a new round. */
  lemma PreemptedIsPreparing(stores: seq<Store>, net: set<Msg>, id: nat, inst: P.Instance, now: int)
    requires ValueOk(net, inst) && inst.ballot > 0
    ensures Preparing(stores, net, P.Preempted(id, inst, now))
  {
  }

  lemma BackedStaysAccepting(stores: seq<Store>, net: set<Msg>, inst: P.Instance, rec: Record)
    requires WorldOk(stores, net) && Accepting(stores, net, inst)
    requires AcceptAck(rec) in net && rec.iid == inst.iid && rec.ballot == inst.ballot == rec.valueBallot
    requires rec.acceptor < |inst.quorum.flags| && Q.CanAdd(inst.quorum, rec.acceptor)
    ensures Accepting(stores, net, inst.(quorum := Q.Added(inst.quorum, rec.acceptor)))
  {
    assert AckOk(stores, net, rec);
    assert rec == Vote(rec.acceptor, inst.iid, inst.ballot, rec.value);
    assert Voted(net, rec.acceptor, inst.iid, inst.ballot, rec.value);
    assert VoteOk(stores, net, rec.acceptor, inst.iid, inst.ballot, rec.value);
    assert Some(rec.value) == inst.value;
    var inst' := inst.(quorum := Q.Added(inst.quorum, rec.acceptor));
    var before, after := Backers(stores, net, inst), Backers(stores, net, inst');
    assert before <= after && rec.acceptor in after && rec.acceptor !in before;
    SubsetSize(before + {rec.acceptor}, after);
  }

  /** When the counter of an accepting instance is full, its value is chosen. */
  lemma FullMeansChosen(stores: seq<Store>, net: set<Msg>, inst: P.Instance)
    requires Accepting(stores, net, inst) && Q.Shaped(inst.quorum, |stores|) && Q.Reached(inst.quorum)
    ensures Chosen(|stores|, net, inst.iid, inst.ballot, inst.value.value)
  {
    SubsetSize(Backers(stores, net, inst), Voters(|stores|, net, inst.iid, inst.ballot, inst.value.value));
  }

  // ---- proposer steps -------------------------------------------------------------------------

  lemma NotYetProposed(stores: seq<Store>, net: set<Msg>, p: P.ProposerState, k: nat)
    requires P.Valid(p) && ProposerOk(stores, net, p) && k < |p.prepare|
    ensures forall v :: !Proposed(net, p.prepare[k].iid, p.prepare[k].ballot, v)
  {
    var inst := p.prepare[k];
    assert P.InstanceOk(p, inst);
    assert forall v :: Proposed(net, inst.iid, inst.ballot, v) ==> !Past(p, inst.iid, inst.ballot, v);
  }

  lemma ReplacePreparing(stores: seq<Store>, net: set<Msg>, p: P.ProposerState, k: nat, x: P.Instance, values: seq<Value>)
    requires ProposerOk(stores, net, p) && k < |p.prepare| && Preparing(stores, net, x)
    requires x.iid == p.prepare[k].iid && p.prepare[k].ballot <= x.ballot
    requires forall j :: 0 <= j < |values| ==> values[j] != []
    ensures ProposerOk(stores, net, p.(prepare := p.prepare[k := x], values := values))
  {
    var q := p.(prepare := p.prepare[k := x], values := values);
    forall iid: nat, b: nat, v | Proposed(net, iid, b, v) && b % MAX_N_OF_PROPOSERS == q.id
      ensures Past(q, iid, b, v)
    {
      assert Past(p, iid, b, v);
    }
  }

  lemma ReplaceAccepting(stores: seq<Store>, net: set<Msg>, p: P.ProposerState, k: nat, x: P.Instance)
    requires ProposerOk(stores, net, p) && k < |p.accept| && Accepting(stores, net, x)
    requires x.iid == p.accept[k].iid && p.accept[k].ballot == x.ballot && x.value == p.accept[k].value
    ensures ProposerOk(stores, net, p.(accept := p.accept[k := x]))
  {
    var q := p.(accept := p.accept[k := x]);
    forall iid: nat, b: nat, v | Proposed(net, iid, b, v) && b % MAX_N_OF_PROPOSERS == q.id
      ensures Past(q, iid, b, v)
    {
      assert Past(p, iid, b, v);
    }
  }

  lemma PrepareAckStep(stores: seq<Store>, net: set<Msg>, p: P.ProposerState, rec: Record, now: int)
    requires WorldOk(stores, net) && P.Valid(p) && p.acceptors == |stores| && ProposerOk(stores, net, p)
    requires PrepareAck(rec) in net && rec.acceptor < p.acceptors
    ensures ProposerOk(stores, net, P.ReceivePrepareAck(p, rec, now))
  {
    var k := P.Find(p.prepare, rec.iid);
    if k < |p.prepare| {
      var inst := p.prepare[k];
      assert P.InstanceOk(p, inst) && Preparing(stores, net, inst);
      if rec.ballot > inst.ballot {
        PreemptedIsPreparing(stores, net, p.id, inst, now);
        ReplacePreparing(stores, net, p, k, P.Preempted(p.id, inst, now), p.values);
      } else if rec.ballot == inst.ballot && Q.CanAdd(inst.quorum, rec.acceptor) {
        assert PromiseOk(stores, net, rec);
        NotYetProposed(stores, net, p, k);
        CountedStaysPreparing(stores, net, inst, rec);
        ReplacePreparing(stores, net, p, k, Counted(inst, rec), P.ReceivePrepareAck(p, rec, now).values);
      }
    }
  }

  lemma PrepareStep(stores: seq<Store>, net: set<Msg>, p: P.ProposerState, garbage: seq<int>, now: int)
    requires P.Valid(p) && ProposerOk(stores, net, p) && |garbage| == p.acceptors
    ensures ProposerOk(stores, net, P.PrepareNext(p, garbage, now))
  {
    var q := P.PrepareNext(p, garbage, now);
    assert Preparing(stores, net, q.prepare[|p.prepare|]);
    assert forall k :: 0 <= k < |p.prepare| ==> q.prepare[k] == p.prepare[k];
    forall iid: nat, b: nat, v | Proposed(net, iid, b, v) && b % MAX_N_OF_PROPOSERS == q.id
      ensures Past(q, iid, b, v)
    {
      assert Past(p, iid, b, v);
    }
  }

  /** Sending a new accept request. */
  lemma AcceptStep(stores: seq<Store>, net: set<Msg>, p: P.ProposerState)
    requires WorldOk(stores, net) && P.Valid(p) && p.acceptors == |stores| && ProposerOk(stores, net, p)
    requires P.CanAccept(p)
    ensures var inst := P.Accepting(p); var net' := net + {Ask(P.AcceptOf(inst))};
      && inst.ballot % MAX_N_OF_PROPOSERS == p.id
      && WorldOk(stores, net') && Extends(stores, net, stores, net')
      && ProposerOk(stores, net', P.AcceptNext(p))
  {
    var front, inst := p.prepare[0], P.Accepting(p);
    var v := inst.value.value;
    var net' := net + {Ask(P.AcceptOf(inst))};
    assert P.InstanceOk(p, front) && Preparing(stores, net, front);
    NotYetProposed(stores, net, p, 0);
    QuorumMakesSafe(stores, net, front, v);
    NewProposalKeepsWorld(stores, net, inst.iid, inst.ballot, v);
    AcceptStepQueues(stores, net, net', p);
  }

  lemma AcceptStepQueues(stores: seq<Store>, net: set<Msg>, net': set<Msg>, p: P.ProposerState)
    requires P.Valid(p) && ProposerOk(stores, net, p) && P.CanAccept(p)
    requires net' == net + {Ask(P.AcceptOf(P.Accepting(p)))} && Extends(stores, net, stores, net')
    ensures ProposerOk(stores, net', P.AcceptNext(p))
  {
    var inst, q := P.Accepting(p), P.AcceptNext(p);
    assert Preparing(stores, net, p.prepare[0]);
    assert Proposed(net', inst.iid, inst.ballot, inst.value.value);
    assert Accepting(stores, net', inst);
    forall k | 0 <= k < |q.prepare|
      ensures Preparing(stores, net', q.prepare[k])
    {
      PreparingStays(stores, net, stores, net', p.prepare[k + 1]);
    }
    forall k | 0 <= k < |q.accept|
      ensures Accepting(stores, net', q.accept[k])
    {
      if k < |p.accept| {
        AcceptingStays(stores, net, stores, net', p.accept[k]);
      }
    }
    AcceptStepOwns(stores, net, net', p);
  }

  lemma AcceptStepOwns(stores: seq<Store>, net: set<Msg>, net': set<Msg>, p: P.ProposerState)
    requires P.Valid(p) && Owns(net, p) && P.CanAccept(p)
    requires net' == net + {Ask(P.AcceptOf(P.Accepting(p)))}
    ensures Owns(net', P.AcceptNext(p))
  {
    var inst, q := P.Accepting(p), P.AcceptNext(p);
    assert P.InstanceOk(p, p.prepare[0]);
    assert forall k :: 0 <= k < |q.prepare| ==> q.prepare[k] == p.prepare[k + 1];
    assert forall k :: 0 <= k < |q.accept| ==> q.accept[k] == (if k < |p.accept| then p.accept[k] else inst);
    forall iid: nat, b: nat, v | Proposed(net', iid, b, v) && b % MAX_N_OF_PROPOSERS == q.id
      ensures Past(q, iid, b, v)
    {
      if Proposed(net, iid, b, v) {
        assert Past(p, iid, b, v);
        if iid == inst.iid {
          assert b < p.prepare[0].ballot;
        }
      } else {
        assert iid == inst.iid && b == inst.ballot && Some(v) == inst.value;
      }
    }
  }

  lemma AcceptAckStep(stores: seq<Store>, net: set<Msg>, p: P.ProposerState, rec: Record, now: int)
    requires WorldOk(stores, net) && P.Valid(p) && p.acceptors == |stores| && ProposerOk(stores, net, p)
    requires AcceptAck(rec) in net && rec.acceptor < p.acceptors && P.AssertionHolds(p, rec)
    ensures ProposerOk(stores, net, P.ReceiveAcceptAck(p, rec, now))
    ensures P.ClosesInstance(p, rec) ==>
              var inst := p.accept[P.Find(p.accept, rec.iid)];
              Chosen(|stores|, net, inst.iid, inst.ballot, inst.value.value)
  {
    var k := P.Find(p.accept, rec.iid);
    if k < |p.accept| {
      var inst := p.accept[k];
      assert P.InstanceOk(p, inst) && Accepting(stores, net, inst);
      if rec.ballot != inst.ballot {
        PreemptStep(stores, net, p, k, now);
      } else if Q.CanAdd(inst.quorum, rec.acceptor) {
        var backed := inst.(quorum := Q.Added(inst.quorum, rec.acceptor));
        BackedStaysAccepting(stores, net, inst, rec);
        if P.ClosesInstance(p, rec) {
          FullMeansChosen(stores, net, backed);
          CloseStep(stores, net, p, k);
        } else {
          ReplaceAccepting(stores, net, p, k, backed);
        }
      } else {
        assert p.accept[k := inst] == p.accept;
      }
    }
  }

  /** Taking instances out of the accept queue keeps past proposals below what remains. */
  lemma FewerOwn(net: set<Msg>, p: P.ProposerState, rest: seq<P.Instance>)
    requires Owns(net, p) && forall x :: x in rest ==> x in p.accept
    ensures Owns(net, p.(accept := rest))
  {
    var q := p.(accept := rest);
    forall iid: nat, b: nat, v | Proposed(net, iid, b, v) && b % MAX_N_OF_PROPOSERS == q.id
      ensures Past(q, iid, b, v)
    {
      assert Past(p, iid, b, v);
      assert forall j :: 0 <= j < |rest| ==> rest[j] in p.accept;
    }
  }

  lemma FewerStayOk(stores: seq<Store>, net: set<Msg>, p: P.ProposerState, rest: seq<P.Instance>)
    requires ProposerOk(stores, net, p) && forall x :: x in rest ==> x in p.accept
    ensures ProposerOk(stores, net, p.(accept := rest))
  {
    FewerOwn(net, p, rest);
    assert forall j :: 0 <= j < |rest| ==> rest[j] in p.accept;
  }

  lemma CloseStep(stores: seq<Store>, net: set<Msg>, p: P.ProposerState, k: nat)
    requires ProposerOk(stores, net, p) && k < |p.accept|
    ensures ProposerOk(stores, net, p.(accept := P.Without(p.accept, p.accept[k].iid)))
  {
    P.WithoutIsPart(p.accept, p.accept[k].iid);
    FewerStayOk(stores, net, p, P.Without(p.accept, p.accept[k].iid));
  }

  lemma PreemptStep(stores: seq<Store>, net: set<Msg>, p: P.ProposerState, k: nat, now: int)
    requires P.Valid(p) && ProposerOk(stores, net, p) && k < |p.accept|
    ensures ProposerOk(stores, net,
              p.(accept := P.Without(p.accept, p.accept[k].iid),
                 prepare := [P.Preempted(p.id, p.accept[k], now)] + p.prepare))
  {
    var inst := p.accept[k];
    var pre := P.Preempted(p.id, inst, now);
    var q := p.(accept := P.Without(p.accept, inst.iid));
    var r := q.(prepare := [pre] + p.prepare);
    assert P.InstanceOk(p, inst) && Accepting(stores, net, inst);
    CloseStep(stores, net, p, k);
    PreemptedIsPreparing(stores, net, p.id, inst, now);
    assert forall j :: 0 <= j < |r.prepare| ==> r.prepare[j] == (if j == 0 then pre else p.prepare[j - 1]);
    forall iid: nat, b: nat, v | Proposed(net, iid, b, v) && b % MAX_N_OF_PROPOSERS == r.id
      ensures Past(r, iid, b, v)
    {
      assert Past(p, iid, b, v) && Past(q, iid, b, v);
    }
  }

  // ---- every proposer step -----------------------------------------------------------------------

  ghost predicate ProposerStepOk(stores: seq<Store>, net: set<Msg>, net': set<Msg>,
                                 p: P.ProposerState, p': P.ProposerState) {
    && WorldOk(stores, net') && Extends(stores, net, stores, net')
    && ProposerOk(stores, net', p')
    && forall iid: nat, b: nat, v :: Proposed(net', iid, b, v) ==>
         Proposed(net, iid, b, v) || b % MAX_N_OF_PROPOSERS == p.id
  }

  /** Steps that send nothing or a prepare request. */
  lemma QuietStep(stores: seq<Store>, net: set<Msg>, out: set<Msg>, p: P.ProposerState, p': P.ProposerState)
    requires WorldOk(stores, net) && ProposerOk(stores, net, p')
    requires forall m :: m in out ==> m.Ask? && m.req.PrepareReq? && m.req.ballot > 0
    ensures ProposerStepOk(stores, net, net + out, p, p')
  {
    RequestKeepsWorld(stores, net, out);
    OthersStayOk(stores, net, stores, net + out, p');
  }

  lemma TimeoutStep(stores: seq<Store>, net: set<Msg>, p: P.ProposerState, e: P.Event)
    requires P.Valid(p) && P.EventOk(p, e) && ProposerOk(stores, net, p)
    requires e.ResendPrepare? || e.ResendAccept?
    ensures ProposerOk(stores, net, P.Next(p, e))
    ensures e.ResendAccept? ==> Ask(P.AcceptOf(p.accept[e.k])) in net
  {
    if e.ResendPrepare? {
      var x := p.prepare[e.k].(createdAt := e.now);
      assert Preparing(stores, net, p.prepare[e.k]);
      assert Promisers(stores, net, x) == Promisers(stores, net, p.prepare[e.k]);
      ReplacePreparing(stores, net, p, e.k, x, p.values);
    } else {
      var x := p.accept[e.k].(createdAt := e.now);
      assert Accepting(stores, net, p.accept[e.k]);
      assert Backers(stores, net, x) == Backers(stores, net, p.accept[e.k]);
      ReplaceAccepting(stores, net, p, e.k, x);
      assert Proposed(net, x.iid, x.ballot, x.value.value);
    }
  }

  lemma SentPrepareIsPositive(p: P.ProposerState, e: P.Event)
    requires P.Valid(p) && P.EventOk(p, e) && !e.Accept? && !e.ResendAccept?
    ensures forall m :: m in Outgoing(P.Sends(p, e)) ==> m.Ask? && m.req.PrepareReq? && m.req.ballot > 0
  {
  }

  lemma ProposerStepKeepsOk(c: Config, stores: seq<Store>, net: set<Msg>, p: P.ProposerState, e: P.Event)
    requires WorldOk(stores, net) && P.Valid(p) && p.acceptors == |stores| && ProposerOk(stores, net, p)
    requires P.EventOk(p, e) && FromEnvironment(c, net, e) && [] !in c.values
    ensures ProposerStepOk(stores, net, net + Outgoing(P.Sends(p, e)), p, P.Next(p, e))
  {
    var out := Outgoing(P.Sends(p, e));
    match e
    case Accept =>
      if P.CanAccept(p) {
        AcceptStep(stores, net, p);
      } else {
        QuietStep(stores, net, out, p, p);
      }
    case ResendAccept(k, now) =>
      TimeoutStep(stores, net, p, e);
      assert net + out == net + {};
      QuietStep(stores, net, {}, p, P.Next(p, e));
    case _ =>
      SentPrepareIsPositive(p, e);
      QuietEvent(c, stores, net, p, e);
      QuietStep(stores, net, out, p, P.Next(p, e));
  }

  lemma QuietEvent(c: Config, stores: seq<Store>, net: set<Msg>, p: P.ProposerState, e: P.Event)
    requires WorldOk(stores, net) && P.Valid(p) && p.acceptors == |stores| && ProposerOk(stores, net, p)
    requires P.EventOk(p, e) && FromEnvironment(c, net, e) && [] !in c.values
    requires !e.Accept? && !e.ResendAccept?
    ensures ProposerOk(stores, net, P.Next(p, e))
  {
    match e
    case Propose(v) =>
      var q := P.Next(p, e);
      forall iid: nat, b: nat, w | Proposed(net, iid, b, w) && b % MAX_N_OF_PROPOSERS == q.id
        ensures Past(q, iid, b, w)
      {
        assert Past(p, iid, b, w);
      }
    case Prepare(garbage, now) => PrepareStep(stores, net, p, garbage, now);
    case GotPrepareAck(rec, now) => PrepareAckStep(stores, net, p, rec, now);
    case GotAcceptAck(rec, now) => AcceptAckStep(stores, net, p, rec, now);
    case ResendPrepare(k, now) => TimeoutStep(stores, net, p, e);
  }
}
