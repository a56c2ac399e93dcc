/** A run over ordered connections in which a proposer gets its value accepted by every acceptor:
    agreement over ordered connections is not about an empty set of runs. */
module FifoRuns {
  import opened PaxosTypes
  import opened Majorities
  import opened Acceptors
  import opened FifoChannels
  import opened FifoRefinement
  import Phases
  import P = Proposers
  import T = Protocol
  import W = WholeRounds

  ghost predicate FifoReachable(c: T.Config, s: State) {
    T.ConfigOk(c) && exists steps ::
      && RunOk(c.acceptors, c.proposers, steps) && Run(c.acceptors, c.proposers, steps) == s
      && forall k :: 0 <= k < |steps| ==> Submits(c, steps[k])
  }

  lemma FifoStep(c: T.Config, s: State, step: Step) returns (s': State)
    requires FifoReachable(c, s) && Formed(c.acceptors, c.proposers, s)
    requires Enabled(c.acceptors, c.proposers, s, step) && Submits(c, step)
    ensures FifoReachable(c, s') && Formed(c.acceptors, c.proposers, s')
    ensures s' == Apply(c.acceptors, c.proposers, s, step)
  {
    var n, m := c.acceptors, c.proposers;
    var steps :| RunOk(n, m, steps) && Run(n, m, steps) == s && forall k :: 0 <= k < |steps| ==> Submits(c, steps[k]);
    var more := steps + [step];
    assert more[..|more| - 1] == steps && more[|more| - 1] == step;
    s' := Apply(n, m, s, step);
    ApplyKeepsFormed(n, m, s, step);
    assert RunOk(n, m, more) && Run(n, m, more) == s';
  }

  /** The only queued request of proposer 0 is served. */
  lemma ServesLast(n: nat, m: nat, s: State, a: nat, req: Request, rec: Record)
    requires Formed(n, m, s) && m >= 1 && a < n && s.requests[0][a] == [req]
    requires Serve(a, s.stores[a], req).1 == Some(rec)
    ensures var s' := Apply(n, m, s, AcceptorStep(a, 0));
      && s'.proposers == s.proposers && s'.stores == s.stores[a := Serve(a, s.stores[a], req).0]
      && s'.requests == s.requests[0 := s.requests[0][a := []]]
      && (req.PrepareReq? ==> s'.promises == s.promises + {rec})
      && (req.AcceptReq? && rec.ballot == req.ballot ==> s'.accepted == s.accepted + {rec})
  {
    assert [req][1..] == [];
  }

  // ---- the prepare phase ---------------------------------------------------------------------------

  /** Instance 1 has counted `j` promises, none of them from acceptor `j` or a later one. */
  ghost predicate Gathering(p: P.ProposerState, n: nat, v: Value, j: nat) {
    && P.Valid(p) && p.id == 0 && p.acceptors == n && p.values == [v] && |p.prepare| == 1
    && var inst := p.prepare[0];
       && inst.iid == 1 && inst.ballot == 10 && inst.value.None? && inst.quorum.count == j
       && forall a :: j <= a < n && a < |inst.quorum.flags| ==> inst.quorum.flags[a] == 0
  }

  lemma GathersOne(p: P.ProposerState, n: nat, v: Value, j: nat)
    requires Gathering(p, n, v, j) && j < n
    ensures var e := P.GotPrepareAck(Record(j, 1, 10, 0, false, []), 0);
      P.EventOk(p, e) && Gathering(P.Next(p, e), n, v, j + 1) && P.Sends(p, e) == None
  {
    var e := P.GotPrepareAck(Record(j, 1, 10, 0, false, []), 0);
    assert P.InstanceOk(p, p.prepare[0]) && P.Find(p.prepare, 1) == 0;
    P.NextKeepsValid(p, e);
  }

  lemma GatheredProposes(p: P.ProposerState, n: nat, v: Value)
    requires Gathering(p, n, v, n)
    ensures P.Sends(p, P.Accept) == Some(AcceptReq(1, 10, v))
  {
    assert P.InstanceOk(p, p.prepare[0]);
    Phases.AcceptMeaning(p);
  }

  /** The first `j` acceptors have promised; the others still have the request. */
  ghost predicate AskedToPrepare(n: nat, s: State, j: nat)
    requires |s.requests| >= 1 && |s.requests[0]| == n == |s.stores|
  {
    && (forall a :: 0 <= a < j && a < n ==> s.requests[0][a] == [] && W.Promising(s.stores[a], a, 10))
    && (forall a :: j <= a < n ==> s.requests[0][a] == [PrepareReq(1, 10)] && s.stores[a] == map[])
  }

  ghost predicate PreparePhase(c: T.Config, s: State, v: Value, j: nat) {
    && FifoReachable(c, s) && Formed(c.acceptors, c.proposers, s) && c.proposers >= 1
    && Gathering(s.proposers[0], c.acceptors, v, j) && AskedToPrepare(c.acceptors, s, j)
  }

  lemma Starts(c: T.Config, v: Value) returns (s: State)
    requires T.ConfigOk(c) && c.proposers >= 1 && v in c.values
    ensures PreparePhase(c, s, v, 0)
  {
    var n, m := c.acceptors, c.proposers;
    assert RunOk(n, m, []) && Run(n, m, []) == Init(n, m);
    assert FifoReachable(c, Init(n, m));
    var s1 := FifoStep(c, Init(n, m), ProposerStep(0, P.Propose(v)));
    W.Opens(n, 0, v);
    assert s1.proposers[0] == P.NewProposer(0, n).(values := [v]);
    s := FifoStep(c, s1, ProposerStep(0, P.Prepare(W.Flags(n, 0), 0)));
    assert forall a :: 0 <= a < n ==> [] + [PrepareReq(1, 10)] == s.requests[0][a];
    assert ProposerFormed(n, 0, s.proposers[0]);
  }

  /** Acceptor `j` serves its request. */
  lemma ServesPrepare(c: T.Config, s: State, v: Value, j: nat) returns (s': State)
    requires PreparePhase(c, s, v, j) && j < c.acceptors
    ensures FifoReachable(c, s') && Formed(c.acceptors, c.proposers, s') && s'.proposers == s.proposers
    ensures AskedToPrepare(c.acceptors, s', j + 1) && Record(j, 1, 10, 0, false, []) in s'.promises
  {
    var rec := Record(j, 1, 10, 0, false, []);
    assert s.stores[j] == map[];
    ServesLast(c.acceptors, c.proposers, s, j, PrepareReq(1, 10), rec);
    s' := FifoStep(c, s, AcceptorStep(j, 0));
    assert s'.stores[j] == map[1 := rec];
  }

  lemma PromisesOne(c: T.Config, s: State, v: Value, j: nat) returns (s': State)
    requires PreparePhase(c, s, v, j) && j < c.acceptors
    ensures PreparePhase(c, s', v, j + 1)
  {
    var s1 := ServesPrepare(c, s, v, j);
    GathersOne(s1.proposers[0], c.acceptors, v, j);
    s' := FifoStep(c, s1, ProposerStep(0, P.GotPrepareAck(Record(j, 1, 10, 0, false, []), 0)));
    assert s'.requests == s1.requests;
  }

  lemma {:induction false} PromisesAll(c: T.Config, s: State, v: Value, j: nat) returns (s': State)
    requires PreparePhase(c, s, v, j) && j <= c.acceptors
    ensures PreparePhase(c, s', v, c.acceptors)
    decreases c.acceptors - j
  {
    if j == c.acceptors {
      s' := s;
    } else {
      var s1 := PromisesOne(c, s, v, j);
      s' := PromisesAll(c, s1, v, j + 1);
    }
  }

  // ---- the accept phase ------------------------------------------------------------------------------

  /** The first `j` acceptors have accepted; the others still have the request. */
  ghost predicate AskedToAccept(n: nat, s: State, v: Value, j: nat)
    requires |s.requests| >= 1 && |s.requests[0]| == n == |s.stores|
  {
    && (forall a :: 0 <= a < j && a < n ==> Record(a, 1, 10, 10, false, v) in s.accepted)
    && (forall a :: j <= a < n ==> s.requests[0][a] == [AcceptReq(1, 10, v)] && W.Promising(s.stores[a], a, 10))
  }

  ghost predicate AcceptPhase(c: T.Config, s: State, v: Value, j: nat) {
    && FifoReachable(c, s) && Formed(c.acceptors, c.proposers, s) && c.proposers >= 1
    && AskedToAccept(c.acceptors, s, v, j)
  }

  lemma Proposes(c: T.Config, s: State, v: Value) returns (s': State)
    requires PreparePhase(c, s, v, c.acceptors)
    ensures AcceptPhase(c, s', v, 0)
  {
    GatheredProposes(s.proposers[0], c.acceptors, v);
    s' := FifoStep(c, s, ProposerStep(0, P.Accept));
    assert forall a :: 0 <= a < c.acceptors ==> [] + [AcceptReq(1, 10, v)] == s'.requests[0][a];
  }

  lemma AcceptedNext(n: nat, s: State, s': State, v: Value, j: nat)
    requires |s.requests| >= 1 && |s.requests[0]| == n == |s.stores| && j < n && AskedToAccept(n, s, v, j)
    requires |s'.requests| >= 1 && |s'.requests[0]| == n == |s'.stores|
    requires s'.requests[0] == s.requests[0][j := []] && s'.stores == s.stores[j := s'.stores[j]]
    requires s'.accepted == s.accepted + {Record(j, 1, 10, 10, false, v)}
    ensures AskedToAccept(n, s', v, j + 1)
  {
  }

  lemma AcceptsOne(c: T.Config, s: State, v: Value, j: nat) returns (s': State)
    requires AcceptPhase(c, s, v, j) && j < c.acceptors
    ensures AcceptPhase(c, s', v, j + 1)
  {
    assert W.Promising(s.stores[j], j, 10);
    ServesLast(c.acceptors, c.proposers, s, j, AcceptReq(1, 10, v), Record(j, 1, 10, 10, false, v));
    s' := FifoStep(c, s, AcceptorStep(j, 0));
    AcceptedNext(c.acceptors, s, s', v, j);
  }

  lemma {:induction false} AcceptsAll(c: T.Config, s: State, v: Value, j: nat) returns (s': State)
    requires AcceptPhase(c, s, v, j) && j <= c.acceptors
    ensures AcceptPhase(c, s', v, c.acceptors)
    decreases c.acceptors - j
  {
    if j == c.acceptors {
      s' := s;
    } else {
      var s1 := AcceptsOne(c, s, v, j);
      s' := AcceptsAll(c, s1, v, j + 1);
    }
  }

  /** In every system with a proposer, any client value can be acknowledged by a majority over ordered
      connections. */
  lemma ValueIsAcknowledged(c: T.Config, v: Value) returns (s: State)
    requires T.ConfigOk(c) && c.proposers >= 1 && v in c.values
    ensures FifoReachable(c, s) && |FifoRefinement.Voters(c.acceptors, s, 1, 10, v)| >= PaxosQuorum(c.acceptors)
  {
    var s1 := Starts(c, v);
    var s2 := PromisesAll(c, s1, v, 0);
    var s3 := Proposes(c, s2, v);
    s := AcceptsAll(c, s3, v, 0);
    var voters := FifoRefinement.Voters(c.acceptors, s, 1, 10, v);
    IdsSize(c.acceptors);
    assert Ids(c.acceptors) <= voters;
    SubsetSize(Ids(c.acceptors), voters);
  }
}
