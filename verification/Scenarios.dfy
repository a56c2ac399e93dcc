/** Building blocks for concrete runs with a single acceptor. */
module Scenarios {
  import opened PaxosTypes
  import opened Majorities
  import opened Acceptors
  import opened Protocol
  import opened World
  import Q = QuorumCounter
  import P = Proposers

  ghost predicate Reachable(c: Config, s: State) {
    ConfigOk(c) && exists steps :: RunOk(c, steps) && Run(c, steps) == s
  }

  lemma StartIsReachable(c: Config)
    requires ConfigOk(c)
    ensures Reachable(c, Init(c)) && Formed(c, Init(c))
  {
    assert RunOk(c, []) && Run(c, []) == Init(c);
  }

  lemma ReachStep(c: Config, s: State, step: Step)
    requires Reachable(c, s) && Formed(c, s) && Enabled(c, s, step)
    ensures Reachable(c, Apply(c, s, step)) && Formed(c, Apply(c, s, step))
  {
    var steps :| RunOk(c, steps) && Run(c, steps) == s;
    var more := steps + [step];
    assert more[..|more| - 1] == steps && more[|more| - 1] == step;
    assert RunOk(c, more);
    ApplyKeepsFormed(c, s, step);
  }

  /** With one acceptor a vote is a choice. */
  lemma OneVoteChooses(net: set<Msg>, iid: nat, b: nat, v: Value)
    requires Voted(net, 0, iid, b, v)
    ensures Chosen(1, net, iid, b, v)
  {
    assert Voters(1, net, iid, b, v) >= {0};
    SubsetSize({0}, Voters(1, net, iid, b, v));
  }

  // A fresh proposer can get its own value accepted by a lone acceptor that holds nothing,
  // or holds the empty value: the promise of an empty value is not looked at.

  /** Only proposer `i` moved, to `p`. */
  ghost predicate Moved(c: Config, s: State, s': State, i: nat, p: P.ProposerState, out: Option<Request>) {
    && Reachable(c, s') && Formed(c, s') && i < |s.proposers|
    && s'.stores == s.stores && s'.net == s.net + Outgoing(out) && s'.proposers == s.proposers[i := p]
  }

  lemma ProposerMoves(c: Config, s: State, i: nat, e: P.Event) returns (s': State)
    requires Reachable(c, s) && Formed(c, s) && Enabled(c, s, ProposerStep(i, e))
    ensures Moved(c, s, s', i, P.Next(s.proposers[i], e), P.Sends(s.proposers[i], e))
  {
    ReachStep(c, s, ProposerStep(i, e));
    s' := Apply(c, s, ProposerStep(i, e));
  }

  /** Only acceptor 0 moved; its record for instance 1 is now `rec`. */
  ghost predicate Served(c: Config, s: State, s': State, req: Request, rec: Record) {
    && Reachable(c, s') && Formed(c, s')
    && s'.stores == [map[1 := rec]] && s'.net == s.net + {Answer(req, rec)} && s'.proposers == s.proposers
  }

  lemma OnlyRecord(store: Store, rec: Record)
    requires store.Keys <= {1}
    ensures store[1 := rec] == map[1 := rec]
  {
  }

  lemma AcceptorMoves(c: Config, s: State, req: Request, rec: Record) returns (s': State)
    requires Reachable(c, s) && Formed(c, s) && c.acceptors == 1 && Ask(req) in s.net
    requires s.stores[0].Keys <= {1} && Serve(0, s.stores[0], req) == (map[1 := rec], Some(rec))
    ensures Served(c, s, s', req, rec)
  {
    ReachStep(c, s, AcceptorStep(0, req));
    s' := Apply(c, s, AcceptorStep(0, req));
  }

  /** In every system some acceptor can be brought to send a promise as an acknowledgement. */
  lemma PromiseIsSent(c: Config) returns (s: State)
    requires ConfigOk(c) && c.proposers >= 1
    ensures Reachable(c, s) && AcceptAck(Record(0, 1, 10, 0, false, [])) in s.net
  {
    StartIsReachable(c);
    var e := P.Prepare(seq(c.acceptors, _ => 0), 0);
    var s1 := ProposerMoves(c, Init(c), 0, e);
    var req := PrepareReq(1, 10);
    ReachStep(c, s1, AcceptorStep(0, req));
    var s2 := Apply(c, s1, AcceptorStep(0, req));
    ReachStep(c, s2, AcceptorStep(0, RepeatReq(1)));
    s := Apply(c, s2, AcceptorStep(0, RepeatReq(1)));
  }

  /** A proposer with one instance, one queued value and `count` promises. */
  function Solo(i: nat, v: Value, count: nat): P.ProposerState {
    P.ProposerState(i, 1, [v], 1,
      [P.Instance(1, MAX_N_OF_PROPOSERS + i, 0, None, Q.QuorumState(1, 1, count, [count]), 0)], [])
  }

  lemma SoloPrepares(i: nat, v: Value)
    requires i < MAX_N_OF_PROPOSERS
    ensures var p := P.NewProposer(i, 1).(values := [v]); var e := P.Prepare([0], 0);
      && P.Valid(p) && P.EventOk(p, e) && P.Next(p, e) == Solo(i, v, 0)
      && P.Sends(p, e) == Some(PrepareReq(1, MAX_N_OF_PROPOSERS + i))
  {
    assert Q.Fresh(1, [0]) == Q.QuorumState(1, 1, 0, [0]);
  }

  lemma SoloIsPromised(i: nat, v: Value, rec: Record)
    requires i < MAX_N_OF_PROPOSERS && P.Valid(Solo(i, v, 0))
    requires rec.acceptor == 0 && rec.iid == 1 && rec.ballot == MAX_N_OF_PROPOSERS + i && rec.value == []
    ensures var p := Solo(i, v, 0); var e := P.GotPrepareAck(rec, 0);
      P.EventOk(p, e) && P.Next(p, e) == Solo(i, v, 1) && P.Sends(p, e) == None
  {
    var p := Solo(i, v, 0);
    assert P.Find(p.prepare, 1) == 0;
    assert [0][0 := 1] == [1];
  }

  lemma SoloAccepts(i: nat, v: Value)
    requires P.Valid(Solo(i, v, 1))
    ensures var p := Solo(i, v, 1);
      P.EventOk(p, P.Accept) && P.Sends(p, P.Accept) == Some(AcceptReq(1, MAX_N_OF_PROPOSERS + i, v))
  {
  }

  /** The lone acceptor has no value stored, or the empty one, at a lower ballot. */
  ghost predicate NothingToReport(store: Store, b: nat) {
    && store.Keys <= {1}
    && (1 in store ==>
          store[1].ballot < b && store[1].value == []
          && store[1].acceptor == 0 && store[1].iid == 1 && !store[1].isFinal)
  }

  lemma PreparedState(c: Config, s: State, i: nat, v: Value) returns (s': State)
    requires c.acceptors == 1 && Reachable(c, s) && Formed(c, s) && i < c.proposers && v in c.values
    requires s.proposers[i] == P.NewProposer(i, 1)
    ensures Reachable(c, s') && Formed(c, s') && s.net <= s'.net && s'.stores == s.stores
    ensures s'.proposers == s.proposers[i := Solo(i, v, 0)]
    ensures Ask(PrepareReq(1, MAX_N_OF_PROPOSERS + i)) in s'.net
  {
    var s1 := ProposerMoves(c, s, i, P.Propose(v));
    SoloPrepares(i, v);
    assert s1.proposers[i] == P.NewProposer(i, 1).(values := [v]);
    s' := ProposerMoves(c, s1, i, P.Prepare([0], 0));
  }

  lemma PromisedState(c: Config, s: State, i: nat, v: Value) returns (s': State)
    requires c.acceptors == 1 && Reachable(c, s) && Formed(c, s) && i < c.proposers
    requires s.proposers[i] == Solo(i, v, 0) && Ask(PrepareReq(1, MAX_N_OF_PROPOSERS + i)) in s.net
    requires NothingToReport(s.stores[0], MAX_N_OF_PROPOSERS + i)
    ensures Reachable(c, s') && Formed(c, s') && s.net <= s'.net
    ensures s'.proposers == s.proposers[i := Solo(i, v, 1)]
    ensures s'.stores == [map[1 := AfterPrepare(0, Lookup(s.stores[0], 1), 1, MAX_N_OF_PROPOSERS + i)]]
  {
    var b := MAX_N_OF_PROPOSERS + i;
    var rec := AfterPrepare(0, Lookup(s.stores[0], 1), 1, b);
    OnlyRecord(s.stores[0], rec);
    var s1 := AcceptorMoves(c, s, PrepareReq(1, b), rec);
    assert ProposerFormed(c, i, s1.proposers[i]);
    SoloIsPromised(i, v, rec);
    s' := ProposerMoves(c, s1, i, P.GotPrepareAck(rec, 0));
  }

  lemma RequestedState(c: Config, s: State, i: nat, v: Value) returns (s': State)
    requires c.acceptors == 1 && Reachable(c, s) && Formed(c, s) && i < c.proposers
    requires s.proposers[i] == Solo(i, v, 1)
    ensures Reachable(c, s') && Formed(c, s') && s.net <= s'.net && s'.stores == s.stores
    ensures Ask(AcceptReq(1, MAX_N_OF_PROPOSERS + i, v)) in s'.net && OthersSame(s, s', i)
  {
    assert ProposerFormed(c, i, s.proposers[i]);
    SoloAccepts(i, v);
    s' := ProposerMoves(c, s, i, P.Accept);
  }

  lemma VotedState(c: Config, s: State, b: nat, v: Value) returns (s': State)
    requires c.acceptors == 1 && Reachable(c, s) && Formed(c, s) && Ask(AcceptReq(1, b, v)) in s.net
    requires s.stores[0].Keys == {1} && s.stores[0][1].ballot == b
    ensures Reachable(c, s') && Formed(c, s') && s.net <= s'.net && Voted(s'.net, 0, 1, b, v)
    ensures s'.stores == [map[1 := Vote(0, 1, b, v)]] && s'.proposers == s.proposers
  {
    OnlyRecord(s.stores[0], Vote(0, 1, b, v));
    s' := AcceptorMoves(c, s, AcceptReq(1, b, v), Vote(0, 1, b, v));
  }

  /** Every proposer but `i` is as before. */
  ghost predicate OthersSame(s: State, s': State, i: nat) {
    |s'.proposers| == |s.proposers|
    && forall j :: 0 <= j < |s.proposers| && j != i ==> s'.proposers[j] == s.proposers[j]
  }

  lemma ReadyState(c: Config, s: State, i: nat, v: Value) returns (s': State)
    requires c.acceptors == 1 && Reachable(c, s) && Formed(c, s) && i < c.proposers && v in c.values
    requires s.proposers[i] == P.NewProposer(i, 1) && NothingToReport(s.stores[0], MAX_N_OF_PROPOSERS + i)
    ensures Reachable(c, s') && Formed(c, s') && s.net <= s'.net && OthersSame(s, s', i)
    ensures s'.proposers[i] == Solo(i, v, 1)
    ensures s'.stores[0].Keys == {1} && s'.stores[0][1].ballot == MAX_N_OF_PROPOSERS + i
  {
    var s1 := PreparedState(c, s, i, v);
    s' := PromisedState(c, s1, i, v);
  }

  lemma AcceptedState(c: Config, s: State, i: nat, v: Value) returns (s': State)
    requires c.acceptors == 1 && Reachable(c, s) && Formed(c, s) && i < c.proposers
    requires s.proposers[i] == Solo(i, v, 1)
    requires s.stores[0].Keys == {1} && s.stores[0][1].ballot == MAX_N_OF_PROPOSERS + i
    ensures Reachable(c, s') && Formed(c, s') && s.net <= s'.net && OthersSame(s, s', i)
    ensures Voted(s'.net, 0, 1, MAX_N_OF_PROPOSERS + i, v)
    ensures s'.stores == [map[1 := Vote(0, 1, MAX_N_OF_PROPOSERS + i, v)]]
  {
    var s1 := RequestedState(c, s, i, v);
    s' := VotedState(c, s1, MAX_N_OF_PROPOSERS + i, v);
  }

  lemma WholeRound(c: Config, s: State, i: nat, v: Value) returns (s': State)
    requires c.acceptors == 1 && Reachable(c, s) && Formed(c, s) && i < c.proposers && v in c.values
    requires s.proposers[i] == P.NewProposer(i, 1) && NothingToReport(s.stores[0], MAX_N_OF_PROPOSERS + i)
    ensures Reachable(c, s') && Formed(c, s') && s.net <= s'.net && OthersSame(s, s', i)
    ensures Voted(s'.net, 0, 1, MAX_N_OF_PROPOSERS + i, v)
    ensures s'.stores == [map[1 := Vote(0, 1, MAX_N_OF_PROPOSERS + i, v)]]
  {
    var s1 := ReadyState(c, s, i, v);
    s' := AcceptedState(c, s1, i, v);
  }
}
