/** Runs with three acceptors: a learner that ignores only acknowledgements without a value
    delivers a value that is not chosen, and a proposer does not notice that its value is. */
module ThreeAcceptors {
  import opened PaxosTypes
  import opened Majorities
  import opened Acceptors
  import opened Protocol
  import opened World
  import opened Agreement
  import opened Scenarios
  import opened Guards
  import L = Learners
  import P = Proposers
  import Q = QuorumCounter
  import V = Lives

  /** A proposer that has opened instance 1, with one queued value and `count` promises. */
  function Collecting(i: nat, v: Value, flags: seq<int>, count: nat): P.ProposerState {
    P.ProposerState(i, 3, [v], 1,
      [P.Instance(1, MAX_N_OF_PROPOSERS + i, 0, None, Q.QuorumState(3, 2, count, flags), 0)], [])
  }

  /** A record with a promise and no vote. */
  function Promise(a: nat, b: nat): Record {
    Record(a, 1, b, 0, false, [])
  }

  lemma OpensFirst(i: nat, v: Value)
    requires i < MAX_N_OF_PROPOSERS
    ensures var p := P.NewProposer(i, 3).(values := [v]); var e := P.Prepare([0, 0, 0], 0);
      && P.Valid(p) && P.EventOk(p, e) && P.Next(p, e) == Collecting(i, v, [0, 0, 0], 0)
      && P.Sends(p, e) == Some(PrepareReq(1, MAX_N_OF_PROPOSERS + i))
  {
    assert Q.Fresh(3, [0, 0, 0]) == Q.QuorumState(3, 2, 0, [0, 0, 0]);
  }

  lemma CountsPromise(i: nat, v: Value, flags: seq<int>, count: nat, a: nat)
    requires P.Valid(Collecting(i, v, flags, count)) && |flags| == 3 && a < 3 && flags[a] == 0
    ensures var p := Collecting(i, v, flags, count); var e := P.GotPrepareAck(Promise(a, MAX_N_OF_PROPOSERS + i), 0);
      && P.EventOk(p, e) && P.Next(p, e) == Collecting(i, v, flags[a := 1], count + 1) && P.Sends(p, e) == None
  {
    var p := Collecting(i, v, flags, count);
    assert P.Find(p.prepare, 1) == 0;
  }

  lemma StartsAccepting(i: nat, v: Value, flags: seq<int>)
    requires P.Valid(Collecting(i, v, flags, 2))
    ensures P.Sends(Collecting(i, v, flags, 2), P.Accept) == Some(AcceptReq(1, MAX_N_OF_PROPOSERS + i, v))
  {
  }

  // ---- steps of the system -----------------------------------------------------------------------

  ghost predicate Ok(c: Config, s: State) {
    Reachable(c, s) && Formed(c, s) && c.acceptors == 3
  }

  /** Only acceptor `a` changed, and only its record for instance 1. */
  ghost predicate OnlyStore(s: State, s': State, a: nat, rec: Record) {
    && |s'.stores| == |s.stores| && s.net <= s'.net
    && (forall x :: 0 <= x < |s.stores| && x != a ==> s'.stores[x] == s.stores[x])
    && a < |s.stores| && Lookup(s'.stores[a], 1) == Some(rec)
  }

  lemma Serves(c: Config, s: State, a: nat, req: Request, rec: Record) returns (s': State)
    requires Ok(c, s) && a < 3 && (req.RepeatReq? || Ask(req) in s.net) && req.iid == 1
    requires Serve(a, s.stores[a], req).1 == Some(rec)
    ensures Ok(c, s') && OnlyStore(s, s', a, rec) && s'.proposers == s.proposers && Answer(req, rec) in s'.net
  {
    ReachStep(c, s, AcceptorStep(a, req));
    s' := Apply(c, s, AcceptorStep(a, req));
  }

  lemma Opens(c: Config, s: State, i: nat, v: Value) returns (s': State)
    requires Ok(c, s) && i < c.proposers && v in c.values && s.proposers[i] == P.NewProposer(i, 3)
    ensures Ok(c, s') && s.net <= s'.net && s'.stores == s.stores
    ensures s'.proposers == s.proposers[i := Collecting(i, v, [0, 0, 0], 0)]
    ensures Ask(PrepareReq(1, MAX_N_OF_PROPOSERS + i)) in s'.net
  {
    OpensFirst(i, v);
    var s1 := ProposerMoves(c, s, i, P.Propose(v));
    assert s1.proposers[i] == P.NewProposer(i, 3).(values := [v]);
    s' := ProposerMoves(c, s1, i, P.Prepare([0, 0, 0], 0));
  }

  /** The acceptor has no vote for instance 1 and has promised less than `b`. */
  ghost predicate Blank(store: Store, a: nat, b: nat) {
    1 in store ==> store[1].ballot < b && store[1] == Promise(a, store[1].ballot)
  }

  lemma Promises(c: Config, s: State, i: nat, v: Value, flags: seq<int>, count: nat, a: nat) returns (s': State)
    requires Ok(c, s) && i < c.proposers && s.proposers[i] == Collecting(i, v, flags, count)
    requires Ask(PrepareReq(1, MAX_N_OF_PROPOSERS + i)) in s.net
    requires |flags| == 3 && a < 3 && flags[a] == 0 && Blank(s.stores[a], a, MAX_N_OF_PROPOSERS + i)
    ensures Ok(c, s') && OnlyStore(s, s', a, Promise(a, MAX_N_OF_PROPOSERS + i))
    ensures s'.proposers == s.proposers[i := Collecting(i, v, flags[a := 1], count + 1)]
  {
    var b := MAX_N_OF_PROPOSERS + i;
    var s1 := Serves(c, s, a, PrepareReq(1, b), Promise(a, b));
    assert ProposerFormed(c, i, s1.proposers[i]);
    CountsPromise(i, v, flags, count, a);
    s' := ProposerMoves(c, s1, i, P.GotPrepareAck(Promise(a, b), 0));
  }

  lemma Votes(c: Config, s: State, i: nat, v: Value, flags: seq<int>, a: nat) returns (s': State)
    requires Ok(c, s) && i < c.proposers && s.proposers[i] == Collecting(i, v, flags, 2) && a < 3
    requires Lookup(s.stores[a], 1) == Some(Promise(a, MAX_N_OF_PROPOSERS + i))
    ensures Ok(c, s') && OnlyStore(s, s', a, Vote(a, 1, MAX_N_OF_PROPOSERS + i, v)) && OthersSame(s, s', i)
    ensures Proposed(s'.net, 1, MAX_N_OF_PROPOSERS + i, v)
  {
    assert ProposerFormed(c, i, s.proposers[i]);
    StartsAccepting(i, v, flags);
    var s1 := ProposerMoves(c, s, i, P.Accept);
    s' := Serves(c, s1, a, AcceptReq(1, MAX_N_OF_PROPOSERS + i, v), Vote(a, 1, MAX_N_OF_PROPOSERS + i, v));
  }

  /** Proposer `i` collects the promises of `a` and 2. */
  lemma Collects(c: Config, s: State, i: nat, v: Value, a: nat) returns (s': State)
    requires Ok(c, s) && i < c.proposers && v in c.values && s.proposers[i] == P.NewProposer(i, 3) && a < 2
    requires Blank(s.stores[a], a, MAX_N_OF_PROPOSERS + i) && Blank(s.stores[2], 2, MAX_N_OF_PROPOSERS + i)
    ensures Ok(c, s') && s.net <= s'.net && s'.stores[1 - a] == s.stores[1 - a]
    ensures s'.proposers == s.proposers[i := Collecting(i, v, [0, 0, 0][a := 1][2 := 1], 2)]
    ensures Lookup(s'.stores[a], 1) == Some(Promise(a, MAX_N_OF_PROPOSERS + i))
    ensures Lookup(s'.stores[2], 1) == Some(Promise(2, MAX_N_OF_PROPOSERS + i))
  {
    var s1 := Opens(c, s, i, v);
    var s2 := Promises(c, s1, i, v, [0, 0, 0], 0, a);
    s' := Promises(c, s2, i, v, [0, 0, 0][a := 1], 1, 2);
  }

  /** ... and `a` alone gets its accept request. */
  lemma HalfRound(c: Config, s: State, i: nat, v: Value, a: nat) returns (s': State)
    requires Ok(c, s) && i < c.proposers && v in c.values && s.proposers[i] == P.NewProposer(i, 3) && a < 2
    requires Blank(s.stores[a], a, MAX_N_OF_PROPOSERS + i) && Blank(s.stores[2], 2, MAX_N_OF_PROPOSERS + i)
    ensures Ok(c, s') && s.net <= s'.net && OthersSame(s, s', i) && s'.stores[1 - a] == s.stores[1 - a]
    ensures Lookup(s'.stores[a], 1) == Some(Vote(a, 1, MAX_N_OF_PROPOSERS + i, v))
    ensures Lookup(s'.stores[2], 1) == Some(Promise(2, MAX_N_OF_PROPOSERS + i))
    ensures Proposed(s'.net, 1, MAX_N_OF_PROPOSERS + i, v)
  {
    var s1 := Collects(c, s, i, v, a);
    s' := Votes(c, s1, i, v, [0, 0, 0][a := 1][2 := 1], a);
  }

  /** Acceptor `a` promises ballot 12 on top of its vote and repeats its record to a learner. */
  lemma PromisesTwelve(c: Config, s: State, a: nat, b: nat, v: Value) returns (s': State)
    requires Ok(c, s) && a < 3 && b < 12 && Ask(PrepareReq(1, 12)) in s.net
    requires Lookup(s.stores[a], 1) == Some(Vote(a, 1, b, v))
    ensures var rec := Record(a, 1, 12, b, false, v);
      Ok(c, s') && OnlyStore(s, s', a, rec) && AcceptAck(rec) in s'.net
  {
    var rec := Record(a, 1, 12, b, false, v);
    var s1 := Serves(c, s, a, PrepareReq(1, 12), rec);
    s' := Serves(c, s1, a, RepeatReq(1), rec);
  }

  lemma FirstHalfRound(c: Config, v: Value) returns (s: State)
    requires c.acceptors == 3 && 3 <= c.proposers <= MAX_N_OF_PROPOSERS && v in c.values
    ensures Ok(c, s) && s.proposers[1] == P.NewProposer(1, 3) && s.proposers[2] == P.NewProposer(2, 3)
    ensures 1 !in s.stores[0] && Lookup(s.stores[1], 1) == Some(Vote(1, 1, 10, v))
    ensures Lookup(s.stores[2], 1) == Some(Promise(2, 10))
  {
    StartIsReachable(c);
    s := HalfRound(c, Init(c), 0, v, 1);
  }

  /** Acceptor 1 votes for `v` at 10, acceptor 0 for `w` at 11. */
  lemma TwoHalfRounds(c: Config, v: Value, w: Value) returns (s: State)
    requires c.acceptors == 3 && 3 <= c.proposers <= MAX_N_OF_PROPOSERS && v in c.values && w in c.values
    ensures Ok(c, s) && Proposed(s.net, 1, 11, w) && s.proposers[2] == P.NewProposer(2, 3)
    ensures Lookup(s.stores[0], 1) == Some(Vote(0, 1, 11, w)) && Lookup(s.stores[1], 1) == Some(Vote(1, 1, 10, v))
    ensures Lookup(s.stores[2], 1) == Some(Promise(2, 11))
  {
    var s1 := FirstHalfRound(c, v);
    s := HalfRound(c, s1, 1, w, 0);
  }

  /** ... and both repeat their records after a promise of ballot 12. */
  lemma SplitVotes(c: Config, v: Value, w: Value) returns (s: State)
    requires c.acceptors == 3 && 3 <= c.proposers <= MAX_N_OF_PROPOSERS && v in c.values && w in c.values
    ensures Ok(c, s) && Proposed(s.net, 1, 11, w)
    ensures Lookup(s.stores[1], 1) == Some(Record(1, 1, 12, 10, false, v))
    ensures Lookup(s.stores[2], 1) == Some(Promise(2, 11))
    ensures AcceptAck(Record(0, 1, 12, 11, false, w)) in s.net && AcceptAck(Record(1, 1, 12, 10, false, v)) in s.net
  {
    var s1 := TwoHalfRounds(c, v, w);
    var s2 := Opens(c, s1, 2, v);
    var s3 := PromisesTwelve(c, s2, 0, 11, w);
    s := PromisesTwelve(c, s3, 1, 10, v);
  }

  /** Below 11 the proposal of `w` excludes `v`; from 11 on only one acceptor has a vote. */
  lemma SplitIsNotChosen(c: Config, s: State, v: Value, w: Value)
    requires Inv(c, s) && c.acceptors == 3 && Proposed(s.net, 1, 11, w) && v != w
    requires Lookup(s.stores[1], 1) == Some(Record(1, 1, 12, 10, false, v))
    requires Lookup(s.stores[2], 1) == Some(Promise(2, 11))
    ensures !V.ChosenFor(3, s.net, 1, v)
  {
    forall b: nat
      ensures !Chosen(3, s.net, 1, b, v)
    {
      if b < 11 {
        if Chosen(3, s.net, 1, b, v) {
          SafeExcludesOthers(s.stores, s.net, 1, 11, w, b, v);
        }
      } else {
        var voters := Voters(3, s.net, 1, b, v);
        assert forall a :: Voted(s.net, a, 1, b, v) ==> VoteOk(s.stores, s.net, a, 1, b, v);
        assert voters <= {0};
        SubsetSize(voters, {0});
      }
    }
  }

  // ---- the learner ------------------------------------------------------------------------------------

  lemma BothSupport(passing: set<Record>, r0: Record, r1: Record)
    requires r0 in passing && r1 in passing && !r0.isFinal && !r1.isFinal
    requires r0.acceptor == 0 && r1.acceptor == 1 && r0.iid == r1.iid && r0.ballot == r1.ballot
    ensures L.Backed(passing, 3, r1)
  {
    assert L.Supports(passing, 0, r1) && L.Supports(passing, 1, r1);
    SubsetSize({0, 1}, L.Supporters(passing, 3, r1));
  }

  predicate HasValue(rec: Record) {
    rec.value != []
  }

  /** With three acceptors it is not enough to ignore acknowledgements without a value, although
      that is exactly enough with one (`Guards.ValueGuardIsExact`). */
  lemma ValueGuardFailsForThree(c: Config, v: Value, w: Value) returns (s: State)
    requires c.acceptors == 3 && 3 <= c.proposers <= MAX_N_OF_PROPOSERS && [] !in c.values
    requires v in c.values && w in c.values && v != w
    ensures Reachable(c, s) && !Sound(c, s.net, HasValue, ValueChosen(c, s.net))
  {
    s := SplitVotes(c, v, w);
    var steps :| RunOk(c, steps) && Run(c, steps) == s;
    RunKeepsInv(c, steps);
    SplitIsNotChosen(c, s, v, w);
    var r0, r1 := Record(0, 1, 12, 11, false, w), Record(1, 1, 12, 10, false, v);
    BothSupport(Passing(s.net, HasValue), r0, r1);
    SoundIff(c, s, HasValue, ValueChosen(c, s.net));
  }

  // ---- a round that is not reported complete --------------------------------------------------------

  /** Proposer 0 waits for accept acknowledgements of instance 1; the partial clear has left the
      flag of acceptor 2 marked. */
  function Unfinished(v: Value, flags: seq<int>, count: nat): P.ProposerState {
    P.ProposerState(0, 3, [], 1, [], [P.Instance(1, 10, 0, Some(v), Q.QuorumState(3, 2, count, flags), 0)])
  }

  lemma MovesToAccept(v: Value)
    requires P.Valid(Collecting(0, v, [0, 1, 1], 2))
    ensures P.Next(Collecting(0, v, [0, 1, 1], 2), P.Accept) == Unfinished(v, [0, 0, 1], 0)
    ensures P.Sends(Collecting(0, v, [0, 1, 1], 2), P.Accept) == Some(AcceptReq(1, 10, v))
  {
    assert Q.Cleared(Q.QuorumState(3, 2, 2, [0, 1, 1])).flags == [0, 0, 1];
  }

  lemma CountsOnlyFirst(v: Value)
    requires P.Valid(Unfinished(v, [0, 0, 1], 0))
    ensures var p, e := Unfinished(v, [0, 0, 1], 0), P.GotAcceptAck(Vote(1, 1, 10, v), 0);
      P.EventOk(p, e) && P.Next(p, e) == Unfinished(v, [0, 1, 1], 1) && P.Sends(p, e) == None
  {
    assert P.Find(Unfinished(v, [0, 0, 1], 0).accept, 1) == 0;
    assert [0, 0, 1][1 := 1] == [0, 1, 1];
  }

  /** Nothing that acceptors 1 and 2 can still say at this ballot is counted. */
  lemma StaysUnfinished(v: Value, rec: Record, now: int)
    requires P.Valid(Unfinished(v, [0, 1, 1], 1)) && P.EventOk(Unfinished(v, [0, 1, 1], 1), P.GotAcceptAck(rec, now))
    requires rec.iid == 1 ==> rec.ballot == 10 && rec.acceptor != 0
    ensures P.Next(Unfinished(v, [0, 1, 1], 1), P.GotAcceptAck(rec, now)) == Unfinished(v, [0, 1, 1], 1)
  {
    var p := Unfinished(v, [0, 1, 1], 1);
    if rec.iid == 1 {
      assert P.Find(p.accept, 1) == 0;
      assert p.accept[0 := p.accept[0]] == p.accept;
    }
  }

  /** Acceptors 1 and 2 answer both phases, `v` is chosen, and still the proposer keeps the instance
      in its accept queue, whatever acceptors 1 and 2 acknowledge at this ballot from then on. */
  lemma ChosenButNotClosed(c: Config, v: Value) returns (s: State)
    requires c.acceptors == 3 && 1 <= c.proposers <= MAX_N_OF_PROPOSERS && v in c.values
    ensures Reachable(c, s) && Chosen(3, s.net, 1, 10, v)
    ensures AcceptAck(Vote(1, 1, 10, v)) in s.net && AcceptAck(Vote(2, 1, 10, v)) in s.net
    ensures s.proposers[0] == Unfinished(v, [0, 1, 1], 1)
    ensures forall rec, now :: P.Valid(s.proposers[0]) && P.EventOk(s.proposers[0], P.GotAcceptAck(rec, now))
              && (rec.iid == 1 ==> rec.ballot == 10 && rec.acceptor != 0)
              ==> P.Next(s.proposers[0], P.GotAcceptAck(rec, now)) == s.proposers[0]
  {
    var s1 := BothVote(c, v);
    assert ProposerFormed(c, 0, s1.proposers[0]);
    CountsOnlyFirst(v);
    s := ProposerMoves(c, s1, 0, P.GotAcceptAck(Vote(1, 1, 10, v), 0));
    assert Voters(3, s.net, 1, 10, v) >= {1, 2};
    SubsetSize({1, 2}, Voters(3, s.net, 1, 10, v));
    forall rec, now | P.Valid(s.proposers[0]) && P.EventOk(s.proposers[0], P.GotAcceptAck(rec, now))
        && (rec.iid == 1 ==> rec.ballot == 10 && rec.acceptor != 0)
      ensures P.Next(s.proposers[0], P.GotAcceptAck(rec, now)) == s.proposers[0]
    {
      StaysUnfinished(v, rec, now);
    }
  }

  lemma BothVote(c: Config, v: Value) returns (s: State)
    requires c.acceptors == 3 && 1 <= c.proposers <= MAX_N_OF_PROPOSERS && v in c.values
    ensures Ok(c, s) && s.proposers[0] == Unfinished(v, [0, 0, 1], 0)
    ensures AcceptAck(Vote(1, 1, 10, v)) in s.net && AcceptAck(Vote(2, 1, 10, v)) in s.net
  {
    StartIsReachable(c);
    var s1 := Collects(c, Init(c), 0, v, 1);
    assert [0, 0, 0][1 := 1][2 := 1] == [0, 1, 1];
    assert ProposerFormed(c, 0, s1.proposers[0]);
    MovesToAccept(v);
    var s2 := ProposerMoves(c, s1, 0, P.Accept);
    var s3 := Serves(c, s2, 1, AcceptReq(1, 10, v), Vote(1, 1, 10, v));
    s := Serves(c, s3, 2, AcceptReq(1, 10, v), Vote(2, 1, 10, v));
  }
}
