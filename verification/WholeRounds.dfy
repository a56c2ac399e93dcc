/** Runs with any number of acceptors in which a proposer gets its value accepted by all of them. */
module WholeRounds {
  import opened PaxosTypes
  import opened Majorities
  import opened Acceptors
  import opened Protocol
  import opened World
  import opened Scenarios
  import P = Proposers
  import Q = QuorumCounter

  /** The flags when the first `j` of `n` acceptors have answered. */
  function Flags(n: nat, j: nat): seq<int> {
    seq(n, a => if a < j then 1 else 0)
  }

  /** A proposer whose instance 1 has the promises of the first `j` acceptors. */
  function Gathered(n: nat, i: nat, v: Value, j: nat): P.ProposerState {
    P.ProposerState(i, n, [v], 1,
      [P.Instance(1, MAX_N_OF_PROPOSERS + i, 0, None, Q.QuorumState(n, PaxosQuorum(n), j, Flags(n, j)), 0)], [])
  }

  lemma Opens(n: nat, i: nat, v: Value)
    requires i < MAX_N_OF_PROPOSERS && n >= 1
    ensures var p, e := P.NewProposer(i, n).(values := [v]), P.Prepare(Flags(n, 0), 0);
      && P.Valid(p) && P.EventOk(p, e) && P.Next(p, e) == Gathered(n, i, v, 0)
      && P.Sends(p, e) == Some(PrepareReq(1, MAX_N_OF_PROPOSERS + i))
  {
    assert Q.Fresh(n, Flags(n, 0)).flags == Flags(n, 0);
  }

  lemma Counts(n: nat, i: nat, v: Value, j: nat, rec: Record)
    requires P.Valid(Gathered(n, i, v, j)) && j < n
    requires rec.acceptor == j && rec.iid == 1 && rec.ballot == MAX_N_OF_PROPOSERS + i && rec.value == []
    ensures var p, e := Gathered(n, i, v, j), P.GotPrepareAck(rec, 0);
      P.EventOk(p, e) && P.Next(p, e) == Gathered(n, i, v, j + 1) && P.Sends(p, e) == None
  {
    assert P.Find(Gathered(n, i, v, j).prepare, 1) == 0;
    assert Flags(n, j)[j := 1] == Flags(n, j + 1);
  }

  lemma Accepts(n: nat, i: nat, v: Value)
    requires P.Valid(Gathered(n, i, v, n)) && n >= 1
    ensures P.Sends(Gathered(n, i, v, n), P.Accept) == Some(AcceptReq(1, MAX_N_OF_PROPOSERS + i, v))
  {
  }

  // ---- the acceptors ---------------------------------------------------------------------------

  /** Nothing is stored for instance 1, or an empty value at a ballot below `b`. */
  ghost predicate Quiet(store: Store, a: nat, b: nat) {
    1 in store ==>
      store[1].ballot < b && store[1].value == [] && store[1].acceptor == a && store[1].iid == 1 && !store[1].isFinal
  }

  /** Ballot `b` is promised for instance 1 and no value, or the empty one, is stored. */
  ghost predicate Promising(store: Store, a: nat, b: nat) {
    && 1 in store && store[1].ballot == b && store[1].value == []
    && store[1].acceptor == a && store[1].iid == 1 && !store[1].isFinal
  }

  /** Acceptors from `j` on are as before. */
  ghost predicate RestSame(s: State, s': State, j: nat) {
    |s'.stores| == |s.stores| && forall a :: j <= a < |s.stores| ==> s'.stores[a] == s.stores[a]
  }

  lemma ServesPrepare(c: Config, s: State, j: nat, b: nat) returns (s': State, rec: Record)
    requires Reachable(c, s) && Formed(c, s) && j < c.acceptors && Quiet(s.stores[j], j, b)
    requires Ask(PrepareReq(1, b)) in s.net
    ensures Reachable(c, s') && Formed(c, s') && s.net <= s'.net && s'.proposers == s.proposers
    ensures s'.stores == s.stores[j := s'.stores[j]] && Promising(s'.stores[j], j, b)
    ensures PrepareAck(rec) in s'.net && rec.acceptor == j && rec.iid == 1 && rec.ballot == b && rec.value == []
  {
    rec := AfterPrepare(j, Lookup(s.stores[j], 1), 1, b);
    ReachStep(c, s, AcceptorStep(j, PrepareReq(1, b)));
    s' := Apply(c, s, AcceptorStep(j, PrepareReq(1, b)));
  }

  lemma PromisesOne(c: Config, s: State, i: nat, v: Value, j: nat) returns (s': State)
    requires Reachable(c, s) && Formed(c, s) && i < c.proposers && j < c.acceptors
    requires s.proposers[i] == Gathered(c.acceptors, i, v, j) && Quiet(s.stores[j], j, MAX_N_OF_PROPOSERS + i)
    requires Ask(PrepareReq(1, MAX_N_OF_PROPOSERS + i)) in s.net
    ensures Reachable(c, s') && Formed(c, s') && s.net <= s'.net
    ensures OthersSame(s, s', i) && s'.proposers[i] == Gathered(c.acceptors, i, v, j + 1)
    ensures s'.stores == s.stores[j := s'.stores[j]] && Promising(s'.stores[j], j, MAX_N_OF_PROPOSERS + i)
  {
    var s1, rec := ServesPrepare(c, s, j, MAX_N_OF_PROPOSERS + i);
    assert ProposerFormed(c, i, s1.proposers[i]);
    Counts(c.acceptors, i, v, j, rec);
    s' := ProposerMoves(c, s1, i, P.GotPrepareAck(rec, 0));
  }

  /** The first `j` acceptors have promised, the others have nothing to report. */
  ghost predicate Halfway(stores: seq<Store>, j: nat, b: nat) {
    && (forall a :: 0 <= a < j && a < |stores| ==> Promising(stores[a], a, b))
    && (forall a :: j <= a < |stores| ==> Quiet(stores[a], a, b))
  }

  lemma OneFurther(stores: seq<Store>, stores': seq<Store>, j: nat, b: nat)
    requires Halfway(stores, j, b) && j < |stores| == |stores'|
    requires stores' == stores[j := stores'[j]] && Promising(stores'[j], j, b)
    ensures Halfway(stores', j + 1, b)
  {
  }

  lemma OthersSameTwice(s: State, s1: State, s': State, i: nat)
    requires OthersSame(s, s1, i) && OthersSame(s1, s', i)
    ensures OthersSame(s, s', i)
  {
  }

  lemma {:induction false} PromisesFrom(c: Config, s: State, i: nat, v: Value, j: nat) returns (s': State)
    requires Reachable(c, s) && Formed(c, s) && i < c.proposers && j <= c.acceptors
    requires s.proposers[i] == Gathered(c.acceptors, i, v, j) && Halfway(s.stores, j, MAX_N_OF_PROPOSERS + i)
    requires Ask(PrepareReq(1, MAX_N_OF_PROPOSERS + i)) in s.net
    ensures Reachable(c, s') && Formed(c, s') && s.net <= s'.net && OthersSame(s, s', i)
    ensures s'.proposers[i] == Gathered(c.acceptors, i, v, c.acceptors)
    ensures Halfway(s'.stores, c.acceptors, MAX_N_OF_PROPOSERS + i)
    decreases c.acceptors - j
  {
    if j == c.acceptors {
      s' := s;
    } else {
      var s1 := PromisesOne(c, s, i, v, j);
      OneFurther(s.stores, s1.stores, j, MAX_N_OF_PROPOSERS + i);
      s' := PromisesFrom(c, s1, i, v, j + 1);
      OthersSameTwice(s, s1, s', i);
    }
  }

  lemma VotesOne(c: Config, s: State, b: nat, v: Value, j: nat) returns (s': State)
    requires Reachable(c, s) && Formed(c, s) && j < c.acceptors && Promising(s.stores[j], j, b)
    requires Proposed(s.net, 1, b, v)
    ensures Reachable(c, s') && Formed(c, s') && s.net <= s'.net && s'.proposers == s.proposers
    ensures s'.stores == s.stores[j := s'.stores[j]] && Lookup(s'.stores[j], 1) == Some(Vote(j, 1, b, v))
    ensures Voted(s'.net, j, 1, b, v)
  {
    var req := AcceptReq(1, b, v);
    ReachStep(c, s, AcceptorStep(j, req));
    s' := Apply(c, s, AcceptorStep(j, req));
  }

  lemma {:induction false} VotesFirst(c: Config, s: State, b: nat, v: Value, j: nat) returns (s': State)
    requires Reachable(c, s) && Formed(c, s) && j <= c.acceptors && Proposed(s.net, 1, b, v)
    requires forall a :: 0 <= a < c.acceptors ==> Promising(s.stores[a], a, b)
    ensures Reachable(c, s') && Formed(c, s') && s.net <= s'.net && s'.proposers == s.proposers && RestSame(s, s', j)
    ensures forall a :: 0 <= a < j ==> Lookup(s'.stores[a], 1) == Some(Vote(a, 1, b, v)) && Voted(s'.net, a, 1, b, v)
  {
    if j == 0 {
      s' := s;
    } else {
      var s1 := VotesFirst(c, s, b, v, j - 1);
      s' := VotesOne(c, s1, b, v, j - 1);
    }
  }

  // ---- a whole round ------------------------------------------------------------------------------

  lemma Prepares(c: Config, s: State, i: nat, v: Value) returns (s': State)
    requires Reachable(c, s) && Formed(c, s) && i < c.proposers && v in c.values
    requires s.proposers[i] == P.NewProposer(i, c.acceptors)
    ensures Reachable(c, s') && Formed(c, s') && s.net <= s'.net && s'.stores == s.stores
    ensures s'.proposers == s.proposers[i := Gathered(c.acceptors, i, v, 0)]
    ensures Ask(PrepareReq(1, MAX_N_OF_PROPOSERS + i)) in s'.net
  {
    var s1 := ProposerMoves(c, s, i, P.Propose(v));
    Opens(c.acceptors, i, v);
    assert s1.proposers[i] == P.NewProposer(i, c.acceptors).(values := [v]);
    s' := ProposerMoves(c, s1, i, P.Prepare(Flags(c.acceptors, 0), 0));
  }

  lemma Proposes(c: Config, s: State, i: nat, v: Value) returns (s': State)
    requires Reachable(c, s) && Formed(c, s) && i < c.proposers
    requires s.proposers[i] == Gathered(c.acceptors, i, v, c.acceptors)
    ensures Reachable(c, s') && Formed(c, s') && s.net <= s'.net && s'.stores == s.stores && OthersSame(s, s', i)
    ensures Proposed(s'.net, 1, MAX_N_OF_PROPOSERS + i, v)
  {
    assert ProposerFormed(c, i, s.proposers[i]);
    Accepts(c.acceptors, i, v);
    s' := ProposerMoves(c, s, i, P.Accept);
  }

  /** If nobody has a value to report, a new proposer gets its own accepted by everybody. */
  lemma AllAccept(c: Config, s: State, i: nat, v: Value) returns (s': State)
    requires Reachable(c, s) && Formed(c, s) && i < c.proposers && v in c.values
    requires s.proposers[i] == P.NewProposer(i, c.acceptors)
    requires Halfway(s.stores, 0, MAX_N_OF_PROPOSERS + i)
    ensures Reachable(c, s') && Formed(c, s') && s.net <= s'.net && OthersSame(s, s', i)
    ensures forall a :: 0 <= a < c.acceptors ==> Lookup(s'.stores[a], 1) == Some(Vote(a, 1, MAX_N_OF_PROPOSERS + i, v))
    ensures Chosen(c.acceptors, s'.net, 1, MAX_N_OF_PROPOSERS + i, v)
  {
    var n, b := c.acceptors, MAX_N_OF_PROPOSERS + i;
    var s1 := Prepares(c, s, i, v);
    var s2 := PromisesFrom(c, s1, i, v, 0);
    var s3 := Proposes(c, s2, i, v);
    s' := VotesFirst(c, s3, b, v, n);
    AllVotesChoose(n, s'.net, 1, b, v);
  }

  lemma AllVotesChoose(n: nat, net: set<Msg>, iid: nat, b: nat, v: Value)
    requires n >= 1 && forall a :: 0 <= a < n ==> Voted(net, a, iid, b, v)
    ensures Chosen(n, net, iid, b, v)
  {
    IdsSize(n);
    assert Ids(n) <= Voters(n, net, iid, b, v);
    SubsetSize(Ids(n), Voters(n, net, iid, b, v));
  }
}
