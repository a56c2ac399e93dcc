/** The acknowledgement counter of paxos/quorum.c. */
module QuorumCounter {
  import opened Majorities

  /** `flags` is the `acceptor_ids` array. It comes from `malloc`, so its first
      content is arbitrary; `quorum_clear` zeroes only its first `quorum` entries. */
  datatype QuorumState = QuorumState(acceptors: nat, quorum: nat, count: nat, flags: seq<int>)

  ghost predicate Shaped(q: QuorumState, n: nat) {
    n >= 1 && q.acceptors == n && q.quorum == PaxosQuorum(n) && |q.flags| == n
  }

  function Cleared(q: QuorumState): QuorumState {
    q.(count := 0, flags := seq(|q.flags|, i requires 0 <= i < |q.flags| => if i < q.quorum then 0 else q.flags[i]))
  }

  function Fresh(n: nat, garbage: seq<int>): QuorumState
    requires |garbage| == n
  {
    Cleared(QuorumState(n, PaxosQuorum(n), 0, garbage))
  }

  predicate CanAdd(q: QuorumState, id: nat)
    requires id < |q.flags|
  {
    q.flags[id] == 0
  }

  function Added(q: QuorumState, id: nat): QuorumState
    requires id < |q.flags|
  {
    if CanAdd(q, id) then q.(count := q.count + 1, flags := q.flags[id := 1]) else q
  }

  predicate Reached(q: QuorumState) {
    q.count >= q.quorum
  }

  // ---- histories of clear and add -------------------------------------------

  datatype Op = Clear | Add(id: nat)

  ghost predicate OpsOk(ops: seq<Op>, n: nat) {
    forall k :: 0 <= k < |ops| && ops[k].Add? ==> ops[k].id < n
  }

  ghost function Replay(q: QuorumState, ops: seq<Op>): QuorumState
    requires OpsOk(ops, |q.flags|)
    ensures Shaped(q, |q.flags|) ==> Shaped(Replay(q, ops), |q.flags|)
    ensures |Replay(q, ops).flags| == |q.flags|
  {
    if ops == [] then q
    else
      var before := Replay(q, ops[..|ops| - 1]);
      match ops[|ops| - 1]
      case Clear => Cleared(before)
      case Add(id) => Added(before, id)
  }

  /** The acceptors acknowledged since the last clear. */
  ghost function SinceClear(ops: seq<Op>): set<nat> {
    if ops == [] then {}
    else match ops[|ops| - 1]
      case Clear => {}
      case Add(id) => SinceClear(ops[..|ops| - 1]) + {id}
  }

  /** The acceptors acknowledged before the last clear. */
  ghost function BeforeClear(ops: seq<Op>): set<nat> {
    if ops == [] then {}
    else match ops[|ops| - 1]
      case Clear => BeforeClear(ops[..|ops| - 1]) + SinceClear(ops[..|ops| - 1])
      case Add(id) => BeforeClear(ops[..|ops| - 1])
  }

  /** The acceptors that the partial clear leaves marked: those with an id of at least
      `quorum` whose flag was garbage, or who acknowledged in some earlier round. */
  ghost function Stale(n: nat, garbage: seq<int>, ops: seq<Op>): set<nat>
    requires |garbage| == n
  {
    set a: nat | PaxosQuorum(n) <= a < n && (garbage[a] != 0 || a in BeforeClear(ops))
  }

  ghost predicate Exact(n: nat, garbage: seq<int>, ops: seq<Op>, q: QuorumState)
    requires |garbage| == n == |q.flags|
  {
    && q.count == |SinceClear(ops) - Stale(n, garbage, ops)|
    && forall a: nat :: a < n ==>
         (q.flags[a] != 0 <==> a in SinceClear(ops) || a in Stale(n, garbage, ops))
  }

  lemma ClearIsExact(n: nat, garbage: seq<int>, ops: seq<Op>, q: QuorumState)
    requires |garbage| == n && Shaped(q, n) && Exact(n, garbage, ops, q)
    ensures Exact(n, garbage, ops + [Clear], Cleared(q))
  {
    var more := ops + [Clear];
    assert more[..|more| - 1] == ops;
    assert SinceClear(more) - Stale(n, garbage, more) == {};
  }

  lemma AddIsExact(n: nat, garbage: seq<int>, ops: seq<Op>, q: QuorumState, id: nat)
    requires |garbage| == n && Shaped(q, n) && Exact(n, garbage, ops, q) && id < n
    ensures Exact(n, garbage, ops + [Add(id)], Added(q, id))
  {
    var more := ops + [Add(id)];
    assert more[..|more| - 1] == ops;
    assert SinceClear(more) == SinceClear(ops) + {id};
    assert Stale(n, garbage, more) == Stale(n, garbage, ops);
    OneMore(SinceClear(ops), Stale(n, garbage, ops), id);
  }

  lemma OneMore(since: set<nat>, stale: set<nat>, id: nat)
    ensures |since + {id} - stale| == |since - stale| + (if id in since || id in stale then 0 else 1)
  {
    if id in since || id in stale {
      assert since + {id} - stale == since - stale;
    } else {
      assert since + {id} - stale == (since - stale) + {id};
    }
  }

  /** The exact meaning of the counter, for every history from arbitrary memory: it is the
      number of distinct acceptors acknowledged since the last clear that are not stale. */
  lemma {:induction false} CounterIsExact(n: nat, garbage: seq<int>, ops: seq<Op>)
    requires n >= 1 && |garbage| == n && OpsOk(ops, n)
    ensures Exact(n, garbage, ops, Replay(Fresh(n, garbage), ops))
  {
    if ops == [] {
      assert SinceClear(ops) - Stale(n, garbage, ops) == {};
    } else {
      var init, last := ops[..|ops| - 1], ops[|ops| - 1];
      CounterIsExact(n, garbage, init);
      assert ops == init + [last];
      match last
      case Clear => ClearIsExact(n, garbage, init, Replay(Fresh(n, garbage), init));
      case Add(id) => AddIsExact(n, garbage, init, Replay(Fresh(n, garbage), init), id);
    }
  }

  lemma {:induction false} SinceClearBounded(n: nat, ops: seq<Op>)
    requires OpsOk(ops, n)
    ensures SinceClear(ops) <= Ids(n)
  {
    if ops != [] {
      SinceClearBounded(n, ops[..|ops| - 1]);
    }
  }

  /** Soundness: "reached" means a majority of distinct acceptors answered since the last
      clear, whatever the memory held. */
  lemma ReachedIsSound(n: nat, garbage: seq<int>, ops: seq<Op>)
    requires n >= 1 && |garbage| == n && OpsOk(ops, n)
    requires Reached(Replay(Fresh(n, garbage), ops))
    ensures SinceClear(ops) <= Ids(n) && |SinceClear(ops)| >= PaxosQuorum(n)
  {
    CounterIsExact(n, garbage, ops);
    SinceClearBounded(n, ops);
    SubsetSize(SinceClear(ops) - Stale(n, garbage, ops), SinceClear(ops));
  }

  /** Two rounds that were both reported complete share an acceptor. */
  lemma ReachedRoundsMeet(n: nat, g0: seq<int>, ops0: seq<Op>, g1: seq<int>, ops1: seq<Op>)
    requires n >= 1 && |g0| == n == |g1| && OpsOk(ops0, n) && OpsOk(ops1, n)
    requires Reached(Replay(Fresh(n, g0), ops0)) && Reached(Replay(Fresh(n, g1), ops1))
    ensures SinceClear(ops0) * SinceClear(ops1) != {}
  {
    ReachedIsSound(n, g0, ops0);
    ReachedIsSound(n, g1, ops1);
    var x := MajoritiesMeet(n, SinceClear(ops0), SinceClear(ops1));
    assert x in SinceClear(ops0) * SinceClear(ops1);
  }

  /** Completeness is false in general. A history counts every acknowledging acceptor
      if and only if none of them is stale. */
  lemma CountsEveryoneIff(n: nat, garbage: seq<int>, ops: seq<Op>)
    requires n >= 1 && |garbage| == n && OpsOk(ops, n)
    ensures Replay(Fresh(n, garbage), ops).count == |SinceClear(ops)|
            <==> SinceClear(ops) * Stale(n, garbage, ops) == {}
  {
    CounterIsExact(n, garbage, ops);
    var all, stale := SinceClear(ops), Stale(n, garbage, ops);
    assert all == (all - stale) + (all * stale);
    assert |all| == |all - stale| + |all * stale|;
  }

  /** Acceptors 1 and 2 answer in two rounds. */
  function TwoRounds(): seq<Op> {
    [Add(1), Add(2), Clear, Add(1), Add(2)]
  }

  lemma TwoRoundsSince()
    ensures SinceClear(TwoRounds()) == {1, 2} && BeforeClear(TwoRounds()) == {1, 2}
  {
    var ops := TwoRounds();
    assert ops[..4] == [Add(1), Add(2), Clear, Add(1)];
    assert ops[..4][..3] == [Add(1), Add(2), Clear];
    assert ops[..4][..3][..2] == [Add(1), Add(2)];
    assert ops[..4][..3][..2][..1] == [Add(1)];
    assert SinceClear(ops[..4][..3][..2][..1]) == {1};
    assert SinceClear(ops[..4][..3][..2]) == {1, 2};
    assert SinceClear(ops[..4]) == {1};
    assert BeforeClear(ops[..4][..3][..2]) == BeforeClear(ops[..4][..3][..2][..1]) == {};
    assert BeforeClear(ops[..4][..3]) == {1, 2};
  }

  /** A failing input: three acceptors, clean memory, and two rounds. In the second round
      acceptors 1 and 2 answer, a majority, and the round is not reported complete. */
  lemma SecondRoundStalls()
    ensures var ops := TwoRounds();
      && OpsOk(ops, 3)
      && |SinceClear(ops)| == PaxosQuorum(3)
      && !Reached(Replay(Fresh(3, [0, 0, 0]), ops))
  {
    var ops := TwoRounds();
    TwoRoundsSince();
    CounterIsExact(3, [0, 0, 0], ops);
    assert Stale(3, [0, 0, 0], ops) == {2};
    assert SinceClear(ops) - Stale(3, [0, 0, 0], ops) == {1};
  }

  // ---- the object -----------------------------------------------------------

  class Quorum {
    var acceptors: nat
    var quorum: nat
    var count: nat
    var acceptorIds: array<int>

    ghost predicate Valid()
      reads this, acceptorIds
    {
      Shaped(State(), acceptors)
    }

    ghost function State(): QuorumState
      reads this, acceptorIds
    {
      QuorumState(acceptors, quorum, count, acceptorIds[..])
    }

    constructor (n: nat)
      requires n >= 1
      ensures Valid() && fresh(acceptorIds)
      ensures exists garbage: seq<int> :: |garbage| == n && State() == Fresh(n, garbage)
    {
      acceptors := n;
      quorum := PaxosQuorum(n);
      count := 0;
      acceptorIds := new int[n];
      new;
      ghost var garbage := acceptorIds[..];
      Clear();
      assert State() == Fresh(n, garbage);
    }

    method Clear()
      requires Valid()
      modifies this`count, acceptorIds
      ensures Valid() && State() == Cleared(old(State()))
    {
      count := 0;
      var i := 0;
      while i < quorum
        invariant 0 <= i <= quorum <= acceptorIds.Length && count == 0
        invariant forall k :: 0 <= k < i ==> acceptorIds[k] == 0
        invariant forall k :: i <= k < acceptorIds.Length ==> acceptorIds[k] == old(acceptorIds[k])
      {
        acceptorIds[i] := 0;
        i := i + 1;
      }
      ghost var was := old(State());
      assert acceptorIds[..] == Cleared(was).flags;
    }

    /** False means "already counted, or left marked by an earlier round". */
    method Add(id: nat) returns (isNew: bool)
      requires Valid() && id < acceptors
      modifies this`count, acceptorIds
      ensures Valid() && State() == Added(old(State()), id)
      ensures isNew == CanAdd(old(State()), id)
    {
      if acceptorIds[id] == 0 {
        count := count + 1;
        acceptorIds[id] := 1;
        return true;
      }
      return false;
    }

    method IsReached() returns (r: bool)
      requires Valid()
      ensures r == Reached(State())
    {
      r := count >= quorum;
    }
  }
}
