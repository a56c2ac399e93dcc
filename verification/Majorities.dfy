/** Majorities of acceptor ids 0..n-1 (paxos/paxos.c, `paxos_quorum`). */
module Majorities {

  function PaxosQuorum(acceptors: nat): nat {
    acceptors / 2 + 1
  }

  ghost function Ids(n: nat): (ids: set<nat>)
    ensures forall a: nat :: a in ids <==> a < n
  {
    if n == 0 then {} else Ids(n - 1) + {n - 1}
  }

  lemma {:induction false} IdsSize(n: nat)
    ensures |Ids(n)| == n
  {
    if n == 0 {
      assert Ids(0) == {};
    } else {
      IdsSize(n - 1);
      assert Ids(n) == Ids(n - 1) + {n - 1};
    }
  }

  lemma {:induction false} SubsetSize<T>(a: set<T>, b: set<T>)
    requires a <= b
    ensures |a| <= |b|
  {
    if a != {} {
      var x :| x in a;
      SubsetSize(a - {x}, b - {x});
    }
  }

  /** Any two sets of at least `paxos_quorum(n)` acceptors share an acceptor. */
  lemma MajoritiesMeet(n: nat, a: set<nat>, b: set<nat>) returns (x: nat)
    requires a <= Ids(n) && b <= Ids(n)
    requires |a| >= PaxosQuorum(n) && |b| >= PaxosQuorum(n)
    ensures x in a && x in b
  {
    if a * b == {} {
      assert |a + b| == |a| + |b|;
      SubsetSize(a + b, Ids(n));
      IdsSize(n);
      assert false;
    }
    x :| x in a * b;
  }

  /** Dropping one acceptor from the threshold breaks the guarantee: with an even
      number of acceptors two disjoint halves exist. */
  lemma {:induction false} HalvesNeedNotMeet(k: nat)
    ensures exists a: set<nat>, b: set<nat> ::
              a <= Ids(2 * k) && b <= Ids(2 * k) && |a| >= k && |b| >= k && a * b == {}
  {
    var a := Ids(k);
    var b := Ids(2 * k) - Ids(k);
    IdsSize(k);
    IdsSize(2 * k);
    assert Ids(k) <= Ids(2 * k);
    assert a + b == Ids(2 * k);
    assert |a + b| == |a| + |b|;
  }

  /** Any two sets of at least `t` of the `n` acceptors share an acceptor. */
  ghost predicate Overlapping(n: nat, t: nat) {
    forall a: set<nat>, b: set<nat> :: a <= Ids(n) && b <= Ids(n) && |a| >= t && |b| >= t ==> a * b != {}
  }

  lemma {:induction false} Disjoint(t: nat) returns (a: set<nat>, b: set<nat>)
    ensures |a| == t && |b| == t && a * b == {} && a + b <= Ids(2 * t)
  {
    if t == 0 {
      a, b := {}, {};
    } else {
      a, b := Disjoint(t - 1);
      assert 2 * t - 2 !in a + b && 2 * t - 1 !in a + b;
      a, b := a + {2 * t - 2}, b + {2 * t - 1};
    }
  }

  /** `paxos_quorum` is the least threshold at which any two quorums overlap. */
  lemma QuorumIsLeast(n: nat, t: nat)
    ensures Overlapping(n, t) <==> t >= PaxosQuorum(n)
  {
    if t >= PaxosQuorum(n) {
      forall a: set<nat>, b: set<nat> | a <= Ids(n) && b <= Ids(n) && |a| >= t && |b| >= t
        ensures a * b != {}
      {
        var x := MajoritiesMeet(n, a, b);
        assert x in a * b;
      }
    } else {
      var a, b := Disjoint(t);
      assert forall x :: x in Ids(2 * t) ==> x in Ids(n);
      assert a <= Ids(n) && b <= Ids(n);
    }
  }
}
