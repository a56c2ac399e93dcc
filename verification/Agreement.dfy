/** The theorems about every run of the protocol. */
module Agreement {
  import opened PaxosTypes
  import opened Majorities
  import opened Acceptors
  import opened Protocol
  import opened World
  import opened Proposing
  import P = Proposers

  // ---- the inductive invariant ---------------------------------------------------------

  ghost predicate Inv(c: Config, s: State) {
    && Formed(c, s) && WorldOk(s.stores, s.net)
    && (forall i :: 0 <= i < c.proposers ==> ProposerOk(s.stores, s.net, s.proposers[i]))
  }

  lemma InitInv(c: Config)
    requires ConfigOk(c)
    ensures Inv(c, Init(c))
  {
  }

  lemma ChosenStays(n: nat, net: set<Msg>, net': set<Msg>, iid: nat, b: nat, v: Value)
    requires net <= net' && Chosen(n, net, iid, b, v)
    ensures Chosen(n, net', iid, b, v)
  {
    SubsetSize(Voters(n, net, iid, b, v), Voters(n, net', iid, b, v));
  }

  lemma ProposerStepKeepsInv(c: Config, s: State, i: nat, e: P.Event)
    requires Inv(c, s) && Enabled(c, s, ProposerStep(i, e)) && [] !in c.values
    ensures Inv(c, Apply(c, s, ProposerStep(i, e)))
  {
    var s' := Apply(c, s, ProposerStep(i, e));
    var p := s.proposers[i];
    assert ProposerFormed(c, i, p);
    ApplyKeepsFormed(c, s, ProposerStep(i, e));
    ProposerStepKeepsOk(c, s.stores, s.net, p, e);
    forall j | 0 <= j < c.proposers
      ensures ProposerOk(s'.stores, s'.net, s'.proposers[j])
    {
      if j != i {
        assert ProposerFormed(c, j, s.proposers[j]);
        OthersStayOk(s.stores, s.net, s'.stores, s'.net, s.proposers[j]);
      }
    }
  }

  lemma AcceptorStepKeepsInv(c: Config, s: State, a: nat, req: Request)
    requires Inv(c, s) && Enabled(c, s, AcceptorStep(a, req))
    ensures Inv(c, Apply(c, s, AcceptorStep(a, req)))
  {
    var s' := Apply(c, s, AcceptorStep(a, req));
    AcceptorStepKeepsWorld(s.stores, s.net, a, req);
    forall j | 0 <= j < c.proposers
      ensures ProposerOk(s'.stores, s'.net, s'.proposers[j])
    {
      OthersStayOk(s.stores, s.net, s'.stores, s'.net, s.proposers[j]);
    }
  }

  /** Every reachable state satisfies the invariant, if clients submit no empty value. */
  lemma {:induction false} RunKeepsInv(c: Config, steps: seq<Step>)
    requires ConfigOk(c) && RunOk(c, steps) && [] !in c.values
    ensures Inv(c, Run(c, steps))
  {
    if steps == [] {
      InitInv(c);
    } else {
      var init, last := steps[..|steps| - 1], steps[|steps| - 1];
      RunKeepsInv(c, init);
      match last
      case ProposerStep(i, e) => ProposerStepKeepsInv(c, Run(c, init), i, e);
      case AcceptorStep(a, req) => AcceptorStepKeepsInv(c, Run(c, init), a, req);
    }
  }

  // ---- theorems -------------------------------------------------------------------------

  /** At most one value is ever accepted by a majority at a common ballot, per instance. */
  lemma AtMostOneChosen(c: Config, steps: seq<Step>, iid: nat, b0: nat, v0: Value, b1: nat, v1: Value)
    requires ConfigOk(c) && RunOk(c, steps) && [] !in c.values
    requires Chosen(c.acceptors, Run(c, steps).net, iid, b0, v0)
    requires Chosen(c.acceptors, Run(c, steps).net, iid, b1, v1)
    ensures v0 == v1
  {
    RunKeepsInv(c, steps);
    WorldAgrees(Run(c, steps).stores, Run(c, steps).net, iid, b0, v0, b1, v1);
  }

  lemma {:induction false} NetGrows(c: Config, steps: seq<Step>, k: nat)
    requires ConfigOk(c) && RunOk(c, steps) && k <= |steps|
    ensures RunOk(c, steps[..k]) && Run(c, steps[..k]).net <= Run(c, steps).net
  {
    if k == |steps| {
      assert steps[..k] == steps;
    } else {
      var init := steps[..|steps| - 1];
      NetGrows(c, init, k);
      assert init[..k] == steps[..k];
    }
  }

  /** Once an accept request for `v` at ballot `b` is out, no other value is chosen below `b`
      then or at any later point of the run, wherever the proposer took `v` from. */
  lemma ProposalsAreSafeForever(c: Config, steps: seq<Step>, k: nat, iid: nat, b: nat, v: Value, b': nat, w: Value)
    requires ConfigOk(c) && RunOk(c, steps) && [] !in c.values
    requires k <= |steps| && RunOk(c, steps[..k]) && Proposed(Run(c, steps[..k]).net, iid, b, v)
    requires b' < b && Chosen(c.acceptors, Run(c, steps).net, iid, b', w)
    ensures w == v
  {
    RunKeepsInv(c, steps);
    NetGrows(c, steps, k);
    var s := Run(c, steps);
    assert Proposed(s.net, iid, b, v);
    SafeExcludesOthers(s.stores, s.net, iid, b, v, b', w);
  }

  /** All accept requests of a run for one instance and ballot carry the same value,
      re-proposals after a preemption and timeout resends included. */
  lemma OneValuePerBallot(c: Config, steps: seq<Step>, iid: nat, b: nat, v: Value, w: Value)
    requires ConfigOk(c) && RunOk(c, steps) && [] !in c.values
    requires Proposed(Run(c, steps).net, iid, b, v) && Proposed(Run(c, steps).net, iid, b, w)
    ensures v == w
  {
    RunKeepsInv(c, steps);
  }

  // ---- the acceptors of a run, over the fixed table ---------------------------------------

  /** The requests that acceptor `a` served in a run, in order. */
  ghost function ServedBy(steps: seq<Step>, a: nat): seq<Request> {
    if steps == [] then []
    else
      var last := steps[|steps| - 1];
      ServedBy(steps[..|steps| - 1], a) + (if last.AcceptorStep? && last.a == a then [last.req] else [])
  }

  lemma {:induction false} StoreIsServed(c: Config, steps: seq<Step>, a: nat)
    requires ConfigOk(c) && RunOk(c, steps) && a < c.acceptors
    ensures Run(c, steps).stores[a] == ServeAll(a, map[], ServedBy(steps, a))
  {
    if steps != [] {
      var init, last := steps[..|steps| - 1], steps[|steps| - 1];
      StoreIsServed(c, init, a);
      if last.AcceptorStep? && last.a == a {
        var reqs := ServedBy(steps, a);
        assert reqs[..|reqs| - 1] == ServedBy(init, a) && reqs[|reqs| - 1] == last.req;
      } else {
        assert ServedBy(steps, a) == ServedBy(init, a);
      }
    }
  }

  /** An acceptor that keeps its records in the fixed table behaves, up to the request at which
      it exits, as the acceptor of the protocol: at every point of every run where it is still
      alive its table represents the protocol's store and it has given the same replies. */
  lemma TableAcceptorTakesPart(c: Config, steps: seq<Step>, a: nat, table: seq<Record>)
    requires ConfigOk(c) && RunOk(c, steps) && a < c.acceptors && Opened(table)
    requires forall k :: 0 <= k < |ServedBy(steps, a)| ==> ServedBy(steps, a)[k].iid >= 1
    ensures var (t, replies) := TableRun(a, table, ServedBy(steps, a));
      && AnswersAsMap(a, ServedBy(steps, a), replies)
      && (|replies| == |ServedBy(steps, a)| ==> Represents(t, Run(c, steps).stores[a]))
  {
    StoreIsServed(c, steps, a);
    TableRefinesMap(a, table, ServedBy(steps, a));
  }
}
