/** Where values come from, and exactly when agreement holds. */
module Validity {
  import opened PaxosTypes
  import opened Acceptors
  import opened Protocol
  import opened World
  import opened Agreement
  import opened Scenarios
  import opened LoneProposer
  import opened WholeRounds
  import P = Proposers

  // ---- every value was submitted ------------------------------------------------------

  ghost function Submitted(s: State): set<Value> {
    set i: nat, v: Value | i < |s.submitted| && v in s.submitted[i] :: v
  }

  ghost predicate InstancesFrom(known: set<Value>, q: seq<P.Instance>) {
    forall k :: 0 <= k < |q| && q[k].value.Some? ==> q[k].value.value in known
  }

  ghost predicate ProposerFrom(known: set<Value>, p: P.ProposerState) {
    && (forall k :: 0 <= k < |p.values| ==> p.values[k] in known)
    && InstancesFrom(known, p.prepare) && InstancesFrom(known, p.accept)
  }

  ghost predicate RecordFrom(known: set<Value>, rec: Record) {
    rec.value == [] || rec.value in known
  }

  ghost predicate StoresFrom(known: set<Value>, stores: seq<Store>) {
    forall a: nat, iid :: a < |stores| && iid in stores[a] ==> RecordFrom(known, stores[a][iid])
  }

  ghost predicate NetFrom(known: set<Value>, net: set<Msg>) {
    && (forall iid: nat, b: nat, v :: Proposed(net, iid, b, v) ==> v in known)
    && (forall rec :: PrepareAck(rec) in net || AcceptAck(rec) in net ==> RecordFrom(known, rec))
  }

  ghost predicate Sourced(known: set<Value>, c: Config, s: State) {
    && Formed(c, s) && StoresFrom(known, s.stores) && NetFrom(known, s.net)
    && (forall i :: 0 <= i < c.proposers ==> ProposerFrom(known, s.proposers[i]))
    && Submitted(s) <= known && known <= c.values
  }

  lemma AcceptAckSource(known: set<Value>, p: P.ProposerState, rec: Record, now: int)
    requires P.Valid(p) && ProposerFrom(known, p) && rec.acceptor < p.acceptors
    ensures ProposerFrom(known, P.ReceiveAcceptAck(p, rec, now))
  {
    var k := P.Find(p.accept, rec.iid);
    if k < |p.accept| {
      P.WithoutIsRemoval(p.accept, k);
    }
  }

  lemma ProposerSource(known: set<Value>, net: set<Msg>, p: P.ProposerState, e: P.Event)
    requires P.Valid(p) && P.EventOk(p, e) && ProposerFrom(known, p) && NetFrom(known, net)
    requires e.GotPrepareAck? ==> PrepareAck(e.rec) in net
    requires P.Submits(e) <= multiset(known)
    ensures ProposerFrom(known, P.Next(p, e))
    ensures NetFrom(known, net + Outgoing(P.Sends(p, e)))
  {
    var net' := net + Outgoing(P.Sends(p, e));
    if e.GotAcceptAck? {
      AcceptAckSource(known, p, e.rec, e.now);
    } else if e.Propose? {
      assert e.value in P.Submits(e);
    } else if e.GotPrepareAck? {
      assert RecordFrom(known, e.rec);
    }
    assert forall iid: nat, b: nat, v :: Proposed(net', iid, b, v) ==>
        Proposed(net, iid, b, v) || Some(AcceptReq(iid, b, v)) == P.Sends(p, e);
  }

  lemma AcceptorSource(known: set<Value>, stores: seq<Store>, net: set<Msg>, a: nat, req: Request)
    requires a < |stores| && StoresFrom(known, stores) && NetFrom(known, net)
    requires req.RepeatReq? || Ask(req) in net
    ensures var (store, reply) := Serve(a, stores[a], req);
      StoresFrom(known, stores[a := store]) && NetFrom(known, net + Answers(req, reply))
  {
    var (store, reply) := Serve(a, stores[a], req);
    if req.AcceptReq? {
      assert Proposed(net, req.iid, req.ballot, req.value);
    }
    assert reply.Some? ==> RecordFrom(known, reply.value);
    var stores', net' := stores[a := store], net + Answers(req, reply);
    assert forall iid: nat, b: nat, v :: Proposed(net', iid, b, v) ==> Proposed(net, iid, b, v);
    forall e: nat, iid | e < |stores'| && iid in stores'[e]
      ensures RecordFrom(known, stores'[e][iid])
    {
      if e != a || iid != req.iid {
        assert RecordFrom(known, stores[e][iid]);
      }
    }
  }

  /** A larger set of known values is as good. */
  lemma SourcedMonotone(known: set<Value>, known': set<Value>, c: Config, s: State)
    requires Sourced(known, c, s) && known <= known' <= c.values
    ensures Sourced(known', c, s)
  {
    forall i | 0 <= i < c.proposers
      ensures ProposerFrom(known', s.proposers[i])
    {
      assert ProposerFrom(known, s.proposers[i]);
    }
  }

  lemma SubmittedGrows(c: Config, s: State, i: nat, e: P.Event)
    requires Formed(c, s) && Enabled(c, s, ProposerStep(i, e))
    ensures var s' := Apply(c, s, ProposerStep(i, e));
      Submitted(s') == Submitted(s) + (if e.Propose? then {e.value} else {})
  {
    var s' := Apply(c, s, ProposerStep(i, e));
    assert forall j: nat, v :: j < |s.submitted| && v in s.submitted[j] ==> v in s'.submitted[j];
    assert e.Propose? ==> e.value in s'.submitted[i];
    forall v | v in Submitted(s')
      ensures v in Submitted(s) || (e.Propose? && v == e.value)
    {
      var j: nat :| j < |s'.submitted| && v in s'.submitted[j];
      if v !in s.submitted[j] {
        assert v in P.Submits(e);
      }
    }
  }

  lemma StepSource(c: Config, s: State, step: Step)
    requires Sourced(Submitted(s), c, s) && Enabled(c, s, step)
    ensures var s' := Apply(c, s, step); Sourced(Submitted(s'), c, s')
  {
    var s' := Apply(c, s, step);
    ApplyKeepsFormed(c, s, step);
    match step
    case AcceptorStep(a, req) =>
      AcceptorSource(Submitted(s), s.stores, s.net, a, req);
      assert Submitted(s') == Submitted(s);
    case ProposerStep(i, e) =>
      SubmittedGrows(c, s, i, e);
      SourcedMonotone(Submitted(s), Submitted(s'), c, s);
      assert ProposerFormed(c, i, s.proposers[i]) && ProposerFrom(Submitted(s'), s.proposers[i]);
      ProposerSource(Submitted(s'), s.net, s.proposers[i], e);
      forall j | 0 <= j < c.proposers
        ensures ProposerFrom(Submitted(s'), s'.proposers[j])
      {
        assert ProposerFrom(Submitted(s'), s.proposers[j]);
      }
  }

  lemma {:induction false} RunIsSourced(c: Config, steps: seq<Step>)
    requires ConfigOk(c) && RunOk(c, steps)
    ensures var s := Run(c, steps); Sourced(Submitted(s), c, s)
  {
    if steps == [] {
      assert Submitted(Init(c)) == {};
    } else {
      RunIsSourced(c, steps[..|steps| - 1]);
      StepSource(c, Run(c, steps[..|steps| - 1]), steps[|steps| - 1]);
    }
  }

  /** Only a submitted value can be chosen; the empty value is the one possible exception,
      and only if a client may submit it. */
  lemma ChosenWasSubmitted(c: Config, steps: seq<Step>, iid: nat, b: nat, v: Value)
    requires ConfigOk(c) && RunOk(c, steps) && Chosen(c.acceptors, Run(c, steps).net, iid, b, v)
    ensures v in Submitted(Run(c, steps)) || v == []
    ensures [] !in c.values ==> v in Submitted(Run(c, steps))
  {
    var s := Run(c, steps);
    RunIsSourced(c, steps);
    var voters := Voters(c.acceptors, s.net, iid, b, v);
    assert |voters| >= 1;
    var a :| a in voters;
    assert AcceptAck(Vote(a, iid, b, v)) in s.net;
    assert RecordFrom(Submitted(s), Vote(a, iid, b, v));
    if [] !in c.values {
      RunKeepsInv(c, steps);
      ChosenWasProposed(s.stores, s.net, iid, b, v);
    }
  }

  // ---- exactly when agreement holds ------------------------------------------------------

  ghost predicate AgreesIn(c: Config, s: State) {
    forall iid: nat, b: nat, v, b': nat, v' ::
      Chosen(c.acceptors, s.net, iid, b, v) && Chosen(c.acceptors, s.net, iid, b', v') ==> v == v'
  }

  /** Agreement in every reachable state of the system. */
  ghost predicate AlwaysAgrees(c: Config) {
    forall s: State :: Reachable(c, s) ==> AgreesIn(c, s)
  }

  /** A failing run, for any number of acceptors and from two proposers on: an empty and a
      non-empty value, both chosen for instance 1. */
  lemma EmptyValueBreaksAgreement(c: Config, x: Value) returns (s: State)
    requires ConfigOk(c) && c.proposers >= 2 && [] in c.values && x in c.values && x != []
    ensures Reachable(c, s) && Chosen(c.acceptors, s.net, 1, 10, []) && Chosen(c.acceptors, s.net, 1, 11, x)
  {
    var s1 := EmptyIsChosen(c);
    s := AllAccept(c, s1, 1, x);
    ChosenStays(c.acceptors, s1.net, s.net, 1, 10, []);
  }

  /** Everybody has accepted the empty value, and has nothing to report to the next proposer. */
  lemma EmptyIsChosen(c: Config) returns (s: State)
    requires ConfigOk(c) && c.proposers >= 2 && [] in c.values
    ensures Reachable(c, s) && Formed(c, s) && Chosen(c.acceptors, s.net, 1, 10, [])
    ensures s.proposers[1] == P.NewProposer(1, c.acceptors)
    ensures Halfway(s.stores, 0, 11)
  {
    StartIsReachable(c);
    s := AllAccept(c, Init(c), 0, []);
  }

  lemma EmptyOnlyAgrees(c: Config, s: State)
    requires c.values <= {[]} && Reachable(c, s)
    ensures AgreesIn(c, s)
  {
    var steps :| RunOk(c, steps) && Run(c, steps) == s;
    RunIsSourced(c, steps);
    forall iid: nat, b: nat, v | Chosen(c.acceptors, s.net, iid, b, v)
      ensures v == []
    {
      ChosenWasSubmitted(c, steps, iid, b, v);
    }
  }

  lemma NonEmptyAgrees(c: Config, s: State)
    requires [] !in c.values && Reachable(c, s)
    ensures AgreesIn(c, s)
  {
    var steps :| RunOk(c, steps) && Run(c, steps) == s;
    forall iid: nat, b: nat, v, b': nat, v' |
        Chosen(c.acceptors, s.net, iid, b, v) && Chosen(c.acceptors, s.net, iid, b', v')
      ensures v == v'
    {
      AtMostOneChosen(c, steps, iid, b, v, b', v');
    }
  }

  lemma LoneAgrees(c: Config, s: State)
    requires c.proposers <= 1 && Reachable(c, s)
    ensures AgreesIn(c, s)
  {
    forall iid: nat, b: nat, v, b': nat, v' |
        Chosen(c.acceptors, s.net, iid, b, v) && Chosen(c.acceptors, s.net, iid, b', v')
      ensures v == v'
    {
      LoneProposerAgrees(c, s, iid, b, v, b', v');
    }
  }

  /** System by system: agreement holds in all reachable states if and only if clients cannot
      submit both the empty value and another one, or there is at most one proposer. */
  lemma AgreementIff(c: Config)
    requires ConfigOk(c)
    ensures AlwaysAgrees(c) <==> [] !in c.values || c.values <= {[]} || c.proposers <= 1
  {
    if [] !in c.values || c.values <= {[]} || c.proposers <= 1 {
      forall s: State | Reachable(c, s)
        ensures AgreesIn(c, s)
      {
        if [] !in c.values {
          NonEmptyAgrees(c, s);
        } else if c.values <= {[]} {
          EmptyOnlyAgrees(c, s);
        } else {
          LoneAgrees(c, s);
        }
      }
    } else {
      var x :| x in c.values && x != [];
      var s := EmptyValueBreaksAgreement(c, x);
      assert !AgreesIn(c, s);
    }
  }
}
