/** Every proposer of a run of the protocol lives a life of `Proposers.Run`. What holds over
    all lives therefore holds in every run: the balance of values, the order of instances and
    the shape of ballots. */
module Lives {
  import opened PaxosTypes
  import opened Protocol
  import opened World
  import opened Proposing
  import opened Agreement
  import B = Ballots
  import L = Learners
  import P = Proposers
  import R = ReplicatedLog

  /** The events of proposer `i` in a run, in order. */
  ghost function LifeOf(steps: seq<Step>, i: nat): seq<P.Event> {
    if steps == [] then []
    else
      var last := steps[|steps| - 1];
      LifeOf(steps[..|steps| - 1], i) + (if last.ProposerStep? && last.i == i then [last.e] else [])
  }

  ghost predicate Lived(s: State, i: nat, l: P.Ledger) {
    && i < |s.proposers| && i < |s.submitted| && i < |s.adopted| && i < |s.closed|
    && s.proposers[i] == l.p
    && s.submitted[i] == l.submitted && s.adopted[i] == l.adopted && s.closed[i] == l.closed
  }

  lemma LedgerStep(i: nat, n: nat, events: seq<P.Event>, e: P.Event)
    requires i < MAX_N_OF_PROPOSERS && n >= 1 && P.RunOk(i, n, events) && P.EventOk(P.Run(i, n, events).p, e)
    ensures P.RunOk(i, n, events + [e])
    ensures var l, l' := P.Run(i, n, events), P.Run(i, n, events + [e]);
      && l'.p == P.Next(l.p, e) && l'.submitted == l.submitted + P.Submits(e)
      && l'.adopted == l.adopted + P.Adopts(l.p, e) && l'.closed == l.closed + P.Closes(l.p, e)
  {
    var more := events + [e];
    assert more[..|more| - 1] == events && more[|more| - 1] == e;
  }

  lemma OwnStepLives(c: Config, s: State, i: nat, life: seq<P.Event>, e: P.Event)
    requires Formed(c, s) && Enabled(c, s, ProposerStep(i, e))
    requires P.RunOk(i, c.acceptors, life) && Lived(s, i, P.Run(i, c.acceptors, life))
    ensures P.RunOk(i, c.acceptors, life + [e])
    ensures Lived(Apply(c, s, ProposerStep(i, e)), i, P.Run(i, c.acceptors, life + [e]))
  {
    LedgerStep(i, c.acceptors, life, e);
  }

  lemma OtherStepLives(c: Config, s: State, i: nat, l: P.Ledger, step: Step)
    requires Formed(c, s) && Enabled(c, s, step) && Lived(s, i, l) && !(step.ProposerStep? && step.i == i)
    ensures Lived(Apply(c, s, step), i, l)
  {
  }

  lemma {:induction false} ProposersLive(c: Config, steps: seq<Step>, i: nat)
    requires ConfigOk(c) && RunOk(c, steps) && i < c.proposers
    ensures P.RunOk(i, c.acceptors, LifeOf(steps, i))
    ensures Lived(Run(c, steps), i, P.Run(i, c.acceptors, LifeOf(steps, i)))
  {
    if steps != [] {
      var init, last := steps[..|steps| - 1], steps[|steps| - 1];
      ProposersLive(c, init, i);
      var life := LifeOf(init, i);
      if last.ProposerStep? && last.i == i {
        OwnStepLives(c, Run(c, init), i, life, last.e);
        assert LifeOf(steps, i) == life + [last.e];
      } else {
        OtherStepLives(c, Run(c, init), i, P.Run(i, c.acceptors, life), last);
        assert LifeOf(steps, i) == life;
      }
    }
  }

  // ---- no value is lost ---------------------------------------------------------------------

  /** `v` is chosen for the instance. */
  ghost predicate ChosenFor(n: nat, net: set<Msg>, iid: nat, v: Value) {
    exists b: nat :: Chosen(n, net, iid, b, v)
  }

  ghost predicate AllChosen(n: nat, net: set<Msg>, closed: map<nat, Value>) {
    forall iid :: iid in closed ==> ChosenFor(n, net, iid, closed[iid])
  }

  lemma AllChosenStays(n: nat, net: set<Msg>, net': set<Msg>, closed: map<nat, Value>)
    requires net <= net' && AllChosen(n, net, closed)
    ensures AllChosen(n, net', closed)
  {
    forall iid | iid in closed
      ensures ChosenFor(n, net', iid, closed[iid])
    {
      var b: nat :| Chosen(n, net, iid, b, closed[iid]);
      ChosenStays(n, net, net', iid, b, closed[iid]);
    }
  }

  lemma ClosureIsChosen(c: Config, s: State, i: nat, e: P.Event)
    requires Inv(c, s) && Enabled(c, s, ProposerStep(i, e))
    ensures AllChosen(c.acceptors, s.net, P.Closure(s.proposers[i], e))
  {
    var p := s.proposers[i];
    assert ProposerFormed(c, i, p);
    if e.GotAcceptAck? && P.ClosesInstance(p, e.rec) {
      AcceptAckStep(s.stores, s.net, p, e.rec, e.now);
      var inst := p.accept[P.Find(p.accept, e.rec.iid)];
      assert Chosen(c.acceptors, s.net, inst.iid, inst.ballot, inst.value.value);
    }
  }

  lemma ClosedAsMore(i: nat, n: nat, events: seq<P.Event>, e: P.Event)
    requires i < MAX_N_OF_PROPOSERS && n >= 1 && P.RunOk(i, n, events + [e]) && P.RunOk(i, n, events)
    requires P.EventOk(P.Run(i, n, events).p, e)
    ensures P.ClosedAs(i, n, events + [e]) == P.ClosedAs(i, n, events) + P.Closure(P.Run(i, n, events).p, e)
  {
    assert (events + [e])[..|events|] == events;
  }

  lemma OwnStepCloses(c: Config, s: State, i: nat, life: seq<P.Event>, e: P.Event)
    requires Inv(c, s) && Enabled(c, s, ProposerStep(i, e))
    requires P.RunOk(i, c.acceptors, life) && P.RunOk(i, c.acceptors, life + [e])
    requires P.Run(i, c.acceptors, life).p == s.proposers[i]
    requires AllChosen(c.acceptors, s.net, P.ClosedAs(i, c.acceptors, life))
    ensures AllChosen(c.acceptors, s.net, P.ClosedAs(i, c.acceptors, life + [e]))
  {
    ClosureIsChosen(c, s, i, e);
    ClosedAsMore(i, c.acceptors, life, e);
    BothChosen(c.acceptors, s.net, P.ClosedAs(i, c.acceptors, life), P.Closure(s.proposers[i], e));
  }

  lemma BothChosen(n: nat, net: set<Msg>, before: map<nat, Value>, more: map<nat, Value>)
    requires AllChosen(n, net, before) && AllChosen(n, net, more)
    ensures AllChosen(n, net, before + more)
  {
  }

  /** Whatever value a proposer closes an instance with is chosen for that instance. */
  lemma {:induction false} ClosedIsChosen(c: Config, steps: seq<Step>, i: nat)
    requires ConfigOk(c) && RunOk(c, steps) && [] !in c.values && i < c.proposers
    ensures P.RunOk(i, c.acceptors, LifeOf(steps, i))
    ensures AllChosen(c.acceptors, Run(c, steps).net, P.ClosedAs(i, c.acceptors, LifeOf(steps, i)))
  {
    ProposersLive(c, steps, i);
    if steps != [] {
      var init, last := steps[..|steps| - 1], steps[|steps| - 1];
      ClosedIsChosen(c, init, i);
      var s, life, life' := Run(c, init), LifeOf(init, i), LifeOf(steps, i);
      if last.ProposerStep? && last.i == i {
        ProposersLive(c, init, i);
        RunKeepsInv(c, init);
        OwnStepCloses(c, s, i, life, last.e);
        assert life' == life + [last.e];
      } else {
        assert life' == life;
      }
      NetGrows(c, steps, |init|);
      AllChosenStays(c.acceptors, s.net, Run(c, steps).net, P.ClosedAs(i, c.acceptors, life'));
    }
  }

  /** No submitted value is lost. The submissions of `v` to proposer `i` and its adoptions from
      promises are matched one to one by occurrences in its queue and open instances and by
      different instances that it closed with `v`, for each of which `v` is chosen. */
  lemma NoValueIsLost(c: Config, steps: seq<Step>, i: nat, v: Value) returns (closed: set<nat>)
    requires ConfigOk(c) && RunOk(c, steps) && [] !in c.values && i < c.proposers
    ensures var s := Run(c, steps);
      && s.submitted[i][v] + s.adopted[i][v] == P.Held(s.proposers[i], v) + |closed|
      && (forall iid :: iid in closed ==> ChosenFor(c.acceptors, s.net, iid, v))
  {
    var life := LifeOf(steps, i);
    ProposersLive(c, steps, i);
    ClosedIsChosen(c, steps, i);
    P.RunConservesValues(i, c.acceptors, life, v);
    P.ClosedAsCounts(i, c.acceptors, life, v);
    closed := P.KeysOf(P.ClosedAs(i, c.acceptors, life), v);
  }

  // ---- ballots name their proposer --------------------------------------------------------------

  /** Step `k` of the run made proposer `i` send `req`. */
  ghost predicate SentAt(c: Config, steps: seq<Step>, k: nat, i: nat, req: Request)
    requires ConfigOk(c)
  {
    && k < |steps| && i < c.proposers && RunOk(c, steps[..k]) && steps[k].ProposerStep? && steps[k].i == i
    && var s := Run(c, steps[..k]);
       Enabled(c, s, steps[k]) && P.Sends(s.proposers[i], steps[k].e) == Some(req)
  }

  lemma SentStaysSent(c: Config, steps: seq<Step>, k: nat, i: nat, req: Request)
    requires ConfigOk(c) && steps != [] && SentAt(c, steps[..|steps| - 1], k, i, req)
    ensures SentAt(c, steps, k, i, req)
  {
    assert steps[..|steps| - 1][..k] == steps[..k];
  }

  /** Every request in the network was sent by the proposer its ballot decodes to, in some step of
      the run. `SentHasOwnBallot` adds that nobody else can have sent it. */
  lemma {:induction false} RequestsNameSender(c: Config, steps: seq<Step>, req: Request) returns (k: nat)
    requires ConfigOk(c) && RunOk(c, steps) && Ask(req) in Run(c, steps).net
    ensures !req.RepeatReq? && SentAt(c, steps, k, req.ballot % MAX_N_OF_PROPOSERS, req)
  {
    var init, last := steps[..|steps| - 1], steps[|steps| - 1];
    if Ask(req) in Run(c, init).net {
      k := RequestsNameSender(c, init, req);
      SentStaysSent(c, steps, k, req.ballot % MAX_N_OF_PROPOSERS, req);
    } else {
      k := |steps| - 1;
      assert SentAt(c, steps, k, last.i, req);
      SentHasOwnBallot(c, steps, k, last.i, req);
    }
  }

  /** Whoever sends a request is the proposer its ballot decodes to, and the ballot tells how often
      the instance had been preempted. */
  lemma SentHasOwnBallot(c: Config, steps: seq<Step>, k: nat, i: nat, req: Request)
    requires ConfigOk(c) && SentAt(c, steps, k, i, req)
    ensures !req.RepeatReq? && req.ballot % MAX_N_OF_PROPOSERS == i && RunOk(c, steps[..k + 1])
    ensures P.RunOk(i, c.acceptors, LifeOf(steps[..k + 1], i))
    ensures req.ballot == B.BallotAfter(i, B.Preemptions(i, c.acceptors, LifeOf(steps[..k + 1], i), req.iid))
  {
    var upto := steps[..k + 1];
    assert upto[..|upto| - 1] == steps[..k];
    ProposersLive(c, steps[..k], i);
    ProposersLive(c, upto, i);
    var life := LifeOf(upto, i);
    assert life[..|life| - 1] == LifeOf(steps[..k], i) && life[|life| - 1] == steps[k].e;
    B.RequestsCountPreemptions(i, c.acceptors, life);
  }

  lemma SentIsNumbered(c: Config, steps: seq<Step>, k: nat, i: nat, req: Request)
    requires ConfigOk(c) && SentAt(c, steps, k, i, req)
    ensures req.iid >= 1
  {
    var s := Run(c, steps[..k]);
    assert ProposerFormed(c, i, s.proposers[i]);
    P.NextKeepsValid(s.proposers[i], steps[k].e);
    B.SentIsOpen(s.proposers[i], steps[k].e);
  }

  /** The ballot of a delivered record decodes to the proposer that sent the accept request for
      that very instance, ballot and value, and no other proposer ever sent it. */
  lemma DeliveredNamesSender(c: Config, steps: seq<Step>, window: nat, catchUp: bool, events: seq<L.Event>, rec: Record)
    returns (k: nat)
    requires ConfigOk(c) && RunOk(c, steps) && [] !in c.values && window >= 1
    requires R.FedByVotes(Run(c, steps).net, events)
    requires L.EventsOk(c.acceptors, events) && rec in L.Run(c.acceptors, window, catchUp, events).1
    ensures var req := AcceptReq(rec.iid, rec.ballot, rec.value);
      && SentAt(c, steps, k, rec.ballot % MAX_N_OF_PROPOSERS, req)
      && forall j: nat, i: nat :: SentAt(c, steps, j, i, req) ==> i == rec.ballot % MAX_N_OF_PROPOSERS
  {
    var s, req := Run(c, steps), AcceptReq(rec.iid, rec.ballot, rec.value);
    R.DeliveredIsChosen(c, steps, window, catchUp, events);
    RunKeepsInv(c, steps);
    ChosenWasProposed(s.stores, s.net, rec.iid, rec.ballot, rec.value);
    k := RequestsNameSender(c, steps, req);
    forall j: nat, i: nat | SentAt(c, steps, j, i, req)
      ensures i == rec.ballot % MAX_N_OF_PROPOSERS
    {
      SentHasOwnBallot(c, steps, j, i, req);
    }
  }
}
