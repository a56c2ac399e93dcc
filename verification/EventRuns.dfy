/** Sequences of proposer events from any state: what a handler of evpaxos/evproposer.c amounts
    to, and why it continues a life of the proposer and a run of the protocol. */
module EventRuns {
  import opened PaxosTypes
  import opened Scenarios
  import P = Proposers
  import R = Traces
  import T = Protocol

  function Optional(req: Option<Request>): seq<Request> {
    if req.Some? then [req.value] else []
  }

  /** The proposer as a machine. */
  ghost function Proposing(): R.Machine<P.ProposerState, P.Event, Request> {
    R.Machine(
      (p: P.ProposerState, e: P.Event) => P.Valid(p) && P.EventOk(p, e),
      (p: P.ProposerState, e: P.Event) => if P.Valid(p) && P.EventOk(p, e) then P.Next(p, e) else p,
      (p: P.ProposerState, e: P.Event) => if P.Valid(p) && P.EventOk(p, e) then Optional(P.Sends(p, e)) else [])
  }

  /** The events can happen one after the other from `p`, lead to `q` and send exactly `sent`. */
  ghost predicate Does(p: P.ProposerState, events: seq<P.Event>, q: P.ProposerState, sent: seq<Request>) {
    R.Does(Proposing(), p, events, q, sent)
  }

  lemma DoesNothing(p: P.ProposerState)
    ensures Does(p, [], p, [])
  {
  }

  lemma DoesOneMore(p: P.ProposerState, events: seq<P.Event>, q: P.ProposerState, sent: seq<Request>, e: P.Event)
    requires Does(p, events, q, sent) && P.Valid(q) && P.EventOk(q, e)
    ensures Does(p, events + [e], P.Next(q, e), sent + Optional(P.Sends(q, e)))
  {
    R.OneMore(Proposing(), p, events, q, sent, e);
  }

  lemma DoesStep(p: P.ProposerState, events: seq<P.Event>, q: P.ProposerState, sent: seq<Request>, e: P.Event,
                 r: P.ProposerState, out: seq<Request>)
    requires Does(p, events, q, sent) && P.Valid(q) && P.EventOk(q, e)
    requires r == P.Next(q, e) && out == Optional(P.Sends(q, e))
    ensures Does(p, events + [e], r, sent + out)
  {
    DoesOneMore(p, events, q, sent, e);
  }

  lemma DoesLast(p: P.ProposerState, events: seq<P.Event>, q: P.ProposerState, sent: seq<Request>)
    returns (q0: P.ProposerState, sent0: seq<Request>)
    requires Does(p, events, q, sent) && events != []
    ensures var e := events[|events| - 1];
      && Does(p, events[..|events| - 1], q0, sent0) && P.Valid(q0) && P.EventOk(q0, e)
      && q == P.Next(q0, e) && sent == sent0 + Optional(P.Sends(q0, e))
  {
    q0, sent0 := R.Last(Proposing(), p, events, q, sent);
  }

  lemma DoesThen(p: P.ProposerState, first: seq<P.Event>, q: P.ProposerState, sent0: seq<Request>,
                 second: seq<P.Event>, r: P.ProposerState, sent1: seq<Request>)
    requires Does(p, first, q, sent0) && Does(q, second, r, sent1)
    ensures Does(p, first + second, r, sent0 + sent1)
  {
    R.Then(Proposing(), p, first, q, sent0, second, r, sent1);
  }

  /** A life is a sequence of events from `proposer_new`. */
  lemma {:induction false} LifeDoes(id: nat, n: nat, life: seq<P.Event>) returns (sent: seq<Request>)
    requires id < MAX_N_OF_PROPOSERS && n >= 1 && P.RunOk(id, n, life)
    ensures Does(P.NewProposer(id, n), life, P.Run(id, n, life).p, sent)
  {
    sent := [];
    if life == [] {
      DoesNothing(P.NewProposer(id, n));
    } else {
      var init, e := life[..|life| - 1], life[|life| - 1];
      var sent0 := LifeDoes(id, n, init);
      DoesOneMore(P.NewProposer(id, n), init, P.Run(id, n, init).p, sent0, e);
      sent := sent0 + Optional(P.Sends(P.Run(id, n, init).p, e));
      assert init + [e] == life;
    }
  }

  lemma {:induction false} DoneIsLife(id: nat, n: nat, life: seq<P.Event>, q: P.ProposerState, sent: seq<Request>)
    requires id < MAX_N_OF_PROPOSERS && n >= 1 && Does(P.NewProposer(id, n), life, q, sent)
    ensures P.RunOk(id, n, life) && P.Run(id, n, life).p == q
  {
    if life != [] {
      var init, e := life[..|life| - 1], life[|life| - 1];
      var q0, sent0 := DoesLast(P.NewProposer(id, n), life, q, sent);
      DoneIsLife(id, n, init, q0, sent0);
    }
  }

  /** Events after a life are a longer life, so everything proved over all lives holds after
      every handler. */
  lemma ContinuesLife(id: nat, n: nat, life: seq<P.Event>, events: seq<P.Event>, q: P.ProposerState, sent: seq<Request>)
    requires id < MAX_N_OF_PROPOSERS && n >= 1 && P.RunOk(id, n, life)
    requires Does(P.Run(id, n, life).p, events, q, sent)
    ensures P.RunOk(id, n, life + events) && P.Run(id, n, life + events).p == q
  {
    var before := LifeDoes(id, n, life);
    DoesThen(P.NewProposer(id, n), life, P.Run(id, n, life).p, before, events, q, sent);
    DoneIsLife(id, n, life + events, q, before + sent);
  }

  /** What is sent, as messages. */
  ghost function Messages(sent: seq<Request>): set<Msg> {
    set k: nat | k < |sent| :: Ask(sent[k])
  }

  lemma MessagesMore(sent: seq<Request>, req: Option<Request>)
    ensures Messages(sent + Optional(req)) == Messages(sent) + T.Outgoing(req)
  {
    var all := sent + Optional(req);
    forall m | m in Messages(sent)
      ensures m in Messages(all)
    {
      var k: nat :| k < |sent| && m == Ask(sent[k]);
      assert all[k] == sent[k];
    }
    if req.Some? {
      assert all[|sent|] == req.value;
    }
    forall m | m in Messages(all)
      ensures m in Messages(sent) + T.Outgoing(req)
    {
      var k: nat :| k < |all| && m == Ask(all[k]);
      if k < |sent| { assert all[k] == sent[k]; }
    }
  }

  ghost predicate FromEnvironment(c: T.Config, net: set<Msg>, events: seq<P.Event>) {
    forall k :: 0 <= k < |events| ==> T.FromEnvironment(c, net, events[k])
  }

  /** The events are steps of proposer `i` in the protocol: from any reachable state they lead to
      a reachable state in which only that proposer has moved and exactly `sent` is new. */
  lemma {:induction false} ContinuesRun(c: T.Config, s: T.State, i: nat, events: seq<P.Event>,
                                        q: P.ProposerState, sent: seq<Request>) returns (s': T.State)
    requires Reachable(c, s) && T.Formed(c, s) && i < c.proposers
    requires Does(s.proposers[i], events, q, sent) && FromEnvironment(c, s.net, events)
    ensures Reachable(c, s') && T.Formed(c, s') && s'.stores == s.stores
    ensures s'.proposers == s.proposers[i := q] && s'.net == s.net + Messages(sent)
    decreases |events|
  {
    if events == [] {
      s' := s;
    } else {
      var init, e := events[..|events| - 1], events[|events| - 1];
      var q0, sent0 := DoesLast(s.proposers[i], events, q, sent);
      var s0 := ContinuesRun(c, s, i, init, q0, sent0);
      assert T.FromEnvironment(c, s.net, e);
      s' := ProposerMoves(c, s0, i, e);
      MessagesMore(sent0, P.Sends(q0, e));
    }
  }
}
