/** Which acknowledgements a learner would have to ignore. The code has no such guard: it counts
    repeat replies that are only promises. */
module Guards {
  import opened PaxosTypes
  import opened Majorities
  import opened Acceptors
  import opened Protocol
  import opened World
  import opened Agreement
  import opened Scenarios
  import L = Learners
  import D = Deliverable
  import O = Overtaking
  import R = ReplicatedLog
  import V = Lives

  /** What a learner behind the guard hears was sent and passes the guard. */
  ghost predicate Hears(guard: Record -> bool, net: set<Msg>, events: seq<L.Event>) {
    forall k :: 0 <= k < |events| && events[k].Got? ==> AcceptAck(events[k].ack) in net && guard(events[k].ack)
  }

  ghost predicate AllDelivered(c: Config, window: nat, catchUp: bool, events: seq<L.Event>, ok: Record -> bool)
    requires c.acceptors >= 1 && window >= 1
  {
    L.EventsOk(c.acceptors, events)
    && forall rec :: rec in L.Run(c.acceptors, window, catchUp, events).1 ==> ok(rec)
  }

  /** The record is chosen at the ballot that it carries. */
  ghost function ChosenAsSaid(c: Config, net: set<Msg>): Record -> bool {
    (rec: Record) => Chosen(c.acceptors, net, rec.iid, rec.ballot, rec.value)
  }

  /** The value is chosen for its instance, at whatever ballot. */
  ghost function ValueChosen(c: Config, net: set<Msg>): Record -> bool {
    (rec: Record) => V.ChosenFor(c.acceptors, net, rec.iid, rec.value)
  }

  /** Every learner behind the guard delivers only records that are `ok`. */
  ghost predicate Sound(c: Config, net: set<Msg>, guard: Record -> bool, ok: Record -> bool) {
    forall window: nat, catchUp: bool, events: seq<L.Event> ::
      c.acceptors >= 1 && window >= 1 && Hears(guard, net, events) ==> AllDelivered(c, window, catchUp, events, ok)
  }

  /** Of the acknowledgements sent, the guard lets only votes through. */
  ghost predicate OnlyVotes(net: set<Msg>, guard: Record -> bool) {
    forall rec :: AcceptAck(rec) in net && guard(rec) ==> rec.valueBallot == rec.ballot
  }

  /** Of the acknowledgements sent, the guard lets only those with a value through. */
  ghost predicate OnlyValues(net: set<Msg>, guard: Record -> bool) {
    forall rec :: AcceptAck(rec) in net && guard(rec) ==> rec.value != []
  }

  // ---- a guard that lets only votes through is enough, in every system ---------------------------

  lemma OnlyVotesIsSound(c: Config, s: State, guard: Record -> bool)
    requires Reachable(c, s) && [] !in c.values && OnlyVotes(s.net, guard)
    ensures Sound(c, s.net, guard, ChosenAsSaid(c, s.net))
  {
    var steps :| RunOk(c, steps) && Run(c, steps) == s;
    forall window: nat, catchUp: bool, events: seq<L.Event> | window >= 1 && Hears(guard, s.net, events)
      ensures AllDelivered(c, window, catchUp, events, ChosenAsSaid(c, s.net))
    {
      assert R.FedByVotes(s.net, events);
      R.DeliveredIsChosen(c, steps, window, catchUp, events);
    }
  }

  // ---- when an acknowledgement was sent for the first time ---------------------------------------

  /** Acceptor `rec.acceptor` holds exactly this record. */
  ghost predicate Holds(c: Config, s: State, rec: Record) {
    && Formed(c, s) && rec.acceptor < c.acceptors && rec.iid in s.stores[rec.acceptor]
    && s.stores[rec.acceptor][rec.iid] == rec
  }

  lemma ReplyIsHeld(c: Config, s: State, a: nat, req: Request, rec: Record)
    requires Formed(c, s) && Enabled(c, s, AcceptorStep(a, req)) && StoreOk(a, s.stores[a])
    requires AcceptAck(rec) in Answers(req, Serve(a, s.stores[a], req).1)
    ensures Holds(c, Apply(c, s, AcceptorStep(a, req)), rec)
  {
    ApplyKeepsFormed(c, s, AcceptorStep(a, req));
  }

  /** The part of the run up to the first sending of the record. */
  lemma {:induction false} FirstSending(c: Config, steps: seq<Step>, rec: Record) returns (first: seq<Step>)
    requires ConfigOk(c) && RunOk(c, steps) && AcceptAck(rec) in Run(c, steps).net
    ensures RunOk(c, first) && Run(c, first).net <= Run(c, steps).net
    ensures AcceptAck(rec) in Run(c, first).net && Holds(c, Run(c, first), rec)
  {
    var init, last := steps[..|steps| - 1], steps[|steps| - 1];
    var s := Run(c, init);
    if AcceptAck(rec) in s.net {
      first := FirstSending(c, init, rec);
    } else {
      first := steps;
      StoreIsServed(c, init, last.a);
      RunsKeepStoreOk(last.a, ServedBy(init, last.a));
      ReplyIsHeld(c, s, last.a, last.req, rec);
    }
  }

  /** A run that ends with the first sending of the record. */
  lemma FirstSent(c: Config, s: State, rec: Record) returns (steps: seq<Step>)
    requires Reachable(c, s) && AcceptAck(rec) in s.net
    ensures RunOk(c, steps) && Reachable(c, Run(c, steps))
    ensures AcceptAck(rec) in Run(c, steps).net && Holds(c, Run(c, steps), rec)
  {
    var all :| RunOk(c, all) && Run(c, all) == s;
    steps := FirstSending(c, all, rec);
  }

  lemma HeldIsNumbered(c: Config, steps: seq<Step>, rec: Record)
    requires ConfigOk(c) && RunOk(c, steps) && Holds(c, Run(c, steps), rec)
    ensures rec.iid >= 1
  {
    var served := ServedBy(steps, rec.acceptor);
    StoreIsServed(c, steps, rec.acceptor);
    StoreHoldsTouched(rec.acceptor, served);
    var j: nat :| j < |served| && !served[j].RepeatReq? && served[j].iid == rec.iid;
    O.ServedWasSent(c, steps, rec.acceptor);
    var k := V.RequestsNameSender(c, steps, served[j]);
    V.SentIsNumbered(c, steps, k, served[j].ballot % MAX_N_OF_PROPOSERS, served[j]);
  }

  /** Acknowledgements in a run fit a learner. */
  lemma HeardFits(c: Config, steps: seq<Step>, guard: Record -> bool, events: seq<L.Event>)
    requires ConfigOk(c) && RunOk(c, steps) && Hears(guard, Run(c, steps).net, events)
    ensures L.EventsOk(c.acceptors, events)
  {
    forall k | 0 <= k < |events|
      ensures L.EventOk(c.acceptors, events[k])
    {
      if events[k].Got? {
        var first := FirstSending(c, steps, events[k].ack);
        HeldIsNumbered(c, first, events[k].ack);
      }
    }
  }

  // ---- the exact condition on a guard, in every system ----------------------------------------------

  /** The acknowledgements sent that the guard lets through. */
  ghost function Passing(net: set<Msg>, guard: Record -> bool): set<Record> {
    set m | m in net && m.AcceptAck? && guard(m.rec) :: m.rec
  }

  lemma SentFits(c: Config, steps: seq<Step>, rec: Record)
    requires ConfigOk(c) && RunOk(c, steps) && AcceptAck(rec) in Run(c, steps).net
    ensures rec.acceptor < c.acceptors && rec.iid >= 1 && !rec.isFinal
  {
    var first := FirstSending(c, steps, rec);
    HeldIsNumbered(c, first, rec);
    StoreIsServed(c, first, rec.acceptor);
    RunsKeepStoreOk(rec.acceptor, ServedBy(first, rec.acceptor));
  }

  lemma PassingFits(c: Config, s: State, guard: Record -> bool)
    requires Reachable(c, s)
    ensures forall x :: x in Passing(s.net, guard) ==> x.acceptor < c.acceptors && x.iid >= 1 && !x.isFinal
  {
    var steps :| RunOk(c, steps) && Run(c, steps) == s;
    forall x | x in Passing(s.net, guard)
      ensures x.acceptor < c.acceptors && x.iid >= 1 && !x.isFinal
    {
      SentFits(c, steps, x);
    }
  }

  lemma HearsIsPassing(net: set<Msg>, guard: Record -> bool, events: seq<L.Event>)
    ensures Hears(guard, net, events) <==> L.Heard(events) <= Passing(net, guard)
  {
    if Hears(guard, net, events) {
      forall x | x in L.Heard(events)
        ensures x in Passing(net, guard)
      {
        var k: nat :| k < |events| && events[k].Got? && events[k].ack == x;
      }
    }
    if L.Heard(events) <= Passing(net, guard) {
      forall k | 0 <= k < |events| && events[k].Got?
        ensures AcceptAck(events[k].ack) in net && guard(events[k].ack)
      {
        assert events[k].ack in L.Heard(events);
      }
    }
  }

  /** In every system and every reachable state, for every guard and every criterion: learners
      behind the guard deliver only good records if and only if every record is good that passes
      the guard together with a majority, at its ballot, of acceptors with ids up to its own. */
  lemma SoundIff(c: Config, s: State, guard: Record -> bool, ok: Record -> bool)
    requires Reachable(c, s)
    ensures Sound(c, s.net, guard, ok)
            <==> forall rec :: L.Backed(Passing(s.net, guard), c.acceptors, rec) ==> ok(rec)
  {
    PassingFits(c, s, guard);
    if Sound(c, s.net, guard, ok) {
      forall rec | L.Backed(Passing(s.net, guard), c.acceptors, rec)
        ensures ok(rec)
      {
        BackedIsGood(c, s.net, guard, ok, rec);
      }
    }
    if forall rec :: L.Backed(Passing(s.net, guard), c.acceptors, rec) ==> ok(rec) {
      GoodIsSound(c, s, guard, ok);
    }
  }

  lemma BackedIsGood(c: Config, net: set<Msg>, guard: Record -> bool, ok: Record -> bool, rec: Record)
    requires c.acceptors >= 1 && Sound(c, net, guard, ok)
    requires forall x :: x in Passing(net, guard) ==> x.acceptor < c.acceptors && x.iid >= 1
    requires L.Backed(Passing(net, guard), c.acceptors, rec)
    ensures ok(rec)
  {
    D.DeliverableIff(c.acceptors, Passing(net, guard), rec);
    var window: nat, catchUp: bool, events: seq<L.Event> :|
      && window >= 1 && L.EventsOk(c.acceptors, events) && L.Heard(events) <= Passing(net, guard)
      && rec in L.Run(c.acceptors, window, catchUp, events).1;
    HearsIsPassing(net, guard, events);
    assert AllDelivered(c, window, catchUp, events, ok);
  }

  lemma GoodIsSound(c: Config, s: State, guard: Record -> bool, ok: Record -> bool)
    requires Reachable(c, s) && forall rec :: L.Backed(Passing(s.net, guard), c.acceptors, rec) ==> ok(rec)
    ensures Sound(c, s.net, guard, ok)
  {
    var steps :| RunOk(c, steps) && Run(c, steps) == s;
    forall window: nat, catchUp: bool, events: seq<L.Event> | window >= 1 && Hears(guard, s.net, events)
      ensures AllDelivered(c, window, catchUp, events, ok)
    {
      HeardFits(c, steps, guard, events);
      HearsIsPassing(s.net, guard, events);
      L.DeliveriesAreBacked(c.acceptors, window, catchUp, events);
      forall rec | rec in L.Run(c.acceptors, window, catchUp, events).1
        ensures ok(rec)
      {
        L.BackedStays(L.Heard(events), Passing(s.net, guard), c.acceptors, rec);
      }
    }
  }

  // ---- only votes: necessary with one acceptor, and only then ------------------------------------------

  function Only(x: Record): Record -> bool {
    (rec: Record) => rec == x
  }

  /** A single acknowledgement is never enough for two or more acceptors. */
  lemma OneRecordIsHarmless(c: Config, s: State, x: Record, ok: Record -> bool)
    requires Reachable(c, s) && c.acceptors >= 2
    ensures Sound(c, s.net, Only(x), ok)
  {
    var passing := Passing(s.net, Only(x));
    PassingFits(c, s, Only(x));
    forall rec
      ensures !L.Backed(passing, c.acceptors, rec)
    {
      assert L.Supporters(passing, c.acceptors, rec) <= {x.acceptor};
      SubsetSize(L.Supporters(passing, c.acceptors, rec), {x.acceptor});
    }
    SoundIff(c, s, Only(x), ok);
  }

  ghost predicate AlwaysSound(c: Config, guard: Record -> bool) {
    forall s :: Reachable(c, s) ==> Sound(c, s.net, guard, ChosenAsSaid(c, s.net))
  }

  ghost predicate AlwaysOnlyVotes(c: Config, guard: Record -> bool) {
    forall s :: Reachable(c, s) ==> OnlyVotes(s.net, guard)
  }

  /** Letting only votes through is necessary for soundness if and only if there is one acceptor. */
  lemma VotesAreNecessaryIff(c: Config)
    requires ConfigOk(c) && c.proposers >= 1 && [] !in c.values
    ensures (forall guard: Record -> bool :: AlwaysSound(c, guard) ==> AlwaysOnlyVotes(c, guard))
            <==> c.acceptors == 1
  {
    if c.acceptors == 1 {
      forall guard: Record -> bool | AlwaysSound(c, guard)
        ensures AlwaysOnlyVotes(c, guard)
      {
        VoteGuardIsExact(c, guard);
      }
    } else {
      var promise := Record(0, 1, 10, 0, false, []);
      var s := PromiseIsSent(c);
      forall t | Reachable(c, t)
        ensures Sound(c, t.net, Only(promise), ChosenAsSaid(c, t.net))
      {
        OneRecordIsHarmless(c, t, promise, ChosenAsSaid(c, t.net));
      }
      assert AlwaysSound(c, Only(promise)) && !AlwaysOnlyVotes(c, Only(promise));
    }
  }

  // ---- one acceptor: the exact guards ---------------------------------------------------------------

  /** A record held at a higher ballot than its vote is not chosen at the ballot it carries. */
  lemma HeldPromiseIsNotChosen(c: Config, s: State, rec: Record)
    requires Inv(c, s) && c.acceptors == 1 && Holds(c, s, rec) && rec.valueBallot != rec.ballot
    ensures !Chosen(1, s.net, rec.iid, rec.ballot, rec.value)
  {
    assert RecordOk(s.net, 0, rec.iid, rec);
    var voters := Voters(1, s.net, rec.iid, rec.ballot, rec.value);
    assert forall a, b, v :: Voted(s.net, a, rec.iid, b, v) ==> VoteOk(s.stores, s.net, a, rec.iid, b, v);
    assert voters == {};
  }

  /** With one acceptor, every record that passes is delivered by some learner. */
  lemma PassedMustBeGood(c: Config, s: State, guard: Record -> bool, ok: Record -> bool, rec: Record)
    requires Reachable(c, s) && c.acceptors == 1 && AcceptAck(rec) in s.net && guard(rec) && !ok(rec)
    ensures !Sound(c, s.net, guard, ok)
  {
    var passing := Passing(s.net, guard);
    PassingFits(c, s, guard);
    assert rec in passing && L.Supports(passing, 0, rec);
    SubsetSize({0}, L.Supporters(passing, 1, rec));
    SoundIff(c, s, guard, ok);
  }

  lemma NonVoteBreaksSoundness(c: Config, s: State, guard: Record -> bool, rec: Record) returns (s': State)
    requires Reachable(c, s) && c.acceptors == 1 && [] !in c.values
    requires AcceptAck(rec) in s.net && guard(rec) && rec.valueBallot != rec.ballot
    ensures Reachable(c, s') && !Sound(c, s'.net, guard, ChosenAsSaid(c, s'.net))
  {
    var steps := FirstSent(c, s, rec);
    s' := Run(c, steps);
    RunKeepsInv(c, steps);
    HeldPromiseIsNotChosen(c, s', rec);
    PassedMustBeGood(c, s', guard, ChosenAsSaid(c, s'.net), rec);
  }

  /** With one acceptor, for every guard: in all reachable states everything delivered is chosen
      at the ballot it carries, if and only if the guard lets only votes through. */
  lemma VoteGuardIsExact(c: Config, guard: Record -> bool)
    requires ConfigOk(c) && c.acceptors == 1 && [] !in c.values
    ensures AlwaysSound(c, guard) <==> AlwaysOnlyVotes(c, guard)
  {
    forall s | Reachable(c, s) && OnlyVotes(s.net, guard)
      ensures Sound(c, s.net, guard, ChosenAsSaid(c, s.net))
    {
      OnlyVotesIsSound(c, s, guard);
    }
    if s :| Reachable(c, s) && !OnlyVotes(s.net, guard) {
      var rec :| AcceptAck(rec) in s.net && guard(rec) && rec.valueBallot != rec.ballot;
      var s' := NonVoteBreaksSoundness(c, s, guard, rec);
    }
  }

  /** The value of a record sent by the only acceptor is chosen, unless the record has none. */
  lemma SentValueIsChosen(c: Config, steps: seq<Step>, rec: Record)
    requires ConfigOk(c) && RunOk(c, steps) && c.acceptors == 1 && [] !in c.values
    requires AcceptAck(rec) in Run(c, steps).net
    ensures V.ChosenFor(1, Run(c, steps).net, rec.iid, rec.value) <==> rec.value != []
  {
    var first := FirstSending(c, steps, rec);
    var s, s' := Run(c, first), Run(c, steps);
    RunKeepsInv(c, first);
    RunKeepsInv(c, steps);
    assert RecordOk(s.net, 0, rec.iid, rec);
    if rec.value != [] {
      OneVoteChooses(s'.net, rec.iid, rec.valueBallot, rec.value);
    } else if b: nat :| Chosen(1, s'.net, rec.iid, b, rec.value) {
      ChosenWasProposed(s'.stores, s'.net, rec.iid, b, rec.value);
    }
  }

  lemma DeliveredWasHeard(c: Config, steps: seq<Step>, guard: Record -> bool, window: nat, catchUp: bool,
                          events: seq<L.Event>, rec: Record)
    requires ConfigOk(c) && RunOk(c, steps) && window >= 1 && Hears(guard, Run(c, steps).net, events)
    requires L.EventsOk(c.acceptors, events) && rec in L.Run(c.acceptors, window, catchUp, events).1
    ensures AcceptAck(rec) in Run(c, steps).net && guard(rec)
  {
    L.DeliveriesAreBacked(c.acceptors, window, catchUp, events);
    assert rec in L.Heard(events);
  }

  lemma OnlyValuesIsSound(c: Config, s: State, guard: Record -> bool)
    requires Reachable(c, s) && c.acceptors == 1 && [] !in c.values && OnlyValues(s.net, guard)
    ensures Sound(c, s.net, guard, ValueChosen(c, s.net))
  {
    var steps :| RunOk(c, steps) && Run(c, steps) == s;
    forall window: nat, catchUp: bool, events: seq<L.Event> | window >= 1 && Hears(guard, s.net, events)
      ensures AllDelivered(c, window, catchUp, events, ValueChosen(c, s.net))
    {
      HeardFits(c, steps, guard, events);
      forall rec | rec in L.Run(c.acceptors, window, catchUp, events).1
        ensures V.ChosenFor(1, s.net, rec.iid, rec.value)
      {
        DeliveredWasHeard(c, steps, guard, window, catchUp, events, rec);
        SentValueIsChosen(c, steps, rec);
      }
    }
  }

  lemma NoValueBreaksSoundness(c: Config, s: State, guard: Record -> bool, rec: Record) returns (s': State)
    requires Reachable(c, s) && c.acceptors == 1 && [] !in c.values
    requires AcceptAck(rec) in s.net && guard(rec) && rec.value == []
    ensures Reachable(c, s') && !Sound(c, s'.net, guard, ValueChosen(c, s'.net))
  {
    var steps := FirstSent(c, s, rec);
    s' := Run(c, steps);
    SentValueIsChosen(c, steps, rec);
    PassedMustBeGood(c, s', guard, ValueChosen(c, s'.net), rec);
  }

  /** With one acceptor, for every guard: in all reachable states every value delivered is chosen
      for its instance, if and only if the guard lets only records with a value through. */
  lemma ValueGuardIsExact(c: Config, guard: Record -> bool)
    requires ConfigOk(c) && c.acceptors == 1 && [] !in c.values
    ensures (forall s :: Reachable(c, s) ==> Sound(c, s.net, guard, ValueChosen(c, s.net)))
            <==> (forall s :: Reachable(c, s) ==> OnlyValues(s.net, guard))
  {
    forall s | Reachable(c, s) && OnlyValues(s.net, guard)
      ensures Sound(c, s.net, guard, ValueChosen(c, s.net))
    {
      OnlyValuesIsSound(c, s, guard);
    }
    if s :| Reachable(c, s) && !OnlyValues(s.net, guard) {
      var rec :| AcceptAck(rec) in s.net && guard(rec) && rec.value == [];
      var s' := NoValueBreaksSoundness(c, s, guard, rec);
    }
  }
}
