/** Learners attached to a run of the protocol: what they deliver is chosen, and any two of
    them deliver the same log. */
module ReplicatedLog {
  import opened PaxosTypes
  import opened Majorities
  import opened Protocol
  import opened World
  import opened Agreement
  import L = Learners

  /** The learner hears acknowledgements that were sent, in any order, any number of times,
      and only ones whose ballot is the ballot of the vote they report. The broadcast of an
      accepted value always is such a one. */
  ghost predicate FedByVotes(net: set<Msg>, events: seq<L.Event>) {
    forall k :: 0 <= k < |events| && events[k].Got? ==>
      AcceptAck(events[k].ack) in net && events[k].ack.valueBallot == events[k].ack.ballot
  }

  lemma HeardIsVote(c: Config, s: State, rec: Record)
    requires Inv(c, s) && AcceptAck(rec) in s.net && rec.valueBallot == rec.ballot
    ensures rec == Vote(rec.acceptor, rec.iid, rec.ballot, rec.value)
    ensures Voted(s.net, rec.acceptor, rec.iid, rec.ballot, rec.value)
    ensures rec.acceptor < c.acceptors && rec.iid >= 1
    ensures Proposed(s.net, rec.iid, rec.ballot, rec.value)
  {
    assert AckOk(s.stores, s.net, rec);
    assert VoteOk(s.stores, s.net, rec.acceptor, rec.iid, rec.ballot, rec.value);
  }

  lemma FedEventsFit(c: Config, s: State, events: seq<L.Event>)
    requires Inv(c, s) && FedByVotes(s.net, events)
    ensures L.EventsOk(c.acceptors, events)
  {
    forall k | 0 <= k < |events|
      ensures L.EventOk(c.acceptors, events[k])
    {
      if events[k].Got? {
        HeardIsVote(c, s, events[k].ack);
      }
    }
  }

  lemma HeardFromNet(net: set<Msg>, events: seq<L.Event>, rec: Record)
    requires FedByVotes(net, events) && rec in L.Heard(events)
    ensures AcceptAck(rec) in net && rec.valueBallot == rec.ballot
  {
    var k: nat :| k < |events| && events[k].Got? && events[k].ack == rec;
  }

  /** A backed record is a chosen one: all who were heard at its ballot voted for its value. */
  lemma BackedIsChosen(c: Config, s: State, events: seq<L.Event>, rec: Record)
    requires Inv(c, s) && FedByVotes(s.net, events) && L.Backed(L.Heard(events), c.acceptors, rec)
    ensures Chosen(c.acceptors, s.net, rec.iid, rec.ballot, rec.value)
  {
    HeardFromNet(s.net, events, rec);
    HeardIsVote(c, s, rec);
    var supporters := L.Supporters(L.Heard(events), c.acceptors, rec);
    var voters := Voters(c.acceptors, s.net, rec.iid, rec.ballot, rec.value);
    forall a | a in supporters
      ensures a in voters
    {
      var x :| x in L.Heard(events) && x.acceptor == a && x.iid == rec.iid && x.ballot == rec.ballot;
      HeardFromNet(s.net, events, x);
      HeardIsVote(c, s, x);
      assert x.value == rec.value;
    }
    SubsetSize(supporters, voters);
  }

  /** Everything a learner delivers is the chosen value of its instance. */
  lemma DeliveredIsChosen(c: Config, steps: seq<Step>, window: nat, catchUp: bool, events: seq<L.Event>)
    requires ConfigOk(c) && RunOk(c, steps) && [] !in c.values && window >= 1
    requires FedByVotes(Run(c, steps).net, events)
    ensures L.EventsOk(c.acceptors, events)
    ensures forall rec :: rec in L.Run(c.acceptors, window, catchUp, events).1 ==>
              Chosen(c.acceptors, Run(c, steps).net, rec.iid, rec.ballot, rec.value)
  {
    var s := Run(c, steps);
    RunKeepsInv(c, steps);
    FedEventsFit(c, s, events);
    L.DeliveriesAreBacked(c.acceptors, window, catchUp, events);
    forall rec | rec in L.Run(c.acceptors, window, catchUp, events).1
      ensures Chosen(c.acceptors, s.net, rec.iid, rec.ballot, rec.value)
    {
      BackedIsChosen(c, s, events, rec);
    }
  }

  /** Two learners, in any mode, never deliver different values for one instance. */
  lemma LearnersAgree(c: Config, steps: seq<Step>,
                      window0: nat, catchUp0: bool, events0: seq<L.Event>,
                      window1: nat, catchUp1: bool, events1: seq<L.Event>)
    requires ConfigOk(c) && RunOk(c, steps) && [] !in c.values && window0 >= 1 && window1 >= 1
    requires FedByVotes(Run(c, steps).net, events0) && FedByVotes(Run(c, steps).net, events1)
    ensures L.EventsOk(c.acceptors, events0) && L.EventsOk(c.acceptors, events1)
    ensures forall r0, r1 ::
              (r0 in L.Run(c.acceptors, window0, catchUp0, events0).1
               && r1 in L.Run(c.acceptors, window1, catchUp1, events1).1 && r0.iid == r1.iid)
              ==> r0.value == r1.value
  {
    DeliveredIsChosen(c, steps, window0, catchUp0, events0);
    DeliveredIsChosen(c, steps, window1, catchUp1, events1);
    forall r0, r1 |
        && r0 in L.Run(c.acceptors, window0, catchUp0, events0).1
        && r1 in L.Run(c.acceptors, window1, catchUp1, events1).1 && r0.iid == r1.iid
      ensures r0.value == r1.value
    {
      AtMostOneChosen(c, steps, r0.iid, r0.ballot, r0.value, r1.ballot, r1.value);
    }
  }

  /** What the application sees: the instance and its value. */
  ghost function Entries(log: seq<Record>): seq<(nat, Value)> {
    seq(|log|, k requires 0 <= k < |log| => (log[k].iid, log[k].value))
  }

  /** In every run, the logs of any two catch-up learners are prefixes of one another. Each may
      have stopped at any point: an earlier network is contained in a later one. */
  lemma LogsArePrefixes(c: Config, steps: seq<Step>,
                        window0: nat, events0: seq<L.Event>, window1: nat, events1: seq<L.Event>)
    requires ConfigOk(c) && RunOk(c, steps) && [] !in c.values && window0 >= 1 && window1 >= 1
    requires FedByVotes(Run(c, steps).net, events0) && FedByVotes(Run(c, steps).net, events1)
    ensures L.EventsOk(c.acceptors, events0) && L.EventsOk(c.acceptors, events1)
    ensures var log0 := Entries(L.Run(c.acceptors, window0, true, events0).1);
      var log1 := Entries(L.Run(c.acceptors, window1, true, events1).1);
      log0 <= log1 || log1 <= log0
  {
    LearnersAgree(c, steps, window0, true, events0, window1, true, events1);
    var log0 := L.Run(c.acceptors, window0, true, events0).1;
    var log1 := L.Run(c.acceptors, window1, true, events1).1;
    L.DeliveriesAreConsecutive(c.acceptors, window0, true, events0);
    L.DeliveriesAreConsecutive(c.acceptors, window1, true, events1);
    forall k | 0 <= k < |log0| && k < |log1|
      ensures Entries(log0)[k] == Entries(log1)[k]
    {
      assert log0[k].iid == log1[k].iid == 1 + k;
      assert log0[k] in log0 && log1[k] in log1;
    }
  }
}
