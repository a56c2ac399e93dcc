/** Two promises that the code does not keep without the hypotheses stated elsewhere, each
    with a run that breaks it. */
module Failures {
  import opened PaxosTypes
  import opened Protocol
  import opened World
  import opened Agreement
  import opened Scenarios
  import L = Learners
  import P = Proposers
  import Q = QuorumCounter

  // ---- a repeat reply is not a vote -------------------------------------------------------

  /** A learner of a system with one acceptor delivers the first acknowledgement it hears, if
      it starts late or if the acknowledgement is for instance 1. */
  lemma LoneAckIsDelivered(rec: Record, window: nat, catchUp: bool)
    requires rec.acceptor == 0 && rec.iid >= 1 && (catchUp ==> rec.iid == 1) && window >= 1
    ensures var events := [L.Got(rec), L.DeliverNext];
      L.EventsOk(1, events) && L.Run(1, window, catchUp, events).1 == [rec]
  {
    var events := [L.Got(rec), L.DeliverNext];
    var heard := [L.Got(rec)];
    assert events[..1] == heard && heard[..0] == [];
    var l := L.NewLearner(1, window, catchUp);
    L.NewIsValid(1, window, catchUp);
    assert L.Run(1, window, catchUp, heard[..0]) == (l, []);
    assert L.Delivers(l, heard[0]) == [];
    assert L.Run(1, window, catchUp, heard).0 == L.After(l, heard[0]);
    assert L.Run(1, window, catchUp, heard).1 == [];
    LoneAckCloses(rec, l);
  }

  lemma LoneAckCloses(rec: Record, l: L.LearnerState)
    requires L.Valid(l) && l.acceptors == 1 && (l.lateStart || l.currentIid == rec.iid)
    requires l.instances[rec.iid % |l.instances|] == L.EmptySlot(1)
    requires rec.acceptor == 0 && rec.iid >= 1
    ensures L.Fits(l, rec) && L.Deliver(L.Receive(l, rec)).1 == Some(rec)
  {
    L.ValidFits(l, rec);
    var slot := L.EmptySlot(1);
    var stored := L.Slot(rec.iid, rec.ballot, [Some(rec)], None);
    assert slot.acks[0 := Some(rec)] == [Some(rec)];
    LoneScan(rec);
    assert L.UpdateSlot(slot, rec, 1) == stored by {
      L.NothingStored(1);
      L.OpenTestFails(slot.(iid := rec.iid, lastUpdateBallot := rec.ballot), 1);
    }
    assert L.Closing(stored, 1) == Some(rec);
  }

  lemma LoneScan(rec: Record)
    ensures L.Scan([Some(rec)], rec.ballot, 0, 0, -1) == (if rec.isFinal then 2 else 1, 0)
  {
    assert L.Scan([Some(rec)], rec.ballot, 1, 1, 0) == (1, 0);
  }

  /** A learner that takes repeat replies as they come can deliver a value that is chosen at
      no ballot: here the empty value, which nobody submitted. */
  lemma RepeatRepliesBreakDelivery(c: Config, window: nat) returns (s: State, rec: Record)
    requires c.acceptors == 1 && 1 <= c.proposers <= MAX_N_OF_PROPOSERS && [] !in c.values && window >= 1
    ensures Reachable(c, s) && AcceptAck(rec) in s.net && rec.valueBallot != rec.ballot
    ensures var events := [L.Got(rec), L.DeliverNext];
      L.EventsOk(1, events) && L.Run(1, window, true, events).1 == [rec]
    ensures forall b: nat :: !Chosen(1, s.net, rec.iid, b, rec.value)
  {
    s := PromiseIsSent(c);
    rec := Record(0, 1, 10, 0, false, []);
    LoneAckIsDelivered(rec, window, true);
    var steps :| RunOk(c, steps) && Run(c, steps) == s;
    RunKeepsInv(c, steps);
    forall b: nat
      ensures !Chosen(1, s.net, rec.iid, b, rec.value)
    {
      if Chosen(1, s.net, rec.iid, b, rec.value) {
        ChosenWasProposed(s.stores, s.net, rec.iid, b, rec.value);
      }
    }
  }

  // ---- the assertion on accept acknowledgements -----------------------------------------------

  function Marks(count: nat): Q.QuorumState {
    Q.QuorumState(1, 1, count, [count])
  }

  /** Proposer 0 with instance 1 in the accept phase. */
  function InAccept(b: nat, vb: nat, v: Value, queued: seq<Value>): P.ProposerState {
    P.ProposerState(0, 1, queued, 1, [], [P.Instance(1, b, vb, Some(v), Marks(0), 0)])
  }

  /** Proposer 0 with instance 1 in the prepare phase and a value at hand. */
  function InPrepare(b: nat, vb: nat, v: Value, queued: seq<Value>, count: nat): P.ProposerState {
    P.ProposerState(0, 1, queued, 1, [P.Instance(1, b, vb, Some(v), Marks(count), 0)], [])
  }

  lemma MarksClear(count: nat)
    ensures Q.Cleared(Marks(count)) == Marks(0)
  {
    assert Q.Cleared(Marks(count)).flags == [0];
  }

  lemma FirstAccept(v: Value)
    requires P.Valid(Solo(0, v, 1))
    ensures P.Next(Solo(0, v, 1), P.Accept) == InAccept(10, 0, v, [])
    ensures P.Sends(Solo(0, v, 1), P.Accept) == Some(AcceptReq(1, 10, v))
  {
    MarksClear(1);
  }

  lemma RivalPreempts(v: Value, w: Value)
    requires P.Valid(InAccept(10, 0, v, []))
    ensures var p := InAccept(10, 0, v, []); var e := P.GotAcceptAck(Vote(0, 1, 11, w), 0);
      && P.EventOk(p, e) && P.Next(p, e) == InPrepare(20, 0, v, [], 0)
      && P.Sends(p, e) == Some(PrepareReq(1, 20))
  {
    var p := InAccept(10, 0, v, []);
    assert P.Find(p.accept, 1) == 0;
    P.WithoutIsRemoval(p.accept, 0);
    MarksClear(0);
  }

  lemma RivalIsAdopted(v: Value, w: Value)
    requires w != [] && P.Valid(InPrepare(20, 0, v, [], 0))
    ensures var p := InPrepare(20, 0, v, [], 0); var e := P.GotPrepareAck(Record(0, 1, 20, 11, false, w), 0);
      && P.EventOk(p, e) && P.Next(p, e) == InPrepare(20, 11, w, [v], 1) && P.Sends(p, e) == None
  {
    var p := InPrepare(20, 0, v, [], 0);
    assert P.Find(p.prepare, 1) == 0;
    assert [0][0 := 1] == [1];
  }

  lemma SecondAccept(v: Value, w: Value)
    requires P.Valid(InPrepare(20, 11, w, [v], 1))
    ensures P.Next(InPrepare(20, 11, w, [v], 1), P.Accept) == InAccept(20, 11, w, [v])
  {
    MarksClear(1);
  }

  lemma FirstPromise(c: Config, v: Value) returns (s: State)
    requires c.acceptors == 1 && c.proposers == 2 && v in c.values
    ensures Reachable(c, s) && Formed(c, s)
    ensures s.proposers == [Solo(0, v, 1), P.NewProposer(1, 1)]
    ensures s.stores == [map[1 := Record(0, 1, 10, 0, false, [])]]
  {
    StartIsReachable(c);
    var s1 := PreparedState(c, Init(c), 0, v);
    s := PromisedState(c, s1, 0, v);
  }

  /** Proposer 0 has asked for `v` at ballot 10; the request is still under way. */
  lemma FirstRequestUnderWay(c: Config, v: Value) returns (s: State)
    requires c.acceptors == 1 && c.proposers == 2 && v in c.values
    ensures Reachable(c, s) && Formed(c, s) && Ask(AcceptReq(1, 10, v)) in s.net
    ensures s.proposers == [InAccept(10, 0, v, []), P.NewProposer(1, 1)]
    ensures s.stores == [map[1 := Record(0, 1, 10, 0, false, [])]]
  {
    var s1 := FirstPromise(c, v);
    assert ProposerFormed(c, 0, s1.proposers[0]);
    FirstAccept(v);
    s := ProposerMoves(c, s1, 0, P.Accept);
  }

  /** Proposer 1 wins ballot 11, and proposer 0 is preempted to ballot 20. */
  lemma PreemptedToTwenty(c: Config, v: Value, w: Value) returns (s: State)
    requires c.acceptors == 1 && c.proposers == 2 && v in c.values && w in c.values
    ensures Reachable(c, s) && Formed(c, s) && Ask(AcceptReq(1, 10, v)) in s.net
    ensures s.proposers[0] == InPrepare(20, 0, v, [], 0) && Ask(PrepareReq(1, 20)) in s.net
    ensures s.stores == [map[1 := Vote(0, 1, 11, w)]]
  {
    var s1 := FirstRequestUnderWay(c, v);
    var s2 := WholeRound(c, s1, 1, w);
    assert ProposerFormed(c, 0, s2.proposers[0]);
    RivalPreempts(v, w);
    s := ProposerMoves(c, s2, 0, P.GotAcceptAck(Vote(0, 1, 11, w), 0));
  }

  /** Without ordered connections the assertion can fail: the request of ballot 10 arrives
      after the promise of ballot 20, and its refusal carries the proposer's own ballot. */
  lemma ReorderingBreaksAssertion(c: Config, v: Value, w: Value) returns (s: State, rec: Record)
    requires c.acceptors == 1 && c.proposers == 2 && v in c.values && w in c.values && w != []
    ensures Reachable(c, s) && Formed(c, s) && AcceptAck(rec) in s.net
    ensures rec.ballot % MAX_N_OF_PROPOSERS == 0 && !P.AssertionHolds(s.proposers[0], rec)
  {
    rec := Record(0, 1, 20, 11, false, w);
    var s1 := PreemptedToTwenty(c, v, w);
    OnlyRecord(s1.stores[0], rec);
    var s2 := AcceptorMoves(c, s1, PrepareReq(1, 20), rec);
    assert ProposerFormed(c, 0, s2.proposers[0]);
    RivalIsAdopted(v, w);
    var s3 := ProposerMoves(c, s2, 0, P.GotPrepareAck(rec, 0));
    assert ProposerFormed(c, 0, s3.proposers[0]);
    SecondAccept(v, w);
    var s4 := ProposerMoves(c, s3, 0, P.Accept);
    OnlyRecord(s4.stores[0], rec);
    s := AcceptorMoves(c, s4, AcceptReq(1, 10, v), rec);
    assert P.Find(s.proposers[0].accept, 1) == 0;
  }
}
