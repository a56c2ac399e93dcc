/** What a time stamp of an instance means over a life, and which instances a timeout sweep sends
    again (paxos/proposer.c, evpaxos/evproposer.c). */
module Stamps {
  import opened PaxosTypes
  import opened Proposers
  import opened Ballots
  import opened DriverSteps
  import RingBuffer

  /** The time at which the event (re)starts the clock of the instance: it opens it, gives it a new
      ballot, or sends its request again. Entering the accept phase does not. */
  ghost function StampOf(p: ProposerState, e: Event, iid: nat): Option<int>
    requires Valid(p) && EventOk(p, e)
  {
    match e
    case Prepare(_, now) => if iid == p.nextPrepareIid + 1 then Some(now) else None
    case GotPrepareAck(_, now) => if Preempts(p, e, iid) then Some(now) else None
    case GotAcceptAck(_, now) => if Preempts(p, e, iid) then Some(now) else None
    case ResendPrepare(k, now) => if p.prepare[k].iid == iid then Some(now) else None
    case ResendAccept(k, now) => if p.accept[k].iid == iid then Some(now) else None
    case _ => None
  }

  /** The last such time in a life. */
  ghost function LastStamp(id: nat, n: nat, events: seq<Event>, iid: nat): Option<int>
    requires id < MAX_N_OF_PROPOSERS && n >= 1 && RunOk(id, n, events)
  {
    if events == [] then None
    else
      var init := events[..|events| - 1];
      var stamp := StampOf(Run(id, n, init).p, events[|events| - 1], iid);
      if stamp.Some? then stamp else LastStamp(id, n, init, iid)
  }

  ghost predicate Stamped(p: ProposerState, iid: nat, stamp: Option<int>) {
    && (forall k :: 0 <= k < |p.prepare| && p.prepare[k].iid == iid ==> stamp == Some(p.prepare[k].createdAt))
    && (forall k :: 0 <= k < |p.accept| && p.accept[k].iid == iid ==> stamp == Some(p.accept[k].createdAt))
  }

  lemma PrepareAckStamps(p: ProposerState, rec: Record, now: int, iid: nat, stamp: Option<int>)
    requires Valid(p) && EventOk(p, GotPrepareAck(rec, now)) && Stamped(p, iid, stamp)
    ensures var s := StampOf(p, GotPrepareAck(rec, now), iid);
      Stamped(ReceivePrepareAck(p, rec, now), iid, if s.Some? then s else stamp)
  {
    var k := Find(p.prepare, rec.iid);
    if k < |p.prepare| {
      assert InstanceOk(p, p.prepare[k]);
    }
  }

  lemma AcceptAckStamps(p: ProposerState, rec: Record, now: int, iid: nat, stamp: Option<int>)
    requires Valid(p) && EventOk(p, GotAcceptAck(rec, now)) && Stamped(p, iid, stamp)
    ensures var s := StampOf(p, GotAcceptAck(rec, now), iid);
      Stamped(ReceiveAcceptAck(p, rec, now), iid, if s.Some? then s else stamp)
  {
    var k := Find(p.accept, rec.iid);
    if k < |p.accept| {
      assert InstanceOk(p, p.accept[k]);
      WithoutIsRemoval(p.accept, k);
    }
  }

  lemma StepStamps(p: ProposerState, e: Event, iid: nat, stamp: Option<int>)
    requires Valid(p) && EventOk(p, e) && Stamped(p, iid, stamp)
    ensures var s := StampOf(p, e, iid); Stamped(Next(p, e), iid, if s.Some? then s else stamp)
  {
    match e
    case GotPrepareAck(rec, now) => PrepareAckStamps(p, rec, now, iid, stamp);
    case GotAcceptAck(rec, now) => AcceptAckStamps(p, rec, now, iid, stamp);
    case Prepare(garbage, now) =>
      assert forall k :: 0 <= k < |p.prepare| ==> InstanceOk(p, p.prepare[k]);
      assert forall k :: 0 <= k < |p.accept| ==> InstanceOk(p, p.accept[k]);
    case _ =>
  }

  /** Over every life, the time stamp of an open instance is the time at which it was last opened,
      given a new ballot, or sent again. */
  lemma {:induction false} StampIsLast(id: nat, n: nat, events: seq<Event>, iid: nat)
    requires id < MAX_N_OF_PROPOSERS && n >= 1 && RunOk(id, n, events)
    ensures Stamped(Run(id, n, events).p, iid, LastStamp(id, n, events, iid))
  {
    if events != [] {
      var init := events[..|events| - 1];
      StampIsLast(id, n, init, iid);
      StepStamps(Run(id, n, init).p, events[|events| - 1], iid, LastStamp(id, n, init, iid));
    }
  }

  /** Over every life a sweep at time `now` sends an instance again if and only if its round is not
      complete and the timeout has passed since its clock was last started. */
  lemma SweepSendsIff(id: nat, n: nat, events: seq<Event>, inst: Instance, now: int, timeout: int)
    requires id < MAX_N_OF_PROPOSERS && n >= 1 && RunOk(id, n, events)
    requires inst in Run(id, n, events).p.prepare || inst in Run(id, n, events).p.accept
    ensures var p, stamp := Run(id, n, events).p, LastStamp(id, n, events, inst.iid);
      && stamp.Some?
      && (inst in LateOnes(p.prepare, now, timeout) || inst in LateOnes(p.accept, now, timeout)
          <==> inst.quorum.count < inst.quorum.quorum && now >= stamp.value + timeout)
  {
    var p := Run(id, n, events).p;
    StampIsLast(id, n, events, inst.iid);
    RingBuffer.FilterMembers(p.prepare, IsLate(now, timeout));
    RingBuffer.FilterMembers(p.accept, IsLate(now, timeout));
  }
}
