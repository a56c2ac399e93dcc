/** The ballots of a proposer over its life (paxos/proposer.c). */
module Ballots {
  import opened PaxosTypes
  import opened Proposers

  /** The event makes the proposer give up its present ballot for the instance. */
  ghost predicate Preempts(p: ProposerState, e: Event, iid: nat)
    requires Valid(p) && EventOk(p, e)
  {
    match e
    case GotPrepareAck(rec, _) =>
      var k := Find(p.prepare, iid);
      rec.iid == iid && k < |p.prepare| && rec.ballot > p.prepare[k].ballot
    case GotAcceptAck(rec, _) =>
      var k := Find(p.accept, iid);
      rec.iid == iid && k < |p.accept| && rec.ballot != p.accept[k].ballot
    case _ => false
  }

  /** How often the instance was preempted in a life. */
  ghost function Preemptions(id: nat, n: nat, events: seq<Event>, iid: nat): nat
    requires id < MAX_N_OF_PROPOSERS && n >= 1 && RunOk(id, n, events)
  {
    if events == [] then 0
    else
      var init, e := events[..|events| - 1], events[|events| - 1];
      Preemptions(id, n, init, iid) + (if Preempts(Run(id, n, init).p, e, iid) then 1 else 0)
  }

  /** The ballot of proposer `id` after `j` preemptions. */
  function BallotAfter(id: nat, j: nat): nat {
    MAX_N_OF_PROPOSERS * (j + 1) + id
  }

  /** Instance `iid`, if open, is at the ballot after `j` preemptions; if it has not been
      opened yet, there were none. */
  ghost predicate AtBallot(p: ProposerState, iid: nat, j: nat) {
    && (forall k :: 0 <= k < |p.prepare| && p.prepare[k].iid == iid ==> p.prepare[k].ballot == BallotAfter(p.id, j))
    && (forall k :: 0 <= k < |p.accept| && p.accept[k].iid == iid ==> p.accept[k].ballot == BallotAfter(p.id, j))
    && (iid > p.nextPrepareIid ==> j == 0)
  }

  lemma PreemptedBallot(id: nat, inst: Instance, now: int, j: nat)
    requires inst.ballot == BallotAfter(id, j)
    ensures Preempted(id, inst, now).ballot == BallotAfter(id, j + 1)
  {
  }

  lemma PrepareAckKeepsBallot(p: ProposerState, rec: Record, now: int, iid: nat, j: nat)
    requires Valid(p) && EventOk(p, GotPrepareAck(rec, now)) && AtBallot(p, iid, j)
    ensures AtBallot(ReceivePrepareAck(p, rec, now), iid,
              if Preempts(p, GotPrepareAck(rec, now), iid) then j + 1 else j)
  {
    var k := Find(p.prepare, rec.iid);
    if k < |p.prepare| && rec.iid == iid {
      assert InstanceOk(p, p.prepare[k]);
      PreemptedBallot(p.id, p.prepare[k], now, j);
    }
  }

  lemma AcceptAckKeepsBallot(p: ProposerState, rec: Record, now: int, iid: nat, j: nat)
    requires Valid(p) && EventOk(p, GotAcceptAck(rec, now)) && AtBallot(p, iid, j)
    ensures AtBallot(ReceiveAcceptAck(p, rec, now), iid,
              if Preempts(p, GotAcceptAck(rec, now), iid) then j + 1 else j)
  {
    var k := Find(p.accept, rec.iid);
    if k < |p.accept| {
      assert InstanceOk(p, p.accept[k]);
      WithoutIsRemoval(p.accept, k);
      if rec.iid == iid {
        PreemptedBallot(p.id, p.accept[k], now, j);
      }
    }
  }

  lemma StepKeepsBallot(p: ProposerState, e: Event, iid: nat, j: nat)
    requires Valid(p) && EventOk(p, e) && AtBallot(p, iid, j)
    ensures AtBallot(Next(p, e), iid, if Preempts(p, e, iid) then j + 1 else j)
  {
    match e
    case GotPrepareAck(rec, now) => PrepareAckKeepsBallot(p, rec, now, iid, j);
    case GotAcceptAck(rec, now) => AcceptAckKeepsBallot(p, rec, now, iid, j);
    case _ =>
  }

  /** Over every life, the ballot of an open instance tells how often it was preempted. */
  lemma {:induction false} BallotCountsPreemptions(id: nat, n: nat, events: seq<Event>, iid: nat)
    requires id < MAX_N_OF_PROPOSERS && n >= 1 && RunOk(id, n, events)
    ensures AtBallot(Run(id, n, events).p, iid, Preemptions(id, n, events, iid))
  {
    if events != [] {
      var init, e := events[..|events| - 1], events[|events| - 1];
      BallotCountsPreemptions(id, n, init, iid);
      StepKeepsBallot(Run(id, n, init).p, e, iid, Preemptions(id, n, init, iid));
    }
  }

  /** The proposer has the instance open at this ballot. */
  ghost predicate OpenAt(p: ProposerState, iid: nat, b: nat) {
    || (exists k :: 0 <= k < |p.prepare| && p.prepare[k].iid == iid && p.prepare[k].ballot == b)
    || (exists k :: 0 <= k < |p.accept| && p.accept[k].iid == iid && p.accept[k].ballot == b)
  }

  lemma SentIsOpen(p: ProposerState, e: Event)
    requires Valid(p) && EventOk(p, e) && Sends(p, e).Some?
    ensures var r := Sends(p, e).value; !r.RepeatReq? && OpenAt(Next(p, e), r.iid, r.ballot)
  {
    var q := Next(p, e);
    match e
    case Prepare(_, _) => assert q.prepare[|p.prepare|].iid == p.nextPrepareIid + 1;
    case GotPrepareAck(rec, _) => assert q.prepare[Find(p.prepare, rec.iid)].iid == rec.iid;
    case Accept => assert q.accept[|p.accept|] == Accepting(p);
    case GotAcceptAck(rec, _) => assert q.prepare[0].iid == rec.iid;
    case ResendPrepare(k, _) => assert q.prepare[k].iid == p.prepare[k].iid;
    case ResendAccept(k, _) => assert q.accept[k].iid == p.accept[k].iid;
  }

  /** Every request of every life carries the ballot 10k + id whose k - 1 is the number of
      preemptions of its instance up to then; in particular it decodes to its sender. */
  lemma RequestsCountPreemptions(id: nat, n: nat, events: seq<Event>)
    requires id < MAX_N_OF_PROPOSERS && n >= 1 && events != [] && RunOk(id, n, events)
    requires Sends(Run(id, n, events[..|events| - 1]).p, events[|events| - 1]).Some?
    ensures var r := Sends(Run(id, n, events[..|events| - 1]).p, events[|events| - 1]).value;
      && !r.RepeatReq?
      && r.ballot == BallotAfter(id, Preemptions(id, n, events, r.iid))
      && r.ballot % MAX_N_OF_PROPOSERS == id
  {
    var p, e := Run(id, n, events[..|events| - 1]).p, events[|events| - 1];
    SentIsOpen(p, e);
    BallotCountsPreemptions(id, n, events, Sends(p, e).value.iid);
  }

  lemma {:induction false} PreemptionsGrow(id: nat, n: nat, events: seq<Event>, k: nat, iid: nat)
    requires id < MAX_N_OF_PROPOSERS && n >= 1 && RunOk(id, n, events) && k <= |events|
    ensures RunOk(id, n, events[..k])
    ensures Preemptions(id, n, events[..k], iid) <= Preemptions(id, n, events, iid)
  {
    if k == |events| {
      assert events[..k] == events;
    } else {
      var init := events[..|events| - 1];
      assert init[..k] == events[..k];
      PreemptionsGrow(id, n, init, k, iid);
    }
  }

  /** From an instance at ballot `b`, a rival ballot is passed exactly when the instance has
      been preempted floor((rival - b) / 10) + 1 more times. */
  lemma PreemptionsToOvertake(id: nat, n: nat, events: seq<Event>, k: nat, iid: nat, b: nat, b': nat, rival: nat)
    requires id < MAX_N_OF_PROPOSERS && n >= 1 && RunOk(id, n, events) && k <= |events| && RunOk(id, n, events[..k])
    requires OpenAt(Run(id, n, events[..k]).p, iid, b) && OpenAt(Run(id, n, events).p, iid, b') && b <= rival
    ensures var more := Preemptions(id, n, events, iid) - Preemptions(id, n, events[..k], iid);
      && more >= 0 && b' == b + MAX_N_OF_PROPOSERS * more
      && (b' > rival <==> more >= (rival - b) / MAX_N_OF_PROPOSERS + 1)
  {
    PreemptionsGrow(id, n, events, k, iid);
    BallotCountsPreemptions(id, n, events[..k], iid);
    BallotCountsPreemptions(id, n, events, iid);
  }
}
