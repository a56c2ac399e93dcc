/** The order in which a proposer works on its instances (paxos/proposer.c). */
module InstanceOrder {
  import opened PaxosTypes
  import opened Proposers

  /** The instances that ever entered the accept phase, in the order in which each of them
      did so for the first time. */
  ghost function FirstStarts(id: nat, n: nat, events: seq<Event>): seq<nat>
    requires id < MAX_N_OF_PROPOSERS && n >= 1 && RunOk(id, n, events)
  {
    if events == [] then []
    else
      var init, e := events[..|events| - 1], events[|events| - 1];
      StartsAfter(FirstStarts(id, n, init), Run(id, n, init).p, e)
  }

  /** `t` instances were tried: 1..t. The prepare queue holds tried instances, then exactly
      the untried ones, t+1 up to the newest, in order. Only tried ones are accepting. */
  ghost predicate Ordered(p: ProposerState, t: nat) {
    && t <= p.nextPrepareIid <= t + |p.prepare|
    && (forall k :: 0 <= k < Retries(p, t) ==> p.prepare[k].iid <= t)
    && (forall k :: Retries(p, t) <= k < |p.prepare| ==> p.prepare[k].iid == t + 1 + k - Retries(p, t))
    && (forall k :: 0 <= k < |p.accept| ==> p.accept[k].iid <= t)
  }

  /** How many instances at the front of the prepare queue are there for another try. */
  ghost function Retries(p: ProposerState, t: nat): int {
    |p.prepare| - (p.nextPrepareIid - t)
  }

  lemma AcceptKeepsOrder(p: ProposerState, t: nat)
    requires Ordered(p, t) && CanAccept(p)
    ensures p.prepare[0].iid <= t ==> Ordered(AcceptNext(p), t)
    ensures p.prepare[0].iid > t ==> p.prepare[0].iid == t + 1 && Ordered(AcceptNext(p), t + 1)
  {
    var q := AcceptNext(p);
    assert forall k :: 0 <= k < |q.prepare| ==> q.prepare[k] == p.prepare[k + 1];
  }

  lemma AcceptAckKeepsOrder(p: ProposerState, rec: Record, now: int, t: nat)
    requires AcceptAckFits(p, rec) && Distinct(p.accept) && Ordered(p, t)
    ensures Ordered(ReceiveAcceptAck(p, rec, now), t)
  {
    var k := Find(p.accept, rec.iid);
    if k < |p.accept| {
      WithoutIsRemoval(p.accept, k);
      var q := ReceiveAcceptAck(p, rec, now);
      if rec.ballot != p.accept[k].ballot {
        assert forall j :: 1 <= j < |q.prepare| ==> q.prepare[j] == p.prepare[j - 1];
      }
    }
  }

  lemma PrepareAckKeepsOrder(p: ProposerState, rec: Record, now: int, t: nat)
    requires PrepareAckFits(p, rec) && Ordered(p, t)
    ensures Ordered(ReceivePrepareAck(p, rec, now), t)
  {
  }

  lemma OtherStepsKeepOrder(p: ProposerState, e: Event, t: nat)
    requires Valid(p) && EventOk(p, e) && Ordered(p, t) && !e.Accept?
    ensures Ordered(Next(p, e), t)
  {
    match e
    case GotPrepareAck(rec, now) => PrepareAckKeepsOrder(p, rec, now, t);
    case GotAcceptAck(rec, now) => AcceptAckKeepsOrder(p, rec, now, t);
    case _ =>
  }

  /** `starts` is 1..t, everything closed was started, and the queues are ordered. */
  ghost predicate OrderOk(starts: seq<nat>, p: ProposerState, closed: set<nat>) {
    && (forall k :: 0 <= k < |starts| ==> starts[k] == k + 1)
    && Ordered(p, |starts|)
    && (forall iid :: iid in closed ==> iid in starts)
  }

  ghost function StartsAfter(starts: seq<nat>, p: ProposerState, e: Event): seq<nat> {
    if e.Accept? && CanAccept(p) && p.prepare[0].iid !in starts then starts + [p.prepare[0].iid] else starts
  }

  lemma StepKeepsStartOrder(starts: seq<nat>, p: ProposerState, closed: set<nat>, e: Event)
    requires Valid(p) && EventOk(p, e) && OrderOk(starts, p, closed)
    ensures OrderOk(StartsAfter(starts, p, e), Next(p, e), closed + ClosedIids(p, e))
  {
    if e.Accept? {
      if CanAccept(p) {
        assert InstanceOk(p, p.prepare[0]);
        AcceptKeepsOrder(p, |starts|);
        StartedMeans(starts, p.prepare[0].iid);
      }
    } else {
      OtherStepsKeepOrder(p, e, |starts|);
      if e.GotAcceptAck? && ClosesInstance(p, e.rec) {
        assert InstanceOk(p, p.accept[Find(p.accept, e.rec.iid)]);
        StartedMeans(starts, e.rec.iid);
      }
    }
  }

  /** The n-th instance to enter the accept phase for the first time is instance n, over every
      life; whatever was tried and is not accepting or closed waits in front of the untried
      instances, which are complete and in order. */
  lemma {:induction false} InstancesStartInOrder(id: nat, n: nat, events: seq<Event>)
    requires id < MAX_N_OF_PROPOSERS && n >= 1 && RunOk(id, n, events)
    ensures var l := Run(id, n, events); OrderOk(FirstStarts(id, n, events), l.p, l.closedIids)
  {
    if events != [] {
      var init, e := events[..|events| - 1], events[|events| - 1];
      InstancesStartInOrder(id, n, init);
      StepKeepsStartOrder(FirstStarts(id, n, init), Run(id, n, init).p, Run(id, n, init).closedIids, e);
    }
  }

  lemma StartedMeans(starts: seq<nat>, iid: nat)
    requires forall k :: 0 <= k < |starts| ==> starts[k] == k + 1
    ensures iid in starts <==> 1 <= iid <= |starts|
  {
    if 1 <= iid <= |starts| {
      assert starts[iid - 1] == iid;
    }
  }

  /** A new instance is started only when nothing waits for another try: what an accept moves
      is either a tried instance, or the next untried one with only untried ones behind it. */
  lemma RetriesComeFirst(id: nat, n: nat, events: seq<Event>)
    requires id < MAX_N_OF_PROPOSERS && n >= 1 && RunOk(id, n, events) && CanAccept(Run(id, n, events).p)
    ensures var starts, p := FirstStarts(id, n, events), Run(id, n, events).p;
      p.prepare[0].iid in starts
      || (p.prepare[0].iid == |starts| + 1 && forall k :: 0 <= k < |p.prepare| ==> p.prepare[k].iid !in starts)
  {
    InstancesStartInOrder(id, n, events);
    var starts, p := FirstStarts(id, n, events), Run(id, n, events).p;
    forall k | 0 <= k < |p.prepare|
      ensures p.prepare[k].iid in starts <==> p.prepare[k].iid <= |starts|
    {
      assert InstanceOk(p, p.prepare[k]);
      StartedMeans(starts, p.prepare[k].iid);
    }
  }
}
