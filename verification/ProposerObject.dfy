/** The proposer as an object over ring buffers (paxos/proposer.c) and the event handlers that
    drive it (evpaxos/evproposer.c). */
module ProposerObject {
  import opened PaxosTypes
  import opened QuorumCounter
  import opened RingBuffer
  import opened EventRuns
  import opened DriverSteps
  import opened Phases
  import P = Proposers

  /** `instance_find`: the position of the first instance with this id, or the count. */
  method FindInstance(c: Carray<P.Instance>, iid: nat) returns (k: nat)
    requires c.Valid()
    ensures k == P.Find(c.Contents(), iid)
  {
    k := 0;
    while k < c.count
      invariant 0 <= k <= c.count == |c.Contents()|
      invariant forall j :: 0 <= j < k ==> c.Contents()[j].iid != iid
    {
      var inst := c.At(k);
      if inst.value.iid == iid {
        break;
      }
      k := k + 1;
    }
  }

  /** `instance_remove`: `carray_reject` with `instance_match`. */
  method RemoveInstance(c: Carray<P.Instance>, iid: nat) returns (r: Carray<P.Instance>)
    requires c.Valid()
    ensures r.Valid() && fresh(r) && fresh(r.data) && r.Contents() == P.Without(c.Contents(), iid)
  {
    r := c.Map(P.Matching(iid), false);
  }

  /** `next_timedout`: the first late instance at or after `i`, or the count. */
  method NextTimedOut(c: Carray<P.Instance>, i: nat, now: int, timeout: int) returns (k: nat)
    requires c.Valid() && i <= c.count
    ensures i <= k <= |c.Contents()|
    ensures k < |c.Contents()| ==> Late(c.Contents()[k], now, timeout)
    ensures forall j :: i <= j < k ==> !Late(c.Contents()[j], now, timeout)
  {
    k := i;
    while k < c.count
      invariant i <= k <= c.count == |c.Contents()|
      invariant forall j :: i <= j < k ==> !Late(c.Contents()[j], now, timeout)
    {
      var found := c.At(k);
      var inst := found.value;
      if !Reached(inst.quorum) {
        if now - inst.createdAt >= timeout {
          return;
        }
      }
      k := k + 1;
    }
  }

  /** One sweep of a queue: a loop of `proposer_check_timeouts` over the iterator. */
  method Sweep(c: Carray<P.Instance>, now: int, timeout: int) returns (late: seq<P.Instance>)
    requires c.Valid()
    modifies c.data
    ensures c.Valid()
    ensures c.Contents() == Refreshed(old(c.Contents()), now, timeout)
    ensures late == LateOnes(old(c.Contents()), now, timeout)
  {
    ghost var s := c.Contents();
    late := [];
    var i := 0;
    assert Swept(s, 0, now, timeout) == s;
    while i < c.count
      invariant c.Valid() && 0 <= i <= c.count == |s|
      invariant c.Contents() == Swept(s, i, now, timeout) && late == LateOnes(s[..i], now, timeout)
    {
      var k := NextTimedOut(c, i, now, timeout);
      assert forall j :: i <= j < |s| ==> c.Contents()[j] == s[j];
      SweptSkip(s, i, k, now, timeout);
      i := k;
      if k < c.count {
        SweptStep(s, k, now, timeout);
        SweepSendsLate(s, k, now, timeout, false);
        var inst := c.At(k);
        late := late + [inst.value];
        c.Put(k, inst.value.(createdAt := now));
        i := k + 1;
      }
    }
    assert s[..|s|] == s && Swept(s, |s|, now, timeout) == Refreshed(s, now, timeout);
  }

  /** `malloc`: memory of any content. */
  method Allocate(n: nat) returns (memory: seq<int>)
    ensures |memory| == n
  {
    var a := new int[n];
    memory := a[..];
  }

  /** The two instance queues of `proposer_new`. */
  method NewQueues() returns (prepares: Carray<P.Instance>, accepts: Carray<P.Instance>)
    ensures prepares.Valid() && fresh(prepares) && fresh(prepares.data) && prepares.Contents() == []
    ensures accepts.Valid() && fresh(accepts) && fresh(accepts.data) && accepts.Contents() == []
    ensures prepares != accepts && prepares.data != accepts.data
  {
    prepares := new Carray<P.Instance>(128);
    accepts := new Carray<P.Instance>(128);
  }

  // ---- the proposer ---------------------------------------------------------------------------

  class Proposer {
    const id: nat
    const acceptors: nat
    var values: Carray<Value>
    var nextPrepareIid: nat
    var prepareInstances: Carray<P.Instance>
    var acceptInstances: Carray<P.Instance>

    ghost var Repr: set<object>

    /** The three buffers are well formed and share no memory. */
    ghost predicate Separate()
      reads this, Repr
    {
      && {this, values, prepareInstances, acceptInstances} <= Repr
      && values.data in Repr && {prepareInstances.data, acceptInstances.data} <= Repr
      && values.Valid() && prepareInstances.Valid() && acceptInstances.Valid()
      && prepareInstances != acceptInstances && prepareInstances.data != acceptInstances.data
    }

    ghost function State(): P.ProposerState
      requires Separate()
      reads this, Repr
    {
      P.ProposerState(id, acceptors, values.Contents(), nextPrepareIid,
                      prepareInstances.Contents(), acceptInstances.Contents())
    }

    ghost predicate Valid()
      reads this, Repr
    {
      Separate() && P.Valid(State())
    }

    constructor (id: nat, acceptors: nat)
      requires id < MAX_N_OF_PROPOSERS && acceptors >= 1
      ensures Valid() && fresh(Repr) && State() == P.NewProposer(id, acceptors)
    {
      this.id := id;
      this.acceptors := acceptors;
      nextPrepareIid := 0;
      var queue := new Carray<Value>(128);
      var prepares, accepts := NewQueues();
      values, prepareInstances, acceptInstances := queue, prepares, accepts;
      new;
      Repr := {this, queue, queue.data} + {prepares, prepares.data, accepts, accepts.data};
      P.NewIsValid(id, acceptors);
    }

    method Propose(value: Value)
      requires Valid()
      modifies Repr
      ensures Valid() && fresh(Repr - old(Repr))
      ensures State() == P.Next(old(State()), P.Propose(value))
    {
      values.PushBack(value);
      Repr := Repr + {values.data};
    }

    /** Puts a new instance at the end of the prepare queue. */
    method Open(inst: P.Instance)
      requires Separate()
      modifies Repr
      ensures Separate() && fresh(Repr - old(Repr))
      ensures State() == old(State()).(nextPrepareIid := inst.iid, prepare := old(State()).prepare + [inst])
    {
      nextPrepareIid := inst.iid;
      prepareInstances.PushBack(inst);
      Repr := Repr + {prepareInstances.data};
    }

    /** The flags of the new instance are whatever the allocator returns. */
    method Prepare(now: int) returns (out: Request, ghost garbage: seq<int>)
      requires Valid()
      modifies Repr
      ensures Valid() && fresh(Repr - old(Repr)) && |garbage| == acceptors
      ensures State() == P.PrepareNext(old(State()), garbage, now)
      ensures out == PrepareReq(old(nextPrepareIid) + 1, MAX_N_OF_PROPOSERS + id)
    {
      var flags := Allocate(acceptors);
      garbage := flags;
      P.PrepareKeepsValid(State(), garbage, now);
      var q := QuorumCounter.Fresh(acceptors, flags);
      var inst := P.Instance(nextPrepareIid + 1, P.NextBallot(id, 0), 0, None, q, now);
      out := PrepareReq(inst.iid, inst.ballot);
      Open(inst);
    }

    /** Writes through a pointer into the prepare queue. */
    method PutPrepare(k: nat, inst: P.Instance)
      requires Separate() && k < |State().prepare|
      modifies Repr
      ensures Separate() && Repr == old(Repr)
      ensures State() == old(State()).(prepare := old(State()).prepare[k := inst])
    {
      prepareInstances.Put(k, inst);
    }

    /** A promise at the ballot of the instance, from an acceptor not counted yet. */
    method CountPromise(k: nat, promised: P.Instance, rec: Record)
      requires Separate() && k < |State().prepare| && State().prepare[k] == promised
      requires rec.acceptor < |promised.quorum.flags|
      modifies Repr
      ensures Separate() && fresh(Repr - old(Repr))
      ensures var p, counted := old(State()), promised.(quorum := Added(promised.quorum, rec.acceptor));
        State() ==
          if P.AdoptsValue(promised, rec) then
            p.(values := p.values + (if promised.value.None? then [] else [promised.value.value]),
               prepare := p.prepare[k := counted.(valueBallot := rec.valueBallot, value := Some(rec.value))])
          else p.(prepare := p.prepare[k := counted])
    {
      var inst := promised.(quorum := Added(promised.quorum, rec.acceptor));
      if |rec.value| > 0 {
        if inst.value.None? {
          inst := inst.(valueBallot := rec.valueBallot, value := Some(rec.value));
        } else if rec.valueBallot > inst.valueBallot {
          values.PushBack(inst.value.value);
          Repr := Repr + {values.data};
          inst := inst.(valueBallot := rec.valueBallot, value := Some(rec.value));
        }
      }
      PutPrepare(k, inst);
    }

    method ReceivePrepareAck(rec: Record, now: int) returns (out: Option<Request>)
      requires Valid() && rec.acceptor < acceptors
      modifies Repr
      ensures Valid() && fresh(Repr - old(Repr))
      ensures State() == P.Next(old(State()), P.GotPrepareAck(rec, now))
      ensures out == P.Sends(old(State()), P.GotPrepareAck(rec, now))
    {
      P.PrepareAckKeepsValid(State(), rec, now);
      var k := FindInstance(prepareInstances, rec.iid);
      if k == prepareInstances.count {
        return None;
      }
      var found := prepareInstances.At(k);
      var inst := found.value;
      assert P.InstanceOk(State(), inst);
      if rec.ballot < inst.ballot {
        return None;
      }
      if rec.ballot == inst.ballot {
        if !CanAdd(inst.quorum, rec.acceptor) {
          return None;
        }
        CountPromise(k, inst, rec);
        return None;
      }
      inst := P.Preempted(id, inst, now);
      PutPrepare(k, inst);
      return Some(PrepareReq(inst.iid, inst.ballot));
    }

    /** Pops the front of the prepare queue and puts it, as `inst`, into the accept queue. */
    method MoveFront(inst: P.Instance)
      requires Separate() && State().prepare != []
      modifies Repr
      ensures Separate() && fresh(Repr - old(Repr))
      ensures State() == old(State()).(prepare := old(State()).prepare[1..], accept := old(State()).accept + [inst])
    {
      var front := prepareInstances.PopFront();
      acceptInstances.PushBack(inst);
      Repr := Repr + {acceptInstances.data};
    }

    method Accept() returns (out: Option<Request>)
      requires Valid()
      modifies Repr
      ensures Valid() && fresh(Repr - old(Repr))
      ensures State() == P.Next(old(State()), P.Accept) && out == P.Sends(old(State()), P.Accept)
    {
      P.AcceptKeepsValid(State());
      var front := prepareInstances.Front();
      if front.None? {
        return None;
      }
      var inst := front.value;
      if !Reached(inst.quorum) {
        return None;
      }
      if inst.value.None? {
        var value := values.PopFront();
        if value.None? {
          return None;
        }
        inst := inst.(value := value);
      }
      inst := inst.(quorum := Cleared(inst.quorum));
      MoveFront(inst);
      return Some(AcceptReq(inst.iid, inst.ballot, inst.value.value));
    }

    /** Takes an instance out of the accept queue. */
    method DropAccepting(iid: nat)
      requires Separate()
      modifies Repr
      ensures Separate() && fresh(Repr - old(Repr))
      ensures State() == old(State()).(accept := P.Without(old(State()).accept, iid))
    {
      acceptInstances := RemoveInstance(acceptInstances, iid);
      Repr := Repr + {acceptInstances, acceptInstances.data};
    }

    /** The instance with one more acknowledgement counted: done, or back in its place. */
    method CountAccept(k: nat, inst: P.Instance)
      requires Separate() && k < |State().accept|
      modifies Repr
      ensures Separate() && fresh(Repr - old(Repr))
      ensures var p := old(State());
        State() == p.(accept := if Reached(inst.quorum) then P.Without(p.accept, inst.iid) else p.accept[k := inst])
    {
      if Reached(inst.quorum) {
        DropAccepting(inst.iid);
      } else {
        acceptInstances.Put(k, inst);
      }
    }

    /** Moves an instance back to the head of the prepare queue. */
    method Retry(inst: P.Instance)
      requires Separate()
      modifies Repr
      ensures Separate() && fresh(Repr - old(Repr))
      ensures State() == old(State()).(prepare := [inst] + old(State()).prepare,
                                       accept := P.Without(old(State()).accept, inst.iid))
    {
      DropAccepting(inst.iid);
      prepareInstances.PushFront(inst);
      Repr := Repr + {prepareInstances.data};
    }

    /** The precondition is the assertion in the source. */
    method ReceiveAcceptAck(rec: Record, now: int) returns (out: Option<Request>)
      requires Valid() && rec.acceptor < acceptors && P.AssertionHolds(State(), rec)
      modifies Repr
      ensures Valid() && fresh(Repr - old(Repr))
      ensures State() == P.Next(old(State()), P.GotAcceptAck(rec, now))
      ensures out == P.Sends(old(State()), P.GotAcceptAck(rec, now))
    {
      P.AcceptAckKeepsValid(State(), rec, now);
      var k := FindInstance(acceptInstances, rec.iid);
      if k == acceptInstances.count {
        return None;
      }
      var found := acceptInstances.At(k);
      var inst := found.value;
      assert P.InstanceOk(State(), inst);
      if rec.ballot == inst.ballot {
        if !CanAdd(inst.quorum, rec.acceptor) {
          assert State().accept[k := inst] == State().accept;
          return None;
        }
        CountAccept(k, inst.(quorum := Added(inst.quorum, rec.acceptor)));
        return None;
      }
      inst := P.Preempted(id, inst, now);
      Retry(inst);
      return Some(PrepareReq(inst.iid, inst.ballot));
    }

    /** Both loops of `proposer_check_timeouts`. */
    method SweepBoth(now: int, timeout: int) returns (prepares: seq<P.Instance>, accepts: seq<P.Instance>)
      requires Separate()
      modifies Repr
      ensures Separate() && Repr == old(Repr)
      ensures var p := old(State());
        && State() == p.(prepare := Refreshed(p.prepare, now, timeout), accept := Refreshed(p.accept, now, timeout))
        && prepares == LateOnes(p.prepare, now, timeout) && accepts == LateOnes(p.accept, now, timeout)
    {
      prepares := Sweep(prepareInstances, now, timeout);
      accepts := Sweep(acceptInstances, now, timeout);
    }
  }

  /** What a proposer is sent. */
  datatype Incoming = PromiseMsg(rec: Record) | AcceptedMsg(rec: Record) | SubmitMsg(value: Value)

  function EventOf(msg: Incoming, now: int): P.Event {
    match msg
    case PromiseMsg(rec) => P.GotPrepareAck(rec, now)
    case AcceptedMsg(rec) => P.GotAcceptAck(rec, now)
    case SubmitMsg(value) => P.Propose(value)
  }

  // ---- the driver -----------------------------------------------------------------------------

  /** Every handler says by which proposer events it moved the state and that it sent exactly
      what they send (`EventRuns.Does`), so it continues a life of the proposer and a run of the
      protocol (`EventRuns.ContinuesLife`, `EventRuns.ContinuesRun`). */
  class EvProposer {
    const state: Proposer
    const preexecWindow: nat

    ghost predicate Valid()
      reads state, state.Repr
    {
      state.Valid()
    }

    constructor (id: nat, acceptors: nat, window: nat)
      requires id < MAX_N_OF_PROPOSERS && acceptors >= 1
      ensures Valid() && fresh(state.Repr) && preexecWindow == window
      ensures state.State() == P.NewProposer(id, acceptors)
    {
      state := new Proposer(id, acceptors);
      preexecWindow := window;
    }

    /** `proposer_preexecute`: fill the prepare queue up to the window with new instances. */
    method Preexecute(now: int) returns (sent: seq<Request>, ghost events: seq<P.Event>)
      requires Valid()
      modifies state.Repr
      ensures Valid() && fresh(state.Repr - old(state.Repr))
      ensures Does(old(state.State()), events, state.State(), sent)
      ensures Refilled(old(state.State()), events, state.State(), sent, now)
      ensures var size := |old(state.State()).prepare|;
        |events| == if size < preexecWindow then preexecWindow - size else 0
    {
      sent, events := [], [];
      ghost var p := state.State();
      RefilledNothing(p, now);
      var size := state.prepareInstances.count;
      var i := 0;
      while size + i < preexecWindow
        invariant Valid() && fresh(state.Repr - old(state.Repr))
        invariant Does(p, events, state.State(), sent) && Refilled(p, events, state.State(), sent, now)
        invariant |events| == i && (i == 0 || size + i <= preexecWindow)
      {
        ghost var e: P.Event;
        var req: Request;
        req, e := PrepareOne(p, events, sent, now);
        sent := sent + [req];
        events := events + [e];
        i := i + 1;
      }
    }

    /** One more new instance, after the events that led from `p` to here. */
    method PrepareOne(ghost p: P.ProposerState, ghost events: seq<P.Event>, ghost sent: seq<Request>, now: int)
      returns (req: Request, ghost e: P.Event)
      requires Valid() && Does(p, events, state.State(), sent) && Refilled(p, events, state.State(), sent, now)
      modifies state.Repr
      ensures Valid() && fresh(state.Repr - old(state.Repr))
      ensures Does(p, events + [e], state.State(), sent + [req])
      ensures Refilled(p, events + [e], state.State(), sent + [req], now)
    {
      ghost var q := state.State();
      ghost var garbage: seq<int>;
      req, garbage := state.Prepare(now);
      e := P.Prepare(garbage, now);
      RefillOne(p, events, q, sent, garbage, now, state.State(), req);
    }

    /** The loop of `try_accept`. */
    method SendAccepts() returns (accepts: seq<Request>)
      requires Valid()
      modifies state.Repr
      ensures Valid() && fresh(state.Repr - old(state.Repr))
      ensures accepts == DrainedRequests(old(state.State())) && state.State() == Drained(old(state.State()))
    {
      accepts := [];
      ghost var start, before := state.State(), state.State();
      var req := state.Accept();
      while req.Some?
        invariant Valid() && fresh(state.Repr - old(state.Repr))
        invariant DrainLoop(start, before, accepts, state.State(), req)
        decreases |before.prepare|
      {
        DrainStep(start, before, accepts, state.State(), req);
        accepts := accepts + [req.value];
        before := state.State();
        req := state.Accept();
      }
      DrainEnds(start, before, accepts, state.State(), req);
    }

    /** `try_accept`: afterwards the front of the prepare queue does not have both a quorum and
        a value, and the queue is at least as long as the window. */
    method TryAccept(now: int) returns (accepts: seq<Request>, sent: seq<Request>, ghost prepares: seq<P.Event>)
      requires Valid()
      modifies state.Repr
      ensures Valid() && fresh(state.Repr - old(state.Repr))
      ensures !FrontReady(state.State()) && |state.State().prepare| >= preexecWindow
      ensures accepts == DrainedRequests(old(state.State()))
      ensures Refilled(Drained(old(state.State())), prepares, state.State(), sent, now)
      ensures Does(old(state.State()), Accepts(|accepts|) + prepares, state.State(), accepts + sent)
    {
      ghost var p := state.State();
      accepts := SendAccepts();
      sent, prepares := Preexecute(now);
      TryAcceptDoes(p, prepares, state.State(), sent);
      TryAcceptNotReady(p, prepares, state.State(), sent, now);
    }

    /** `proposer_handle_msg`: the event of the message, then `try_accept`. Between messages the
        front of the prepare queue is therefore never ready, and the window is full. */
    method HandleMsg(msg: Incoming, now: int) returns (sent: seq<Request>, ghost accepts: nat, ghost prepares: seq<P.Event>)
      requires Valid() && P.EventOk(state.State(), EventOf(msg, now))
      modifies state.Repr
      ensures Valid() && fresh(state.Repr - old(state.Repr))
      ensures !FrontReady(state.State()) && |state.State().prepare| >= preexecWindow
      ensures var p := P.Next(old(state.State()), EventOf(msg, now));
        && accepts == |DrainedRequests(p)| && forall k :: 0 <= k < |prepares| ==> IsPrepare(p, prepares[k], now)
      ensures Does(old(state.State()), [EventOf(msg, now)] + (Accepts(accepts) + prepares), state.State(), sent)
    {
      ghost var p := state.State();
      var reply := Dispatch(msg, now);
      var first, more: seq<Request>;
      first, more, prepares := TryAccept(now);
      accepts := |first|;
      EventThen(p, EventOf(msg, now), Accepts(accepts) + prepares, state.State(), first + more);
      sent := Optional(reply) + (first + more);
    }

    /** The `switch` of `proposer_handle_msg`. */
    method Dispatch(msg: Incoming, now: int) returns (reply: Option<Request>)
      requires Valid() && P.EventOk(state.State(), EventOf(msg, now))
      modifies state.Repr
      ensures Valid() && fresh(state.Repr - old(state.Repr))
      ensures state.State() == P.Next(old(state.State()), EventOf(msg, now))
      ensures reply == P.Sends(old(state.State()), EventOf(msg, now))
    {
      reply := None;
      match msg {
        case PromiseMsg(rec) => reply := state.ReceivePrepareAck(rec, now);
        case AcceptedMsg(rec) => reply := state.ReceiveAcceptAck(rec, now);
        case SubmitMsg(value) => state.Propose(value);
      }
    }

    /** `proposer_check_timeouts`: every late instance is sent again, in queue order, with the
        ballot and value it has, and nothing but its time stamp changes. */
    method CheckTimeouts(now: int, timeout: int) returns (sent: seq<Request>)
      requires Valid()
      modifies state.Repr
      ensures Valid() && fresh(state.Repr - old(state.Repr))
      ensures var p := old(state.State());
        && state.State() == p.(prepare := Refreshed(p.prepare, now, timeout), accept := Refreshed(p.accept, now, timeout))
        && sent == Requests(LateOnes(p.prepare, now, timeout), false) + Requests(LateOnes(p.accept, now, timeout), true)
        && Does(p, Resends(p.prepare, now, timeout, false) + Resends(p.accept, now, timeout, true), state.State(), sent)
    {
      ghost var p := state.State();
      SweepIsResends(p, now, timeout);
      var late, lateAccepts := state.SweepBoth(now, timeout);
      sent := Requests(late, false) + Requests(lateAccepts, true);
    }
  }
}
