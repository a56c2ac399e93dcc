/** The learner as an object (paxos/learner.c) and the loops that drive it
    (evpaxos/evlearner.c). */
module LearnerObject {
  import opened PaxosTypes
  import opened Majorities
  import opened RingBuffer
  import L = Learners

  // ---- delivering until nothing is left ------------------------------------------------

  /** How many deliveries there can still be. */
  ghost function Backlog(l: L.LearnerState): nat {
    if l.highestIidClosed >= l.currentIid then l.highestIidClosed - l.currentIid + 1 else 0
  }

  lemma DeliveryShrinksBacklog(l: L.LearnerState)
    requires L.Valid(l) && L.Deliver(l).1.Some?
    ensures L.Valid(L.Deliver(l).0) && Backlog(L.Deliver(l).0) < Backlog(l)
  {
    L.DeliverKeepsValid(l);
    L.CurrentIsTested(l);
    L.WaitingIsMarked(l, l.currentIid);
  }

  /** `learner_deliver_next` until it returns nothing. */
  ghost function Flushed(l: L.LearnerState): (r: (L.LearnerState, seq<Record>))
    requires L.Valid(l)
    ensures L.Valid(r.0) && L.CaughtUp(r.0)
    decreases Backlog(l)
  {
    if L.Deliver(l).1.None? then (l, [])
    else
      DeliveryShrinksBacklog(l);
      var (m, log) := Flushed(L.Deliver(l).0);
      (m, [L.Deliver(l).1.value] + log)
  }

  /** A flush delivers consecutive instances from the current one, as many as the current
      instance advances. */
  lemma {:induction false} FlushIsConsecutive(l: L.LearnerState)
    requires L.Valid(l)
    ensures var (m, log) := Flushed(l);
      && m.currentIid == l.currentIid + |log|
      && forall k :: 0 <= k < |log| ==> log[k].iid == l.currentIid + k
    decreases Backlog(l)
  {
    if L.Deliver(l).1.Some? {
      DeliveryShrinksBacklog(l);
      L.DeliverKeepsValid(l);
      FlushIsConsecutive(L.Deliver(l).0);
    }
  }

  /** `log` has been delivered on the way from `start` to `l`. */
  ghost predicate Flushing(start: L.LearnerState, l: L.LearnerState, log: seq<Record>)
    requires L.Valid(start) && L.Valid(l)
  {
    Flushed(start).0 == Flushed(l).0 && Flushed(start).1 == log + Flushed(l).1
  }

  lemma FlushStep(start: L.LearnerState, l: L.LearnerState, log: seq<Record>)
    requires L.Valid(start) && L.Valid(l) && Flushing(start, l, log) && L.Deliver(l).1.Some?
    ensures L.Valid(L.Deliver(l).0) && Backlog(L.Deliver(l).0) < Backlog(l)
    ensures Flushing(start, L.Deliver(l).0, log + [L.Deliver(l).1.value])
  {
    DeliveryShrinksBacklog(l);
    var rest := Flushed(L.Deliver(l).0).1;
    var x := L.Deliver(l).1.value;
    assert Flushed(l).1 == [x] + rest;
    assert log + ([x] + rest) == (log + [x]) + rest;
  }

  lemma FlushEnds(start: L.LearnerState, l: L.LearnerState, log: seq<Record>)
    requires L.Valid(start) && L.Valid(l) && Flushing(start, l, log) && L.Deliver(l).1.None?
    ensures Flushed(start) == (L.Deliver(l).0, log) && L.CaughtUp(L.Deliver(l).0)
  {
    L.DeliverKeepsValid(l);
    assert log + [] == log;
  }

  /** The test of the current slot changes nothing, and a closed slot is emptied. */
  lemma DeliverMeans(l: L.LearnerState)
    requires L.Valid(l)
    ensures var k := l.currentIid % |l.instances|; var slot := l.instances[k];
      && L.Tested(slot, l.quorum) == slot && l.instances[k := slot] == l.instances
      && L.Deliver(l) ==
           if slot.finalValue.Some?
           then (l.(instances := l.instances[k := L.EmptySlot(l.acceptors)], currentIid := l.currentIid + 1), slot.finalValue)
           else (l, None)
  {
    L.CurrentIsTested(l);
  }

  // ---- the object -------------------------------------------------------------------------

  /** `initialize_instances`. */
  method NewWindow(n: nat, window: nat) returns (c: Carray<L.Slot>)
    requires window >= 1
    ensures c.Valid() && fresh(c) && fresh(c.data) && c.count == c.size == window
    ensures c.Contents() == L.NewLearner(n, window, true).instances
  {
    c := new Carray<L.Slot>(window);
    var i := 0;
    while i < c.size
      invariant c.Valid() && fresh(c) && fresh(c.data) && c.size == window
      invariant 0 <= i <= window && c.Contents() == seq(i, _ => L.EmptySlot(n))
    {
      assert c.count == |c.Contents()| == i;
      c.PushBack(L.EmptySlot(n));
      i := i + 1;
    }
    assert c.count == |c.Contents()|;
  }

  class Learner {
    const quorum: nat
    const acceptors: nat
    var lateStart: bool
    var currentIid: nat
    var highestIidSeen: nat
    var highestIidClosed: nat
    const instances: Carray<L.Slot>

    /** The window is a full ring buffer, so an instance id selects its residue. */
    ghost predicate Full()
      reads instances, instances.data
    {
      instances.Valid() && instances.count == instances.size
    }

    ghost function State(): L.LearnerState
      requires Full()
      reads this, instances, instances.data
    {
      L.LearnerState(quorum, acceptors, lateStart, currentIid, highestIidSeen, highestIidClosed, instances.Contents())
    }

    ghost predicate Valid()
      reads this, instances, instances.data
    {
      Full() && L.Valid(State()) && L.Started(State())
    }

    constructor (n: nat, window: nat, catchUp: bool)
      requires n >= 1 && window >= 1
      ensures Valid() && fresh(instances) && fresh(instances.data) && State() == L.NewLearner(n, window, catchUp)
    {
      quorum := PaxosQuorum(n);
      acceptors := n;
      lateStart := !catchUp;
      currentIid, highestIidSeen, highestIidClosed := 1, 1, 1;
      var slots := NewWindow(n, window);
      instances := slots;
      new;
      L.NewIsValid(n, window, catchUp);
    }

    /** Writes through the pointer that `learner_get_instance` returns. */
    method SetInstance(iid: nat, slot: L.Slot)
      requires Full()
      modifies instances.data
      ensures Full() && State() == old(State()).(instances := old(State()).instances[iid % instances.size := slot])
    {
      instances.Put(iid, slot);
    }

    /** `learner_get_instance`. */
    method GetInstance(iid: nat) returns (slot: L.Slot)
      requires Full()
      ensures slot == State().instances[iid % instances.size]
    {
      var found := instances.At(iid);
      slot := found.value;
    }

    /** The counting loop of `instance_has_quorum`. */
    static method CountAcks(acks: seq<Option<Record>>, b: nat) returns (count: nat, index: int)
      ensures (count, index) == L.Scan(acks, b, 0, 0, -1)
    {
      count, index := 0, -1;
      var i := 0;
      while i < |acks|
        invariant 0 <= i <= |acks|
        invariant L.Scan(acks, b, i, count, index) == L.Scan(acks, b, 0, 0, -1)
      {
        if acks[i].Some? && acks[i].value.ballot == b {
          count := count + 1;
          index := i;
          if acks[i].value.isFinal {
            count := count + |acks|;
            return;
          }
        }
        i := i + 1;
      }
    }

    /** `instance_has_quorum` on the slot of `iid`. */
    method HasQuorum(iid: nat) returns (closed: bool)
      requires Full() && quorum >= 1
      modifies instances.data
      ensures Full()
      ensures var l, k := old(State()), iid % instances.size;
        && State() == l.(instances := l.instances[k := L.Tested(l.instances[k], quorum)])
        && closed == State().instances[k].finalValue.Some?
    {
      var inst := GetInstance(iid);
      ghost var l, k := State(), iid % instances.size;
      assert l.instances[k := l.instances[k]] == l.instances;
      if inst.finalValue.Some? {
        return true;
      }
      var count, index := CountAcks(inst.acks, inst.lastUpdateBallot);
      assert L.AgreeingBefore(inst.acks, inst.lastUpdateBallot, 0) == {};
      L.ScanMeaning(inst.acks, inst.lastUpdateBallot, 0, 0, -1);
      if count >= quorum {
        SetInstance(iid, inst.(finalValue := inst.acks[index]));
        return true;
      }
      return false;
    }

    method UpdateInstance(ack: Record)
      requires Valid() && ack.acceptor < acceptors && L.InWindow(State(), ack.iid)
      modifies instances.data
      ensures Full()
      ensures var l, k := old(State()), ack.iid % instances.size;
        && ack.acceptor < |l.instances[k].acks|
        && State() == l.(instances := l.instances[k := L.UpdateSlot(l.instances[k], ack, quorum)])
    {
      ghost var l, k := State(), ack.iid % instances.size;
      L.SlotHoldsInstance(l, ack.iid);
      var inst := GetInstance(ack.iid);
      if inst.iid == 0 {
        inst := inst.(iid := ack.iid, lastUpdateBallot := ack.ballot);
        SetInstance(ack.iid, inst);
      }
      assert State().instances[k].iid == ack.iid;
      var closed := HasQuorum(ack.iid);
      if closed {
        return;
      }
      inst := GetInstance(ack.iid);
      if inst.acks[ack.acceptor].None? || inst.acks[ack.acceptor].value.ballot < ack.ballot {
        SetInstance(ack.iid, inst.(acks := inst.acks[ack.acceptor := Some(ack)], lastUpdateBallot := ack.ballot));
      }
    }

    method ReceiveAccept(ack: Record)
      requires Valid() && ack.acceptor < acceptors && ack.iid >= 1
      modifies this, instances.data
      ensures Valid() && L.Fits(old(State()), ack) && State() == L.Receive(old(State()), ack)
    {
      ghost var before := State();
      L.ReceiveKeepsValid(before, ack);
      Notice(ack);
      if ack.iid < currentIid {
        return;
      }
      if ack.iid >= currentIid + instances.size {
        return;
      }
      UpdateInstance(ack);
      var closed := HasQuorum(ack.iid);
      ghost var k := ack.iid % |before.instances|;
      assert State().instances == before.instances[k := L.Received(before.instances[k], ack, quorum)];
      var inst := GetInstance(ack.iid);
      if closed && inst.iid > highestIidClosed {
        highestIidClosed := inst.iid;
      }
    }

    /** The late start and the high-water mark at the head of `learner_receive_accept`. */
    method Notice(ack: Record)
      requires Valid() && ack.iid >= 1
      modifies this`lateStart, this`currentIid, this`highestIidSeen
      ensures Valid() && State() == L.Noticed(old(State()), ack)
    {
      ghost var before := State();
      L.NoticedKeepsValid(before, ack);
      if lateStart {
        lateStart := false;
        currentIid := ack.iid;
      }
      if ack.iid > highestIidSeen {
        highestIidSeen := ack.iid;
      }
      assert State() == L.Noticed(before, ack);
    }

    method DeliverNext() returns (rec: Option<Record>)
      requires Valid()
      modifies this`currentIid, instances.data
      ensures Valid() && (State(), rec) == L.Deliver(old(State()))
    {
      ghost var before := State();
      L.AfterKeepsValid(before, L.DeliverNext);
      DeliverMeans(before);
      var closed := HasQuorum(currentIid);
      if !closed {
        return None;
      }
      var inst := GetInstance(currentIid);
      rec := inst.finalValue;
      SetInstance(currentIid, L.EmptySlot(acceptors));
      currentIid := currentIid + 1;
    }

    method HasHoles() returns (range: Option<(nat, nat)>)
      requires Valid()
      ensures range == L.Holes(State())
    {
      if highestIidSeen > currentIid + instances.count {
        return Some((currentIid, highestIidSeen));
      }
      if highestIidClosed > currentIid {
        return Some((currentIid, highestIidClosed));
      }
      return None;
    }

    /** `learner_deliver_next_closed`: afterwards the current instance is open. */
    method DeliverAll() returns (log: seq<Record>)
      requires Valid()
      modifies this`currentIid, instances.data
      ensures Valid() && (State(), log) == Flushed(old(State())) && L.CaughtUp(State())
    {
      log := [];
      ghost var start, before := State(), State();
      var rec := DeliverNext();
      while rec.Some?
        invariant Valid() && L.Valid(before)
        invariant (State(), rec) == L.Deliver(before)
        invariant Flushing(start, before, log)
        decreases Backlog(before)
      {
        FlushStep(start, before, log);
        log := log + [rec.value];
        before := State();
        rec := DeliverNext();
      }
      FlushEnds(start, before, log);
    }

    /** `learner_check_holes`: what each acceptor is asked to repeat, at most 10000 instances
        from the first undelivered one, the end of the reported range excluded. */
    method CheckHoles() returns (asked: seq<nat>)
      requires Valid()
      ensures match L.Holes(State())
        case None => asked == []
        case Some((from, to)) =>
          && |asked| == (if to - from > 10000 then 10000 else to - from)
          && forall k :: 0 <= k < |asked| ==> asked[k] == from + k
      ensures forall iid :: iid in asked <==> L.Asks(State(), iid)
    {
      asked := [];
      var range := HasHoles();
      if range.Some? {
        var (from, to) := range.value;
        if to - from > 10000 {
          to := from + 10000;
        }
        var iid := from;
        while iid < to
          invariant from <= iid <= to
          invariant |asked| == iid - from && forall k :: 0 <= k < |asked| ==> asked[k] == from + k
          invariant forall j :: j in asked <==> from <= j < iid
        {
          asked := asked + [iid];
          iid := iid + 1;
        }
      }
    }
  }
}
