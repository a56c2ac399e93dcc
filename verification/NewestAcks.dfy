/** Which acknowledgements a learner keeps, and exactly when an instance closes, in terms of what
    it has heard (paxos/learner.c). Nothing here is stated through what the slots hold. */
module NewestAcks {
  import opened PaxosTypes
  import opened Majorities
  import opened Learners

  /** The acknowledgement reaches its slot: its instance is not before the one to be delivered next
      and less than a window after it. A late starter begins at the first instance it hears of. */
  ghost predicate Taken(l: LearnerState, ack: Record) {
    var current := if l.lateStart then ack.iid else l.currentIid;
    current <= ack.iid && ack.iid < current + |l.instances|
  }

  ghost function TakenOf(l: LearnerState, e: Event, iid: nat, a: nat): seq<Record> {
    if e.Got? && e.ack.iid == iid && e.ack.acceptor == a && Taken(l, e.ack) then [e.ack] else []
  }

  /** What was heard from acceptor `a` about the instance, in order. */
  ghost function HeardFrom(n: nat, window: nat, catchUp: bool, events: seq<Event>, iid: nat, a: nat): seq<Record>
    requires n >= 1 && window >= 1 && EventsOk(n, events)
  {
    if events == [] then []
    else
      var init := events[..|events| - 1];
      HeardFrom(n, window, catchUp, init, iid, a)
      + TakenOf(Run(n, window, catchUp, init).0, events[|events| - 1], iid, a)
  }

  ghost function Better(x: Option<Record>, ack: Record): Option<Record> {
    if x.None? || ack.ballot > x.value.ballot then Some(ack) else x
  }

  ghost function NewestOf(acks: seq<Record>): Option<Record> {
    if acks == [] then None else Better(NewestOf(acks[..|acks| - 1]), acks[|acks| - 1])
  }

  /** `x` is the first of the acknowledgements with the highest ballot. */
  ghost predicate IsNewest(acks: seq<Record>, x: Record) {
    exists k :: 0 <= k < |acks| && acks[k] == x
      && (forall j :: 0 <= j < |acks| ==> acks[j].ballot <= x.ballot)
      && (forall j :: 0 <= j < k ==> acks[j].ballot < x.ballot)
  }

  lemma {:induction false} NewestMeaning(acks: seq<Record>)
    ensures NewestOf(acks).None? <==> acks == []
    ensures acks != [] ==> IsNewest(acks, NewestOf(acks).value)
  {
    if acks != [] {
      var init, last := acks[..|acks| - 1], acks[|acks| - 1];
      NewestMeaning(init);
      if init != [] && last.ballot <= NewestOf(init).value.ballot {
        var x := NewestOf(init).value;
        var k :| 0 <= k < |init| && init[k] == x
          && (forall j :: 0 <= j < |init| ==> init[j].ballot <= x.ballot)
          && (forall j :: 0 <= j < k ==> init[j].ballot < x.ballot);
        assert acks[k] == x && forall j :: 0 <= j < |init| ==> acks[j] == init[j];
      } else {
        assert acks[|acks| - 1] == last && forall j :: 0 <= j < |init| ==> acks[j] == init[j];
      }
    }
  }

  /** The newest acknowledgement of every acceptor for the instance. */
  ghost function Newest(n: nat, window: nat, catchUp: bool, events: seq<Event>, iid: nat): seq<Option<Record>>
    requires n >= 1 && window >= 1 && EventsOk(n, events)
  {
    seq(n, a requires 0 <= a < n => NewestOf(HeardFrom(n, window, catchUp, events, iid, a)))
  }

  ghost function NewestAfter(l: LearnerState, e: Event, iid: nat, newest: seq<Option<Record>>): seq<Option<Record>> {
    if e.Got? && e.ack.iid == iid && Taken(l, e.ack) && e.ack.acceptor < |newest|
    then newest[e.ack.acceptor := Better(newest[e.ack.acceptor], e.ack)] else newest
  }

  lemma NewestStep(n: nat, window: nat, catchUp: bool, events: seq<Event>, iid: nat)
    requires n >= 1 && window >= 1 && EventsOk(n, events) && events != []
    ensures var init := events[..|events| - 1];
      Newest(n, window, catchUp, events, iid)
      == NewestAfter(Run(n, window, catchUp, init).0, events[|events| - 1], iid, Newest(n, window, catchUp, init, iid))
  {
    var init, e := events[..|events| - 1], events[|events| - 1];
    var l := Run(n, window, catchUp, init).0;
    forall a: nat | a < n
      ensures NewestOf(HeardFrom(n, window, catchUp, events, iid, a))
              == NewestAfter(l, e, iid, Newest(n, window, catchUp, init, iid))[a]
    {
      var before, more := HeardFrom(n, window, catchUp, init, iid, a), TakenOf(l, e, iid, a);
      if more == [] {
        assert before + more == before;
      } else {
        assert (before + more)[..|before|] == before;
      }
    }
  }

  // ---- what the slots hold ------------------------------------------------------------------------

  ghost predicate Blank(newest: seq<Option<Record>>, n: nat) {
    newest == EmptySlot(n).acks
  }

  /** The instance cannot have been heard of yet. */
  ghost predicate Ahead(l: LearnerState, iid: nat) {
    l.lateStart || iid >= l.currentIid + |l.instances|
  }

  /** An open instance of the window holds the newest acknowledgements; ahead of it nothing was taken. */
  ghost predicate Tracks(l: LearnerState, iid: nat, newest: seq<Option<Record>>)
    requires |l.instances| >= 1
  {
    && |newest| == l.acceptors
    && (Ahead(l, iid) ==> Blank(newest, l.acceptors))
    && (!Ahead(l, iid) && l.currentIid <= iid && !ClosedIn(l, iid) ==> l.instances[iid % |l.instances|].acks == newest)
  }

  /** The instance was not closed before, and its slot holds `newest` now. */
  ghost predicate Now(l: LearnerState, iid: nat, newest: seq<Option<Record>>)
    requires |l.instances| >= 1
  {
    InWindow(l, iid) && l.instances[iid % |l.instances|].acks == newest
  }

  lemma StoresNewest(slot: Slot, ack: Record, n: nat)
    requires n >= 1 && ack.acceptor < n && ack.iid >= 1 && slot.finalValue.None?
    requires slot == EmptySlot(n) || (slot.iid == ack.iid && UsedOk(slot, n))
    ensures Received(slot, ack, PaxosQuorum(n)).acks
            == slot.acks[ack.acceptor := Better(slot.acks[ack.acceptor], ack)]
  {
    var q := PaxosQuorum(n);
    var inst := if slot.iid == 0 then slot.(iid := ack.iid, lastUpdateBallot := ack.ballot) else slot;
    if slot.iid == 0 {
      NothingStored(n);
    }
    OpenTestFails(inst, q);
    assert slot.acks[ack.acceptor := slot.acks[ack.acceptor]] == slot.acks;
  }

  /** A fresh start: the first acknowledgement of a late starter. */
  lemma StartTracks(l: LearnerState, ack: Record, iid: nat, newest: seq<Option<Record>>)
    requires Valid(l) && Started(l) && l.lateStart && EventOk(l.acceptors, Got(ack)) && Tracks(l, iid, newest)
    ensures var m := After(l, Got(ack)); var newest' := NewestAfter(l, Got(ack), iid, newest);
      && (Ahead(m, iid) ==> Blank(newest', l.acceptors))
      && (InWindow(m, iid) ==> Now(m, iid, newest'))
  {
    ReceiveKeepsValid(l, ack);
    NoticedKeepsValid(l, ack);
    var m := Noticed(l, ack);
    var k := ack.iid % |m.instances|;
    forall j | 0 <= j < |l.instances|
      ensures l.instances[j] == EmptySlot(l.acceptors)
    {
      assert SlotOk(l, j, l.instances[j]);
    }
    StoresNewest(EmptySlot(l.acceptors), ack, l.acceptors);
    if InWindow(m, iid) {
      OnePerSlot(m.currentIid, |m.instances|, iid, ack.iid);
    }
  }

  lemma GotTracks(l: LearnerState, ack: Record, iid: nat, newest: seq<Option<Record>>)
    requires Valid(l) && Started(l) && !l.lateStart && EventOk(l.acceptors, Got(ack)) && Tracks(l, iid, newest)
    ensures var m := After(l, Got(ack)); var newest' := NewestAfter(l, Got(ack), iid, newest);
      && (Ahead(m, iid) ==> Blank(newest', l.acceptors))
      && (InWindow(m, iid) && !ClosedIn(l, iid) ==> Now(m, iid, newest'))
  {
    ReceiveKeepsValid(l, ack);
    if InWindow(l, iid) && InWindow(l, ack.iid) && !ClosedIn(l, iid) {
      OnePerSlot(l.currentIid, |l.instances|, iid, ack.iid);
      if ack.iid == iid {
        SlotHoldsInstance(l, iid);
        StoresNewest(l.instances[iid % |l.instances|], ack, l.acceptors);
      }
    }
  }

  lemma DeliverTracks(l: LearnerState, iid: nat, newest: seq<Option<Record>>)
    requires Valid(l) && Started(l) && Tracks(l, iid, newest)
    ensures var m := Deliver(l).0;
      && (Ahead(m, iid) ==> Blank(newest, l.acceptors))
      && (InWindow(m, iid) && !m.lateStart && (Ahead(l, iid) || !ClosedIn(l, iid)) ==> Now(m, iid, newest))
  {
    CurrentIsTested(l);
    DeliverKeepsValid(l);
    var m := Deliver(l).0;
    var size := |l.instances|;
    if InWindow(m, iid) && Deliver(l).1.Some? {
      if iid == l.currentIid + size {
        SameResidue(l.currentIid, size);
      } else {
        OnePerSlot(l.currentIid, size, iid, l.currentIid);
      }
    }
  }

  lemma SameResidue(i: nat, size: nat)
    requires size >= 1
    ensures (i + size) % size == i % size
  {
    var d := (i + size) / size - i / size;
    assert i + size == ((i + size) / size) * size + (i + size) % size;
    assert i == (i / size) * size + i % size;
    assert d * size == size + i % size - (i + size) % size;
    MultipleNear(d, size);
  }

  lemma MultipleNear(d: int, size: nat)
    requires size >= 1 && 0 < d * size < 2 * size
    ensures d == 1
  {
  }

  // ---- whole runs -------------------------------------------------------------------------------------

  /** After the first `k` events a majority of the newest acknowledgements for the instance shares a
      ballot, or one of them is final. */
  ghost predicate Agreed(n: nat, window: nat, catchUp: bool, events: seq<Event>, k: nat, iid: nat)
    requires n >= 1 && window >= 1 && EventsOk(n, events) && k <= |events|
  {
    Exhaustive(Newest(n, window, catchUp, events[..k], iid), PaxosQuorum(n))
  }

  ghost predicate NeverAgreed(n: nat, window: nat, catchUp: bool, events: seq<Event>, iid: nat)
    requires n >= 1 && window >= 1 && EventsOk(n, events)
  {
    forall k :: 0 <= k <= |events| ==> !Agreed(n, window, catchUp, events, k, iid)
  }

  /** That was so for the first time after `k` events. */
  ghost predicate FirstAgreed(n: nat, window: nat, catchUp: bool, events: seq<Event>, k: nat, iid: nat)
    requires n >= 1 && window >= 1 && EventsOk(n, events)
  {
    && k <= |events| && Agreed(n, window, catchUp, events, k, iid)
    && forall j :: 0 <= j < k ==> !Agreed(n, window, catchUp, events, j, iid)
  }

  /** What a slot says about the history of its instance. */
  ghost predicate Settled(n: nat, window: nat, catchUp: bool, events: seq<Event>, iid: nat)
    requires n >= 1 && window >= 1 && EventsOk(n, events)
  {
    var l := Run(n, window, catchUp, events).0;
    && (Ahead(l, iid) ==> NeverAgreed(n, window, catchUp, events, iid))
    && (!Ahead(l, iid) && l.currentIid <= iid && !ClosedIn(l, iid) ==> NeverAgreed(n, window, catchUp, events, iid))
    && (!Ahead(l, iid) && l.currentIid <= iid && ClosedIn(l, iid) ==>
          exists k: nat :: FirstAgreed(n, window, catchUp, events, k, iid)
            && l.instances[iid % window].acks == Newest(n, window, catchUp, events[..k], iid))
  }

  lemma PrefixAgreed(n: nat, window: nat, catchUp: bool, events: seq<Event>, k: nat, iid: nat)
    requires n >= 1 && window >= 1 && EventsOk(n, events) && events != [] && k < |events|
    ensures var init := events[..|events| - 1];
      init[..k] == events[..k]
      && (Agreed(n, window, catchUp, init, k, iid) <==> Agreed(n, window, catchUp, events, k, iid))
  {
    assert events[..|events| - 1][..k] == events[..k];
  }

  lemma NeverAgreedMore(n: nat, window: nat, catchUp: bool, events: seq<Event>, iid: nat)
    requires n >= 1 && window >= 1 && EventsOk(n, events) && events != []
    requires NeverAgreed(n, window, catchUp, events[..|events| - 1], iid)
    ensures var now := Exhaustive(Newest(n, window, catchUp, events, iid), PaxosQuorum(n));
      && (!now ==> NeverAgreed(n, window, catchUp, events, iid))
      && (now ==> FirstAgreed(n, window, catchUp, events, |events|, iid))
  {
    assert events[..|events|] == events;
    forall k | 0 <= k < |events|
      ensures !Agreed(n, window, catchUp, events, k, iid)
    {
      PrefixAgreed(n, window, catchUp, events, k, iid);
    }
  }

  lemma FirstAgreedStays(n: nat, window: nat, catchUp: bool, events: seq<Event>, k: nat, iid: nat)
    requires n >= 1 && window >= 1 && EventsOk(n, events) && events != []
    requires FirstAgreed(n, window, catchUp, events[..|events| - 1], k, iid)
    ensures FirstAgreed(n, window, catchUp, events, k, iid) && events[..|events| - 1][..k] == events[..k]
  {
    forall j | 0 <= j <= k
      ensures Agreed(n, window, catchUp, events[..|events| - 1], j, iid) <==> Agreed(n, window, catchUp, events, j, iid)
    {
      PrefixAgreed(n, window, catchUp, events, j, iid);
    }
    PrefixAgreed(n, window, catchUp, events, k, iid);
  }

  /** One event: what happens to the tracked instance. */
  lemma StepTracks(l: LearnerState, e: Event, iid: nat, newest: seq<Option<Record>>)
    requires Valid(l) && Started(l) && EventOk(l.acceptors, e) && Tracks(l, iid, newest)
    ensures var m := After(l, e); var newest' := NewestAfter(l, e, iid, newest);
      && |m.instances| == |l.instances| && Tracks(m, iid, newest')
      && (!Ahead(m, iid) && m.currentIid <= iid && (Ahead(l, iid) || !ClosedIn(l, iid)) ==> Now(m, iid, newest'))
      && (!Ahead(m, iid) && m.currentIid <= iid ==> l.lateStart || l.currentIid <= iid)
      && (Ahead(m, iid) ==> Ahead(l, iid))
  {
    AfterKeepsValid(l, e);
    match e
    case Got(ack) =>
      if l.lateStart { StartTracks(l, ack, iid, newest); } else { GotTracks(l, ack, iid, newest); }
    case DeliverNext => DeliverTracks(l, iid, newest);
    var m := After(l, e);
    if !Ahead(l, iid) && l.currentIid <= iid && ClosedIn(l, iid) && m.currentIid <= iid {
      ClosedStaysOneStep(l, e, iid);
      DeliverKeepsValid(l);
    }
  }

  lemma {:induction false} RunTracks(n: nat, window: nat, catchUp: bool, events: seq<Event>, iid: nat)
    requires n >= 1 && window >= 1 && EventsOk(n, events) && iid >= 1
    ensures Tracks(Run(n, window, catchUp, events).0, iid, Newest(n, window, catchUp, events, iid))
  {
    if events == [] {
      assert Newest(n, window, catchUp, events, iid) == EmptySlot(n).acks;
    } else {
      var init := events[..|events| - 1];
      RunTracks(n, window, catchUp, init, iid);
      NewestStep(n, window, catchUp, events, iid);
      StepTracks(Run(n, window, catchUp, init).0, events[|events| - 1], iid, Newest(n, window, catchUp, init, iid));
    }
  }

  /** The end of a run, for an instance that had not closed before. */
  lemma OpenSettles(n: nat, window: nat, catchUp: bool, events: seq<Event>, iid: nat)
    requires n >= 1 && window >= 1 && EventsOk(n, events) && iid >= 1 && events != []
    requires NeverAgreed(n, window, catchUp, events[..|events| - 1], iid)
    requires var l, newest := Run(n, window, catchUp, events).0, Newest(n, window, catchUp, events, iid);
      if Ahead(l, iid) then Blank(newest, n) else l.currentIid <= iid ==> Now(l, iid, newest)
    ensures Settled(n, window, catchUp, events, iid)
  {
    var l := Run(n, window, catchUp, events).0;
    NeverAgreedMore(n, window, catchUp, events, iid);
    NothingStored(n);
    assert events[..|events|] == events;
    if !Ahead(l, iid) && l.currentIid <= iid {
      LastBallotTestIsExhaustive(n, window, catchUp, events, iid);
    }
  }

  lemma ClosedSettles(n: nat, window: nat, catchUp: bool, events: seq<Event>, iid: nat)
    requires n >= 1 && window >= 1 && EventsOk(n, events) && iid >= 1 && events != []
    requires Settled(n, window, catchUp, events[..|events| - 1], iid)
    requires var l := Run(n, window, catchUp, events[..|events| - 1]).0;
      !Ahead(l, iid) && l.currentIid <= iid && ClosedIn(l, iid)
    ensures Settled(n, window, catchUp, events, iid)
  {
    var init, e := events[..|events| - 1], events[|events| - 1];
    var l, m := Run(n, window, catchUp, init).0, Run(n, window, catchUp, events).0;
    StepTracks(l, e, iid, RunNewest(n, window, catchUp, init, iid));
    if m.currentIid <= iid {
      ClosedStaysOneStep(l, e, iid);
      DeliverKeepsValid(l);
      var k: nat :| FirstAgreed(n, window, catchUp, init, k, iid)
        && l.instances[iid % window].acks == Newest(n, window, catchUp, init[..k], iid);
      FirstAgreedStays(n, window, catchUp, events, k, iid);
    }
  }

  ghost function RunNewest(n: nat, window: nat, catchUp: bool, events: seq<Event>, iid: nat): (newest: seq<Option<Record>>)
    requires n >= 1 && window >= 1 && EventsOk(n, events) && iid >= 1
    ensures Tracks(Run(n, window, catchUp, events).0, iid, newest)
  {
    RunTracks(n, window, catchUp, events, iid);
    Newest(n, window, catchUp, events, iid)
  }

  lemma {:induction false} RunSettles(n: nat, window: nat, catchUp: bool, events: seq<Event>, iid: nat)
    requires n >= 1 && window >= 1 && EventsOk(n, events) && iid >= 1
    ensures Settled(n, window, catchUp, events, iid)
  {
    if events == [] {
      NothingStored(n);
      assert Newest(n, window, catchUp, events, iid) == EmptySlot(n).acks;
    } else {
      var init, e := events[..|events| - 1], events[|events| - 1];
      RunSettles(n, window, catchUp, init, iid);
      var l := Run(n, window, catchUp, init).0;
      if !Ahead(l, iid) && l.currentIid <= iid && ClosedIn(l, iid) {
        ClosedSettles(n, window, catchUp, events, iid);
      } else {
        NewestStep(n, window, catchUp, events, iid);
        StepTracks(l, e, iid, RunNewest(n, window, catchUp, init, iid));
        if l.lateStart || l.currentIid <= iid {
          OpenSettles(n, window, catchUp, events, iid);
        }
      }
    }
  }

  // ---- theorems ---------------------------------------------------------------------------------------

  /** For every sequence of events: what an open instance of the window stores for an acceptor is the
      first of the acknowledgements with the highest ballot among all it took from that acceptor, and
      nothing exactly when it took none. */
  lemma StoredIsNewest(n: nat, window: nat, catchUp: bool, events: seq<Event>, iid: nat, a: nat)
    requires n >= 1 && window >= 1 && EventsOk(n, events) && a < n
    requires var l := Run(n, window, catchUp, events).0;
      l.currentIid <= iid && iid < l.currentIid + window && !ClosedIn(l, iid)
    ensures var slot := Run(n, window, catchUp, events).0.instances[iid % window];
      var heard := HeardFrom(n, window, catchUp, events, iid, a);
      && |slot.acks| == n
      && (slot.acks[a].None? <==> heard == [])
      && (slot.acks[a].Some? ==> IsNewest(heard, slot.acks[a].value))
  {
    var l := Run(n, window, catchUp, events).0;
    RunTracks(n, window, catchUp, events, iid);
    NewestMeaning(HeardFrom(n, window, catchUp, events, iid, a));
    SlotHoldsInstance(l, iid);
    if l.lateStart {
      assert SlotOk(l, iid % window, l.instances[iid % window]);
    }
    assert l.instances[iid % window].acks == Newest(n, window, catchUp, events, iid);
  }

  /** For every sequence of events: an instance of the window is closed if and only if at some point a
      majority of the newest acknowledgements for it shared a ballot or one of them was final. It
      closed at the first such point, with one of the acknowledgements that agreed then. */
  lemma ClosedIffAgreed(n: nat, window: nat, catchUp: bool, events: seq<Event>, iid: nat)
    requires n >= 1 && window >= 1 && EventsOk(n, events)
    requires var l := Run(n, window, catchUp, events).0; l.currentIid <= iid && iid < l.currentIid + window
    ensures var l := Run(n, window, catchUp, events).0;
      && (ClosedIn(l, iid) <==> !NeverAgreed(n, window, catchUp, events, iid))
      && (ClosedIn(l, iid) ==>
            exists k: nat :: FirstAgreed(n, window, catchUp, events, k, iid)
              && FinalOk(Newest(n, window, catchUp, events[..k], iid),
                         l.instances[iid % window].finalValue.value, PaxosQuorum(n)))
  {
    var l := Run(n, window, catchUp, events).0;
    RunSettles(n, window, catchUp, events, iid);
    LastBallotTestIsExhaustive(n, window, catchUp, events, iid);
    if l.lateStart {
      assert SlotOk(l, iid % window, l.instances[iid % window]);
    }
    if ClosedIn(l, iid) {
      var k: nat :| FirstAgreed(n, window, catchUp, events, k, iid)
        && l.instances[iid % window].acks == Newest(n, window, catchUp, events[..k], iid);
      assert Agreed(n, window, catchUp, events, k, iid);
    }
  }
}
