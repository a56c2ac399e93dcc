/** Exactly which records a learner can be brought to deliver by the acknowledgements that are
    there to be heard (paxos/learner.c). */
module Deliverable {
  import opened PaxosTypes
  import opened Majorities
  import opened Learners

  ghost predicate Agrees(x: Record, n: nat, iid: nat, b: nat) {
    x.acceptor < n && x.iid == iid && x.ballot == b && !x.isFinal
  }

  /** Agreeing acknowledgements of different acceptors, the highest acceptor last. */
  ghost predicate Lineup(rs: seq<Record>, n: nat, iid: nat, b: nat) {
    && rs != [] && iid >= 1
    && (forall i :: 0 <= i < |rs| ==> Agrees(rs[i], n, iid, b))
    && (forall i, j :: 0 <= i < j < |rs| ==> rs[i].acceptor != rs[j].acceptor)
    && (forall i :: 0 <= i < |rs| ==> rs[i].acceptor <= rs[|rs| - 1].acceptor)
  }

  // ---- one slot hears a lineup -----------------------------------------------------------------

  /** Exactly the first `j` of the lineup are stored. */
  ghost predicate Stored(acks: seq<Option<Record>>, rs: seq<Record>, j: nat, n: nat) {
    && |acks| == n && j <= |rs|
    && (forall i :: 0 <= i < j ==> rs[i].acceptor < n && acks[rs[i].acceptor] == Some(rs[i]))
    && (forall a :: 0 <= a < n && acks[a].Some? ==> exists i :: 0 <= i < j && rs[i].acceptor == a)
  }

  ghost function Members(rs: seq<Record>, j: nat): set<nat>
    requires j <= |rs|
  {
    set i: nat | i < j :: rs[i].acceptor
  }

  lemma {:induction false} MembersSize(rs: seq<Record>, j: nat)
    requires j <= |rs| && forall i, k :: 0 <= i < k < |rs| ==> rs[i].acceptor != rs[k].acceptor
    ensures |Members(rs, j)| == j
  {
    if j > 0 {
      MembersSize(rs, j - 1);
      assert Members(rs, j) == Members(rs, j - 1) + {rs[j - 1].acceptor};
    }
  }

  lemma StoredAgree(acks: seq<Option<Record>>, rs: seq<Record>, j: nat, n: nat, iid: nat, b: nat)
    requires Lineup(rs, n, iid, b) && Stored(acks, rs, j, n)
    ensures Agreeing(acks, b) == Members(rs, j) && |Agreeing(acks, b)| == j
    ensures forall c: nat :: c != b ==> Agreeing(acks, c) == {}
    ensures !HasFinal(acks)
  {
    MembersSize(rs, j);
    forall a: nat | a < n && acks[a].Some?
      ensures acks[a].value.ballot == b && !acks[a].value.isFinal && a in Members(rs, j)
    {
      var i :| 0 <= i < j && rs[i].acceptor == a;
      assert Agrees(rs[i], n, iid, b);
    }
    forall a | a in Members(rs, j)
      ensures a in Agreeing(acks, b)
    {
      var i: nat :| i < j && rs[i].acceptor == a;
      assert Agrees(rs[i], n, iid, b);
    }
  }

  lemma StoredIsOpen(acks: seq<Option<Record>>, rs: seq<Record>, j: nat, n: nat, iid: nat, b: nat, q: nat)
    requires Lineup(rs, n, iid, b) && Stored(acks, rs, j, n) && j < q
    ensures !Exhaustive(acks, q)
  {
    StoredAgree(acks, rs, j, n, iid, b);
    assert forall c: nat :: |Agreeing(acks, c)| <= j;
  }

  lemma StoreNext(acks: seq<Option<Record>>, rs: seq<Record>, j: nat, n: nat, iid: nat, b: nat)
    requires Lineup(rs, n, iid, b) && Stored(acks, rs, j, n) && j < |rs|
    ensures rs[j].acceptor < n && acks[rs[j].acceptor].None?
    ensures Stored(acks[rs[j].acceptor := Some(rs[j])], rs, j + 1, n)
  {
    assert Agrees(rs[j], n, iid, b);
  }

  /** The slot after the first `j`, still open. */
  ghost predicate Loaded(slot: Slot, rs: seq<Record>, j: nat, n: nat, iid: nat, b: nat) {
    && Stored(slot.acks, rs, j, n) && slot.finalValue.None?
    && if j == 0 then slot.iid == 0 else slot.iid == iid && slot.lastUpdateBallot == b
  }

  /** What hearing the next one stores, before the second test. */
  lemma UpdateStores(slot: Slot, rs: seq<Record>, j: nat, n: nat, iid: nat, b: nat, q: nat)
    requires Lineup(rs, n, iid, b) && Loaded(slot, rs, j, n, iid, b) && j < |rs| && j < q <= n
    ensures rs[j].acceptor < |slot.acks|
    ensures UpdateSlot(slot, rs[j], q) == Slot(iid, b, slot.acks[rs[j].acceptor := Some(rs[j])], None)
  {
    StoreNext(slot.acks, rs, j, n, iid, b);
    StoredIsOpen(slot.acks, rs, j, n, iid, b, q);
    var inst := if slot.iid == 0 then slot.(iid := iid, lastUpdateBallot := b) else slot;
    assert Agrees(rs[j], n, iid, b);
    OpenTestFails(inst, q);
  }

  lemma HearsNext(slot: Slot, rs: seq<Record>, j: nat, n: nat, iid: nat, b: nat, q: nat)
    requires Lineup(rs, n, iid, b) && Loaded(slot, rs, j, n, iid, b) && j < |rs| && j + 1 < q <= n
    ensures rs[j].acceptor < |slot.acks| && Loaded(Received(slot, rs[j], q), rs, j + 1, n, iid, b)
  {
    UpdateStores(slot, rs, j, n, iid, b, q);
    StoreNext(slot.acks, rs, j, n, iid, b);
    var stored := UpdateSlot(slot, rs[j], q);
    StoredIsOpen(stored.acks, rs, j + 1, n, iid, b, q);
    OpenTestFails(stored, q);
  }

  lemma ClosesWithLast(stored: Slot, rs: seq<Record>, n: nat, iid: nat, b: nat, q: nat)
    requires Lineup(rs, n, iid, b) && |rs| == q <= n && Stored(stored.acks, rs, q, n)
    requires stored.finalValue.None? && stored.lastUpdateBallot == b
    ensures Closing(stored, q) == Some(rs[q - 1])
  {
    StoredAgree(stored.acks, rs, q, n, iid, b);
    ClosingMeaning(stored, q);
    var k: nat :| FinalAt(stored.acks, Closing(stored, q).value, q, k);
    assert k in Agreeing(stored.acks, b) && rs[q - 1].acceptor in Members(rs, q);
  }

  lemma HearsLast(slot: Slot, rs: seq<Record>, n: nat, iid: nat, b: nat, q: nat)
    requires Lineup(rs, n, iid, b) && |rs| == q <= n && Loaded(slot, rs, q - 1, n, iid, b)
    ensures rs[q - 1].acceptor < |slot.acks|
    ensures Received(slot, rs[q - 1], q).finalValue == Some(rs[q - 1])
  {
    UpdateStores(slot, rs, q - 1, n, iid, b, q);
    StoreNext(slot.acks, rs, q - 1, n, iid, b);
    ClosesWithLast(UpdateSlot(slot, rs[q - 1], q), rs, n, iid, b, q);
  }

  // ---- a learner hears a lineup and delivers its last ------------------------------------------------

  function Gots(rs: seq<Record>): seq<Event> {
    seq(|rs|, i requires 0 <= i < |rs| => Got(rs[i]))
  }

  /** A late starter with a window of one that has heard the first `j`. */
  ghost predicate Listening(l: LearnerState, j: nat, n: nat, iid: nat, slot: Slot) {
    && l.acceptors == n && l.quorum == PaxosQuorum(n) && l.instances == [slot]
    && if j == 0 then l.lateStart else !l.lateStart && l.currentIid == iid
  }

  lemma ReceiveFirstSlot(l: LearnerState, j: nat, n: nat, iid: nat, slot: Slot, ack: Record)
    requires Listening(l, j, n, iid, slot) && Fits(l, ack) && ack.iid == iid
    ensures Listening(Receive(l, ack), j + 1, n, iid, Received(slot, ack, PaxosQuorum(n)))
  {
    assert ack.iid % 1 == 0;
  }

  lemma HearsOneMore(rs: seq<Record>, j: nat, n: nat, iid: nat, slot: Slot)
    requires n >= 1 && j < |rs| && rs[j].acceptor < n && rs[j].iid == iid >= 1 && EventsOk(n, Gots(rs[..j]))
    requires Listening(Run(n, 1, false, Gots(rs[..j])).0, j, n, iid, slot)
    ensures EventsOk(n, Gots(rs[..j + 1])) && rs[j].acceptor < |slot.acks|
    ensures Listening(Run(n, 1, false, Gots(rs[..j + 1])).0, j + 1, n, iid, Received(slot, rs[j], PaxosQuorum(n)))
  {
    GotsMore(rs, j);
    var l := Run(n, 1, false, Gots(rs[..j])).0;
    ReceiveKeepsValid(l, rs[j]);
    ReceiveFirstSlot(l, j, n, iid, slot, rs[j]);
    assert forall i :: 0 <= i < j ==> Gots(rs[..j + 1])[i] == Gots(rs[..j])[i];
  }

  lemma {:induction false} LineupIsHeard(rs: seq<Record>, j: nat, n: nat, iid: nat, b: nat) returns (slot: Slot)
    requires n >= 1 && Lineup(rs, n, iid, b) && j < |rs| == PaxosQuorum(n)
    ensures EventsOk(n, Gots(rs[..j])) && Loaded(slot, rs, j, n, iid, b)
    ensures Listening(Run(n, 1, false, Gots(rs[..j])).0, j, n, iid, slot)
  {
    if j == 0 {
      slot := EmptySlot(n);
    } else {
      var before := LineupIsHeard(rs, j - 1, n, iid, b);
      assert Agrees(rs[j - 1], n, iid, b);
      HearsOneMore(rs, j - 1, n, iid, before);
      HearsNext(before, rs, j - 1, n, iid, b, PaxosQuorum(n));
      slot := Received(before, rs[j - 1], PaxosQuorum(n));
    }
  }

  lemma GotsMore(rs: seq<Record>, j: nat)
    requires j < |rs|
    ensures var more := Gots(rs[..j + 1]);
      |more| == j + 1 && more[..j] == Gots(rs[..j]) && more[j] == Got(rs[j])
  {
  }

  lemma HeardGots(rs: seq<Record>, heard: set<Record>)
    requires forall i :: 0 <= i < |rs| ==> rs[i] in heard
    ensures Heard(Gots(rs) + [DeliverNext]) <= heard
  {
  }

  /** The current slot of a learner with a window of one is closed, so it is delivered. */
  lemma ClosedIsDelivered(n: nat, heard: seq<Event>, iid: nat, slot: Slot)
    requires n >= 1 && EventsOk(n, heard) && slot.finalValue.Some?
    requires Run(n, 1, false, heard).0.instances == [slot]
    ensures EventsOk(n, heard + [DeliverNext]) && slot.finalValue.value in Run(n, 1, false, heard + [DeliverNext]).1
  {
    var events := heard + [DeliverNext];
    assert events[..|heard|] == heard && events[|heard|] == DeliverNext;
    var (l, log) := Run(n, 1, false, heard);
    assert l.currentIid % 1 == 0;
    assert Deliver(l).1 == slot.finalValue;
  }

  lemma LineupIsDelivered(rs: seq<Record>, n: nat, iid: nat, b: nat) returns (events: seq<Event>)
    requires n >= 1 && Lineup(rs, n, iid, b) && |rs| == PaxosQuorum(n)
    ensures EventsOk(n, events) && events == Gots(rs) + [DeliverNext]
    ensures rs[|rs| - 1] in Run(n, 1, false, events).1
  {
    var q := |rs|;
    var slot := LineupIsHeard(rs, q - 1, n, iid, b);
    assert rs[..q] == rs;
    assert Agrees(rs[q - 1], n, iid, b);
    HearsOneMore(rs, q - 1, n, iid, slot);
    HearsLast(slot, rs, n, iid, b, q);
    ClosedIsDelivered(n, Gots(rs), iid, Received(slot, rs[q - 1], q));
    events := Gots(rs) + [DeliverNext];
  }

  lemma FinalIsDelivered(rec: Record, n: nat) returns (events: seq<Event>)
    requires n >= 1 && rec.acceptor < n && rec.iid >= 1 && rec.isFinal
    ensures EventsOk(n, events) && events == Gots([rec]) + [DeliverNext] && rec in Run(n, 1, false, events).1
  {
    var empty, q := EmptySlot(n), PaxosQuorum(n);
    var heard := Gots([rec]);
    assert heard[..0] == [] && heard[0] == Got(rec);
    NewIsValid(n, 1, false);
    var l := NewLearner(n, 1, false);
    assert Run(n, 1, false, heard[..0]).0 == l;
    ReceiveKeepsValid(l, rec);
    ReceiveFirstSlot(l, 0, n, rec.iid, empty, rec);
    FinalCloses(rec, n);
    ClosedIsDelivered(n, heard, rec.iid, Received(empty, rec, q));
    events := heard + [DeliverNext];
  }

  lemma FinalCloses(rec: Record, n: nat)
    requires n >= 1 && rec.acceptor < n && rec.iid >= 1 && rec.isFinal
    ensures Received(EmptySlot(n), rec, PaxosQuorum(n)).finalValue == Some(rec)
  {
    var empty, q := EmptySlot(n), PaxosQuorum(n);
    NothingStored(n);
    OpenTestFails(empty.(iid := rec.iid, lastUpdateBallot := rec.ballot), q);
    var stored := UpdateSlot(empty, rec, q);
    assert Matches(stored.acks[rec.acceptor], rec.ballot);
    ClosingMeaning(stored, q);
    var k: nat :| FinalAt(stored.acks, Closing(stored, q).value, q, k);
  }

  // ---- the exact condition ---------------------------------------------------------------------------

  /** One agreeing acknowledgement from each of `m` acceptors of `from`. */
  lemma {:induction false} Pick(heard: set<Record>, n: nat, rec: Record, from: set<nat>, m: nat) returns (rs: seq<Record>)
    requires from <= Supporters(heard, n, rec) && m <= |from|
    ensures |rs| == m && forall i :: 0 <= i < m ==>
              rs[i] in heard && Agrees(rs[i], n, rec.iid, rec.ballot) && rs[i].acceptor in from
    ensures forall i, j :: 0 <= i < j < m ==> rs[i].acceptor != rs[j].acceptor
    decreases m
  {
    rs := [];
    if m > 0 {
      var a :| a in from;
      var x :| x in heard && x.acceptor == a && x.iid == rec.iid && x.ballot == rec.ballot && !x.isFinal;
      var rest := Pick(heard, n, rec, from - {a}, m - 1);
      rs := [x] + rest;
    }
  }

  lemma BackedHasLineup(heard: set<Record>, n: nat, rec: Record) returns (rs: seq<Record>)
    requires n >= 1 && rec.acceptor < n && rec.iid >= 1 && !rec.isFinal && Backed(heard, n, rec)
    ensures Lineup(rs, n, rec.iid, rec.ballot) && |rs| == PaxosQuorum(n) && rs[|rs| - 1] == rec
    ensures forall i :: 0 <= i < |rs| ==> rs[i] in heard
  {
    var others := Supporters(heard, n, rec) - {rec.acceptor};
    assert Supports(heard, rec.acceptor, rec);
    assert Supporters(heard, n, rec) == others + {rec.acceptor};
    var rest := Pick(heard, n, rec, others, PaxosQuorum(n) - 1);
    rs := rest + [rec];
  }

  /** Some learner, hearing nothing but acknowledgements from `heard`, delivers `rec`. */
  ghost predicate CanDeliver(n: nat, heard: set<Record>, rec: Record)
    requires n >= 1
  {
    exists window: nat, catchUp: bool, events: seq<Event> ::
      window >= 1 && EventsOk(n, events) && Heard(events) <= heard && rec in Run(n, window, catchUp, events).1
  }

  /** A learner can be brought to deliver a record if and only if the record can be heard and is
      final, or a majority of acceptors with ids up to its own can be heard at its ballot. */
  lemma DeliverableIff(n: nat, heard: set<Record>, rec: Record)
    requires n >= 1 && forall x :: x in heard ==> x.acceptor < n && x.iid >= 1
    ensures CanDeliver(n, heard, rec) <==> Backed(heard, n, rec)
  {
    if CanDeliver(n, heard, rec) {
      var window: nat, catchUp: bool, events: seq<Event> :|
        window >= 1 && EventsOk(n, events) && Heard(events) <= heard && rec in Run(n, window, catchUp, events).1;
      DeliveriesAreBacked(n, window, catchUp, events);
      BackedStays(Heard(events), heard, n, rec);
    }
    if Backed(heard, n, rec) {
      var events: seq<Event>;
      if rec.isFinal {
        events := FinalIsDelivered(rec, n);
        HeardGots([rec], heard);
      } else {
        var rs := BackedHasLineup(heard, n, rec);
        events := LineupIsDelivered(rs, n, rec.iid, rec.ballot);
        HeardGots(rs, heard);
      }
      assert CanDeliver(n, heard, rec);
    }
  }
}
