/** The learner (paxos/learner.c): a window of instances, each closed by a counting test. */
module Learners {
  import opened PaxosTypes
  import opened Majorities

  datatype Slot = Slot(iid: nat, lastUpdateBallot: nat, acks: seq<Option<Record>>, finalValue: Option<Record>)

  datatype LearnerState = LearnerState(
    quorum: nat, acceptors: nat, lateStart: bool,
    currentIid: nat, highestIidSeen: nat, highestIidClosed: nat,
    instances: seq<Slot>)

  function EmptySlot(n: nat): Slot {
    Slot(0, 0, seq(n, _ => None), None)
  }

  function NewLearner(n: nat, window: nat, catchUp: bool): LearnerState {
    LearnerState(PaxosQuorum(n), n, !catchUp, 1, 1, 1, seq(window, _ => EmptySlot(n)))
  }

  // ---- the closing test -------------------------------------------------------------

  predicate Matches(ack: Option<Record>, b: nat) {
    ack.Some? && ack.value.ballot == b
  }

  /** The counting loop of `instance_has_quorum` from position `i`: the count and the last
      position counted. A final acknowledgement ends it with a count above any quorum. */
  function Scan(acks: seq<Option<Record>>, b: nat, i: nat, count: nat, index: int): (nat, int)
    requires i <= |acks|
    decreases |acks| - i
  {
    if i == |acks| then (count, index)
    else if !Matches(acks[i], b) then Scan(acks, b, i + 1, count, index)
    else if acks[i].value.isFinal then (count + 1 + |acks|, i)
    else Scan(acks, b, i + 1, count + 1, i)
  }

  /** The acceptors whose stored acknowledgement has this ballot. */
  ghost function Agreeing(acks: seq<Option<Record>>, b: nat): set<nat> {
    set i: nat | i < |acks| && Matches(acks[i], b)
  }

  ghost predicate HasFinal(acks: seq<Option<Record>>) {
    exists i :: 0 <= i < |acks| && acks[i].Some? && acks[i].value.isFinal
  }

  /** The exhaustive test: some ballot has a quorum, or a final acknowledgement is stored. */
  ghost predicate Exhaustive(acks: seq<Option<Record>>, q: nat) {
    (exists b: nat :: |Agreeing(acks, b)| >= q) || HasFinal(acks)
  }

  ghost function AgreeingBefore(acks: seq<Option<Record>>, b: nat, k: nat): set<nat>
    requires k <= |acks|
  {
    set i: nat | i < k && Matches(acks[i], b)
  }

  /** No agreeing acknowledgement from position `i` on is final. */
  ghost predicate NoFinalFrom(acks: seq<Option<Record>>, b: nat, i: nat) {
    forall j :: i <= j < |acks| && Matches(acks[j], b) ==> !acks[j].value.isFinal
  }

  lemma {:induction false} ScanMeaning(acks: seq<Option<Record>>, b: nat, i: nat, count: nat, index: int)
    requires i <= |acks| && count == |AgreeingBefore(acks, b, i)|
    requires count > 0 ==> 0 <= index < i && Matches(acks[index], b)
    requires forall j :: j in AgreeingBefore(acks, b, i) ==> j <= index
    ensures var (c, k) := Scan(acks, b, i, count, index);
      && (c > 0 ==> 0 <= k < |acks| && Matches(acks[k], b))
      && (c == |Agreeing(acks, b)| || (c > |acks| && 0 <= k < |acks| && acks[k].value.isFinal))
      && (c <= |acks| ==> NoFinalFrom(acks, b, i) && forall j :: j in Agreeing(acks, b) ==> j <= k)
    decreases |acks| - i
  {
    if i == |acks| {
      assert AgreeingBefore(acks, b, i) == Agreeing(acks, b);
      AgreeingSize(acks, b);
    } else if !Matches(acks[i], b) {
      assert AgreeingBefore(acks, b, i + 1) == AgreeingBefore(acks, b, i);
      ScanMeaning(acks, b, i + 1, count, index);
    } else if !acks[i].value.isFinal {
      assert AgreeingBefore(acks, b, i + 1) == AgreeingBefore(acks, b, i) + {i};
      ScanMeaning(acks, b, i + 1, count + 1, i);
    }
  }

  lemma AgreeingSize(acks: seq<Option<Record>>, b: nat)
    ensures |Agreeing(acks, b)| <= |acks|
  {
    SubsetSize(Agreeing(acks, b), Ids(|acks|));
    IdsSize(|acks|);
  }

  /** `instance_has_quorum`: the final value after the test, if the instance is closed. */
  function Closing(inst: Slot, q: nat): Option<Record> {
    if inst.finalValue.Some? then inst.finalValue
    else
      var (count, index) := Scan(inst.acks, inst.lastUpdateBallot, 0, 0, -1);
      if count >= q && 0 <= index < |inst.acks| then inst.acks[index] else None
  }

  function Tested(inst: Slot, q: nat): Slot {
    inst.(finalValue := Closing(inst, q))
  }

  /** What an open slot's test decides, in terms of the stored acknowledgements. */
  lemma ClosingMeaning(inst: Slot, q: nat)
    requires inst.finalValue.None? && 1 <= q <= |inst.acks|
    ensures var b, f := inst.lastUpdateBallot, Closing(inst, q);
      && (f.Some? <==>
            (|Agreeing(inst.acks, b)| >= q
             || exists i :: 0 <= i < |inst.acks| && Matches(inst.acks[i], b) && inst.acks[i].value.isFinal))
      && (f.Some? ==> f.value.ballot == b && FinalOk(inst.acks, f.value, q))
  {
    var b := inst.lastUpdateBallot;
    assert AgreeingBefore(inst.acks, b, 0) == {};
    ScanMeaning(inst.acks, b, 0, 0, -1);
    AgreeingSize(inst.acks, b);
    var (c, k) := Scan(inst.acks, b, 0, 0, -1);
    if Closing(inst, q).Some? {
      assert FinalAt(inst.acks, inst.acks[k].value, q, k);
    }
  }

  /** `f` is stored at position `k` and is final, or a quorum agrees with it of which none is
      final and it is the last. */
  ghost predicate FinalAt(acks: seq<Option<Record>>, f: Record, q: nat, k: nat) {
    && k < |acks| && acks[k] == Some(f)
    && (f.isFinal
        || (|Agreeing(acks, f.ballot)| >= q && NoFinalFrom(acks, f.ballot, 0)
            && forall j :: j in Agreeing(acks, f.ballot) ==> j <= k))
  }

  ghost predicate FinalOk(acks: seq<Option<Record>>, f: Record, q: nat) {
    exists k: nat :: FinalAt(acks, f, q, k)
  }

  // ---- the handlers -----------------------------------------------------------------

  /** `learner_update_instance` on the slot of the acknowledged instance. */
  function UpdateSlot(slot: Slot, ack: Record, q: nat): Slot
    requires ack.acceptor < |slot.acks|
  {
    var inst := if slot.iid == 0 then slot.(iid := ack.iid, lastUpdateBallot := ack.ballot) else slot;
    var tested := Tested(inst, q);
    if tested.finalValue.Some? then tested
    else if inst.acks[ack.acceptor].None? || inst.acks[ack.acceptor].value.ballot < ack.ballot then
      tested.(acks := inst.acks[ack.acceptor := Some(ack)], lastUpdateBallot := ack.ballot)
    else tested
  }

  /** The slot after the update and the second test. */
  function Received(slot: Slot, ack: Record, q: nat): Slot
    requires ack.acceptor < |slot.acks|
  {
    Tested(UpdateSlot(slot, ack, q), q)
  }

  ghost predicate Fits(l: LearnerState, ack: Record) {
    && |l.instances| >= 1 && ack.iid >= 1
    && forall k :: 0 <= k < |l.instances| ==> ack.acceptor < |l.instances[k].acks|
  }

  /** The late start and the high-water mark, before the window test. */
  function Noticed(l: LearnerState, ack: Record): LearnerState {
    l.(lateStart := false,
       currentIid := if l.lateStart then ack.iid else l.currentIid,
       highestIidSeen := if ack.iid > l.highestIidSeen then ack.iid else l.highestIidSeen)
  }

  predicate InWindow(l: LearnerState, iid: nat) {
    l.currentIid <= iid < l.currentIid + |l.instances|
  }

  function Receive(l: LearnerState, ack: Record): LearnerState
    requires Fits(l, ack)
  {
    var n := Noticed(l, ack);
    if !InWindow(n, ack.iid) then n
    else
      var k := ack.iid % |n.instances|;
      var slot := Received(n.instances[k], ack, n.quorum);
      n.(instances := n.instances[k := slot],
         highestIidClosed := if slot.finalValue.Some? && slot.iid > n.highestIidClosed then slot.iid
                             else n.highestIidClosed)
  }

  function Deliver(l: LearnerState): (LearnerState, Option<Record>)
    requires |l.instances| >= 1
  {
    var k := l.currentIid % |l.instances|;
    var slot := Tested(l.instances[k], l.quorum);
    if slot.finalValue.Some? then
      (l.(instances := l.instances[k := EmptySlot(l.acceptors)], currentIid := l.currentIid + 1), slot.finalValue)
    else (l.(instances := l.instances[k := slot]), None)
  }

  /** `learner_has_holes`: the range to ask the acceptors for. */
  function Holes(l: LearnerState): Option<(nat, nat)> {
    if l.highestIidSeen > l.currentIid + |l.instances| then Some((l.currentIid, l.highestIidSeen))
    else if l.highestIidClosed > l.currentIid then Some((l.currentIid, l.highestIidClosed))
    else None
  }

  // ---- the invariant ---------------------------------------------------------------------

  /** A slot in use: the closing test on the last-updated ballot has found exactly what the
      exhaustive test would find, and a final value is one of the stored acknowledgements. */
  ghost predicate UsedOk(slot: Slot, n: nat) {
    && slot.iid >= 1 && |slot.acks| == n
    && (forall a :: 0 <= a < n && slot.acks[a].Some? ==>
          slot.acks[a].value.acceptor == a && slot.acks[a].value.iid == slot.iid)
    && (slot.finalValue.Some? <==> Exhaustive(slot.acks, PaxosQuorum(n)))
    && (slot.finalValue.Some? ==> FinalOk(slot.acks, slot.finalValue.value, PaxosQuorum(n)))
  }

  ghost predicate SlotOk(l: LearnerState, k: nat, slot: Slot)
    requires |l.instances| >= 1
  {
    if slot.iid == 0 then slot == EmptySlot(l.acceptors)
    else
      && slot.iid % |l.instances| == k && InWindow(l, slot.iid) && UsedOk(slot, l.acceptors)
      && (slot.finalValue.Some? ==> slot.iid <= l.highestIidClosed)
  }

  ghost predicate Valid(l: LearnerState) {
    && l.acceptors >= 1 && l.quorum == PaxosQuorum(l.acceptors)
    && |l.instances| >= 1 && l.currentIid >= 1
    && (forall k :: 0 <= k < |l.instances| ==> SlotOk(l, k, l.instances[k]))
    && (l.lateStart ==> forall k :: 0 <= k < |l.instances| ==> l.instances[k].iid == 0)
    && (l.highestIidClosed > 1 && l.highestIidClosed >= l.currentIid ==> ClosedIn(l, l.highestIidClosed))
  }

  /** Instance `iid` is closed and waiting in the window. */
  ghost predicate ClosedIn(l: LearnerState, iid: nat)
    requires |l.instances| >= 1
  {
    var slot := l.instances[iid % |l.instances|];
    slot.iid == iid && slot.finalValue.Some?
  }

  lemma ValidFits(l: LearnerState, ack: Record)
    requires Valid(l) && ack.acceptor < l.acceptors && ack.iid >= 1
    ensures Fits(l, ack)
  {
    forall k | 0 <= k < |l.instances|
      ensures ack.acceptor < |l.instances[k].acks|
    {
      assert SlotOk(l, k, l.instances[k]);
    }
  }

  // ---- the last-ballot test equals the exhaustive test -----------------------------------------

  /** Storing one acknowledgement can complete a quorum only at its own ballot. */
  lemma OnlyNewBallotCloses(acks: seq<Option<Record>>, ack: Record, q: nat)
    requires ack.acceptor < |acks| && !Exhaustive(acks, q) && 1 <= q
    ensures var acks' := acks[ack.acceptor := Some(ack)];
      Exhaustive(acks', q) <==> |Agreeing(acks', ack.ballot)| >= q || ack.isFinal
  {
    var acks' := acks[ack.acceptor := Some(ack)];
    if ack.isFinal {
      assert acks'[ack.acceptor].value.isFinal;
    }
    forall b: nat | b != ack.ballot
      ensures |Agreeing(acks', b)| < q
    {
      assert Agreeing(acks', b) <= Agreeing(acks, b);
      SubsetSize(Agreeing(acks', b), Agreeing(acks, b));
    }
  }

  lemma OpenTestFails(slot: Slot, q: nat)
    requires slot.finalValue.None? && 1 <= q <= |slot.acks| && !Exhaustive(slot.acks, q)
    ensures Tested(slot, q) == slot
  {
    ClosingMeaning(slot, q);
  }

  lemma NothingStored(n: nat)
    requires n >= 1
    ensures !Exhaustive(EmptySlot(n).acks, PaxosQuorum(n))
  {
    var acks := EmptySlot(n).acks;
    forall b: nat
      ensures |Agreeing(acks, b)| < PaxosQuorum(n)
    {
      assert Agreeing(acks, b) == {};
    }
  }

  lemma StoreThenTest(slot: Slot, ack: Record, n: nat)
    requires n >= 1 && |slot.acks| == n && slot.finalValue.None? && slot.iid == ack.iid >= 1
    requires ack.acceptor < n && UsedOk(slot, n)
    ensures UsedOk(Tested(slot.(acks := slot.acks[ack.acceptor := Some(ack)], lastUpdateBallot := ack.ballot),
                          PaxosQuorum(n)), n)
  {
    var q := PaxosQuorum(n);
    var stored := slot.(acks := slot.acks[ack.acceptor := Some(ack)], lastUpdateBallot := ack.ballot);
    OnlyNewBallotCloses(slot.acks, ack, q);
    ClosingMeaning(stored, q);
    assert stored.acks[ack.acceptor] == Some(ack);
    if ack.isFinal {
      assert Matches(stored.acks[ack.acceptor], ack.ballot);
    }
    if Closing(stored, q).Some? && |Agreeing(stored.acks, ack.ballot)| < q {
      var i :| 0 <= i < n && Matches(stored.acks[i], ack.ballot) && stored.acks[i].value.isFinal;
      assert forall j :: 0 <= j < n && slot.acks[j].Some? ==> !slot.acks[j].value.isFinal;
      assert i == ack.acceptor;
    }
  }

  /** One acknowledgement against the slot of its instance. A closed slot does not change. */
  lemma ReceivedKeepsUsed(slot: Slot, ack: Record, n: nat)
    requires n >= 1 && ack.acceptor < n && ack.iid >= 1
    requires slot == EmptySlot(n) || (slot.iid == ack.iid && UsedOk(slot, n))
    ensures var r := Received(slot, ack, PaxosQuorum(n));
      && r.iid == ack.iid && UsedOk(r, n)
      && (slot.finalValue.Some? ==> r == slot)
  {
    var q := PaxosQuorum(n);
    var inst := if slot.iid == 0 then slot.(iid := ack.iid, lastUpdateBallot := ack.ballot) else slot;
    if slot.iid == 0 {
      NothingStored(n);
      assert UsedOk(inst, n);
    }
    if inst.finalValue.None? {
      OpenTestFails(inst, q);
      if inst.acks[ack.acceptor].None? || inst.acks[ack.acceptor].value.ballot < ack.ballot {
        StoreThenTest(inst, ack, n);
      }
    }
  }

  // ---- the window ------------------------------------------------------------------------------

  /** Two instances of one window in the same slot are the same instance. */
  lemma OnePerSlot(current: nat, size: nat, i: nat, j: nat)
    requires size >= 1 && current <= i < current + size && current <= j < current + size
    ensures i % size == j % size ==> i == j
  {
    var lo, hi := if i >= j then j else i, if i >= j then i else j;
    var m := hi / size - lo / size;
    assert hi == (hi / size) * size + hi % size;
    assert lo == (lo / size) * size + lo % size;
    if i % size == j % size {
      assert m * size == hi - lo;
      SmallMultiple(m, size);
    }
  }

  lemma SmallMultiple(m: int, size: nat)
    requires 0 <= m * size < size
    ensures m == 0
  {
  }

  /** Both assertions of the learner hold: the slot of an instance in the window is empty
      or holds that very instance. */
  lemma SlotHoldsInstance(l: LearnerState, iid: nat)
    requires Valid(l) && InWindow(l, iid)
    ensures var slot := l.instances[iid % |l.instances|];
      slot == EmptySlot(l.acceptors) || (slot.iid == iid && UsedOk(slot, l.acceptors))
  {
    var k := iid % |l.instances|;
    assert SlotOk(l, k, l.instances[k]);
    if l.instances[k].iid != 0 {
      OnePerSlot(l.currentIid, |l.instances|, iid, l.instances[k].iid);
    }
  }

  lemma NoticedKeepsValid(l: LearnerState, ack: Record)
    requires Valid(l) && ack.iid >= 1
    requires l.lateStart ==> l.highestIidClosed == 1
    ensures Valid(Noticed(l, ack))
  {
    var n := Noticed(l, ack);
    forall k | 0 <= k < |n.instances|
      ensures SlotOk(n, k, n.instances[k])
    {
      assert SlotOk(l, k, l.instances[k]);
    }
  }

  /** A learner that has not started has closed nothing. */
  ghost predicate Started(l: LearnerState) {
    l.lateStart ==> l.highestIidClosed == 1 && l.currentIid == 1
  }

  lemma StoreKeepsValid(l: LearnerState, ack: Record, slot: Slot)
    requires Valid(l) && !l.lateStart && ack.iid >= 1 && InWindow(l, ack.iid)
    requires slot.iid == ack.iid && UsedOk(slot, l.acceptors)
    requires l.instances[ack.iid % |l.instances|].finalValue.Some? ==> slot == l.instances[ack.iid % |l.instances|]
    ensures Valid(l.(instances := l.instances[ack.iid % |l.instances| := slot],
                     highestIidClosed := if slot.finalValue.Some? && slot.iid > l.highestIidClosed then slot.iid
                                         else l.highestIidClosed))
  {
    var k := ack.iid % |l.instances|;
    var m := l.(instances := l.instances[k := slot],
                highestIidClosed := if slot.finalValue.Some? && slot.iid > l.highestIidClosed then slot.iid
                                    else l.highestIidClosed);
    forall j | 0 <= j < |m.instances|
      ensures SlotOk(m, j, m.instances[j])
    {
      assert SlotOk(l, j, l.instances[j]);
    }
    if l.highestIidClosed > 1 && l.highestIidClosed >= l.currentIid && m.highestIidClosed == l.highestIidClosed {
      assert ClosedIn(l, l.highestIidClosed);
    }
  }

  lemma ReceiveKeepsValid(l: LearnerState, ack: Record)
    requires Valid(l) && Started(l) && ack.acceptor < l.acceptors && ack.iid >= 1
    ensures Fits(l, ack) && Valid(Receive(l, ack)) && Started(Receive(l, ack))
  {
    ValidFits(l, ack);
    NoticedKeepsValid(l, ack);
    var n := Noticed(l, ack);
    if InWindow(n, ack.iid) {
      SlotHoldsInstance(n, ack.iid);
      var k := ack.iid % |n.instances|;
      ReceivedKeepsUsed(n.instances[k], ack, n.acceptors);
      StoreKeepsValid(n, ack, Received(n.instances[k], ack, n.quorum));
    }
  }

  /** The current slot's test has nothing left to find. */
  lemma CurrentIsTested(l: LearnerState)
    requires Valid(l)
    ensures var slot := l.instances[l.currentIid % |l.instances|];
      && Tested(slot, l.quorum) == slot
      && (slot.finalValue.Some? ==>
            && slot.iid == l.currentIid && slot.finalValue.value.iid == l.currentIid
            && FinalOk(slot.acks, slot.finalValue.value, l.quorum))
  {
    var k := l.currentIid % |l.instances|;
    var slot := l.instances[k];
    SlotHoldsInstance(l, l.currentIid);
    if slot.iid == 0 {
      NothingStored(l.acceptors);
    }
    if slot.finalValue.None? {
      OpenTestFails(slot, l.quorum);
    } else {
      var a :| 0 <= a < |slot.acks| && slot.acks[a] == slot.finalValue;
    }
  }

  lemma DeliverKeepsValid(l: LearnerState)
    requires Valid(l)
    ensures Valid(Deliver(l).0)
    ensures Deliver(l).1.None? ==> Deliver(l).0 == l
    ensures Deliver(l).1.Some? ==> Deliver(l).1.value.iid == l.currentIid && Deliver(l).0.currentIid == l.currentIid + 1
  {
    CurrentIsTested(l);
    var k := l.currentIid % |l.instances|;
    var (m, r) := Deliver(l);
    if r.None? {
      assert l.instances[k := l.instances[k]] == l.instances;
    } else {
      forall j | 0 <= j < |m.instances|
        ensures SlotOk(m, j, m.instances[j])
      {
        assert SlotOk(l, j, l.instances[j]);
      }
      if m.highestIidClosed > 1 && m.highestIidClosed >= m.currentIid {
        var h := l.highestIidClosed;
        assert ClosedIn(l, h) && SlotOk(l, h % |l.instances|, l.instances[h % |l.instances|]);
        OnePerSlot(l.currentIid, |l.instances|, h, l.currentIid);
        assert ClosedIn(m, h);
      }
    }
  }

  // ---- holes -------------------------------------------------------------------------------------

  /** Delivery has been drained: the current instance is not closed. */
  ghost predicate CaughtUp(l: LearnerState)
    requires |l.instances| >= 1
  {
    Deliver(l).1.None?
  }

  /** Some closed instance is waiting in the window. */
  ghost predicate Waiting(l: LearnerState)
    requires |l.instances| >= 1
  {
    exists iid: nat :: InWindow(l, iid) && ClosedIn(l, iid)
  }

  lemma WaitingIsMarked(l: LearnerState, iid: nat)
    requires Valid(l) && InWindow(l, iid) && ClosedIn(l, iid)
    ensures iid <= l.highestIidClosed
  {
    assert SlotOk(l, iid % |l.instances|, l.instances[iid % |l.instances|]);
  }

  lemma MarkedIsWaiting(l: LearnerState)
    requires Valid(l) && l.highestIidClosed > l.currentIid
    ensures InWindow(l, l.highestIidClosed) && ClosedIn(l, l.highestIidClosed)
  {
    var k := l.highestIidClosed % |l.instances|;
    assert SlotOk(l, k, l.instances[k]);
  }

  /** After draining, a hole is reported exactly when some closed instance is waiting in the
      window or an instance above `currentIid + |instances|` has been seen. The report starts
      at the first undelivered instance, which is open, covers every waiting one, and ends at the
      highest one seen or at the highest waiting one. The first
      instance beyond the window is not covered by it alone: see `DroppedIsReportedIff`. */
  lemma HolesAreExact(l: LearnerState)
    requires Valid(l) && CaughtUp(l)
    ensures Holes(l).Some? <==> (Waiting(l) || l.highestIidSeen > l.currentIid + |l.instances|)
    ensures Holes(l).Some? ==> Holes(l).value.0 == l.currentIid < Holes(l).value.1 && !ClosedIn(l, l.currentIid)
    ensures forall iid: nat :: InWindow(l, iid) && ClosedIn(l, iid) ==>
              Holes(l).Some? && Holes(l).value.0 < iid <= Holes(l).value.1
    ensures Holes(l).Some? ==>
              if l.highestIidSeen > l.currentIid + |l.instances| then Holes(l).value.1 == l.highestIidSeen
              else InWindow(l, Holes(l).value.1) && ClosedIn(l, Holes(l).value.1)
  {
    CurrentIsTested(l);
    assert !ClosedIn(l, l.currentIid);
    forall iid: nat | InWindow(l, iid) && ClosedIn(l, iid)
      ensures l.currentIid < iid <= l.highestIidClosed
    {
      WaitingIsMarked(l, iid);
    }
    if l.highestIidClosed > l.currentIid {
      MarkedIsWaiting(l);
    }
  }

  // ---- whole runs ---------------------------------------------------------------------------------

  datatype Event = Got(ack: Record) | DeliverNext

  ghost predicate EventOk(n: nat, e: Event) {
    e.Got? ==> e.ack.acceptor < n && e.ack.iid >= 1
  }

  ghost predicate EventsOk(n: nat, events: seq<Event>) {
    forall k :: 0 <= k < |events| ==> EventOk(n, events[k])
  }

  ghost function After(l: LearnerState, e: Event): LearnerState
    requires Valid(l) && Started(l) && EventOk(l.acceptors, e)
  {
    match e
    case Got(ack) =>
      ReceiveKeepsValid(l, ack);
      Receive(l, ack)
    case DeliverNext => Deliver(l).0
  }

  ghost function Delivers(l: LearnerState, e: Event): seq<Record>
    requires Valid(l)
  {
    if e.DeliverNext? && Deliver(l).1.Some? then [Deliver(l).1.value] else []
  }

  lemma AfterKeepsValid(l: LearnerState, e: Event)
    requires Valid(l) && Started(l) && EventOk(l.acceptors, e)
    ensures Valid(After(l, e)) && Started(After(l, e))
    ensures After(l, e).acceptors == l.acceptors && |After(l, e).instances| == |l.instances|
  {
    match e
    case Got(ack) => ReceiveKeepsValid(l, ack);
    case DeliverNext =>
      DeliverKeepsValid(l);
      if l.lateStart {
        CurrentIsTested(l);
      }
  }

  /** The learner after the events, and everything it delivered. */
  ghost function Run(n: nat, window: nat, catchUp: bool, events: seq<Event>): (r: (LearnerState, seq<Record>))
    requires n >= 1 && window >= 1 && EventsOk(n, events)
    ensures Valid(r.0) && Started(r.0) && r.0.acceptors == n && |r.0.instances| == window
  {
    if events == [] then
      NewIsValid(n, window, catchUp);
      (NewLearner(n, window, catchUp), [])
    else
      var (l, log) := Run(n, window, catchUp, events[..|events| - 1]);
      var e := events[|events| - 1];
      AfterKeepsValid(l, e);
      (After(l, e), log + Delivers(l, e))
  }

  lemma NewIsValid(n: nat, window: nat, catchUp: bool)
    requires n >= 1 && window >= 1
    ensures Valid(NewLearner(n, window, catchUp)) && Started(NewLearner(n, window, catchUp))
  {
  }

  /** The instance of the first acknowledgement heard, if any. */
  ghost function FirstHeard(events: seq<Event>): Option<nat> {
    if events == [] then None
    else
      var before := FirstHeard(events[..|events| - 1]);
      if before.None? && events[|events| - 1].Got? then Some(events[|events| - 1].ack.iid) else before
  }

  /** Where the log begins: at 1, or for a late starter at the first instance it hears of. */
  ghost function Origin(catchUp: bool, first: Option<nat>): nat {
    if catchUp || first.None? then 1 else first.value
  }

  /** The log is consecutive from the origin and the learner waits for the next instance. */
  ghost predicate Consecutive(l: LearnerState, log: seq<Record>, catchUp: bool, first: Option<nat>) {
    && (forall k :: 0 <= k < |log| ==> log[k].iid == Origin(catchUp, first) + k)
    && l.currentIid == Origin(catchUp, first) + |log|
    && (l.lateStart <==> !catchUp && first.None?)
    && (l.lateStart ==> log == [])
  }

  lemma ReceiveKeepsConsecutive(l: LearnerState, log: seq<Record>, catchUp: bool, first: Option<nat>, ack: Record)
    requires Valid(l) && Started(l) && ack.acceptor < l.acceptors && ack.iid >= 1
    requires Consecutive(l, log, catchUp, first)
    ensures Fits(l, ack) && Consecutive(Receive(l, ack), log, catchUp, if first.None? then Some(ack.iid) else first)
  {
    ValidFits(l, ack);
  }

  lemma DeliverKeepsConsecutive(l: LearnerState, log: seq<Record>, catchUp: bool, first: Option<nat>)
    requires Valid(l) && Started(l) && Consecutive(l, log, catchUp, first)
    ensures Consecutive(Deliver(l).0, log + Delivers(l, DeliverNext), catchUp, first)
  {
    DeliverKeepsValid(l);
    CurrentIsTested(l);
  }

  /** For every interleaving of receive and deliver, late start or not, deliveries are
      consecutive instances from the origin, without gap or repetition. */
  lemma {:induction false} DeliveriesAreConsecutive(n: nat, window: nat, catchUp: bool, events: seq<Event>)
    requires n >= 1 && window >= 1 && EventsOk(n, events)
    ensures var (l, log) := Run(n, window, catchUp, events);
      Consecutive(l, log, catchUp, FirstHeard(events))
  {
    if events != [] {
      var init, e := events[..|events| - 1], events[|events| - 1];
      DeliveriesAreConsecutive(n, window, catchUp, init);
      var (l, log) := Run(n, window, catchUp, init);
      match e
      case Got(ack) => ReceiveKeepsConsecutive(l, log, catchUp, FirstHeard(init), ack);
      case DeliverNext => DeliverKeepsConsecutive(l, log, catchUp, FirstHeard(init));
    }
  }

  /** The high-water mark is the highest instance heard of, or 1. */
  lemma {:induction false} SeenIsMaximum(n: nat, window: nat, catchUp: bool, events: seq<Event>)
    requires n >= 1 && window >= 1 && EventsOk(n, events)
    ensures var h := Run(n, window, catchUp, events).0.highestIidSeen;
      && (forall x :: x in Heard(events) ==> x.iid <= h)
      && (h == 1 || exists x :: x in Heard(events) && x.iid == h)
  {
    if events != [] {
      var init, e := events[..|events| - 1], events[|events| - 1];
      SeenIsMaximum(n, window, catchUp, init);
      HeardGrows(events);
      var l := Run(n, window, catchUp, init).0;
      if e.Got? {
        ReceiveKeepsValid(l, e.ack);
        assert e.ack in Heard(events);
      }
    }
  }

  /** The hole report of `l` asks for the instance. */
  ghost predicate Reports(l: LearnerState, iid: nat) {
    Holes(l).Some? && Holes(l).value.0 <= iid <= Holes(l).value.1
  }

  /** An acknowledgement for an instance beyond the window is dropped. After draining, the hole
      report covers that instance if and only if something above `currentIid + |instances|` was
      heard: the first instance beyond the window is dropped and not asked for again as long as
      nothing higher is heard. */
  lemma DroppedIsReportedIff(n: nat, window: nat, catchUp: bool, events: seq<Event>, iid: nat)
    requires n >= 1 && window >= 1 && EventsOk(n, events)
    requires var l := Run(n, window, catchUp, events).0; CaughtUp(l) && iid >= l.currentIid + window
    requires exists x :: x in Heard(events) && x.iid == iid
    ensures var l := Run(n, window, catchUp, events).0;
      Reports(l, iid) <==> exists x :: x in Heard(events) && x.iid > l.currentIid + window
  {
    var l := Run(n, window, catchUp, events).0;
    SeenIsMaximum(n, window, catchUp, events);
    HolesAreExact(l);
    var x :| x in Heard(events) && x.iid == iid;
    if l.highestIidClosed > l.currentIid {
      MarkedIsWaiting(l);
    }
  }

  /** What `learner_check_holes` asks the acceptors for: at most 10000 instances of the reported
      range, its end excluded. */
  ghost predicate Asks(l: LearnerState, iid: nat) {
    Holes(l).Some? && Holes(l).value.0 <= iid < Holes(l).value.1 && iid < Holes(l).value.0 + 10000
  }

  lemma BeyondWindowIsAskedForIff(l: LearnerState, iid: nat)
    requires Valid(l) && l.currentIid + |l.instances| <= iid <= l.highestIidSeen
    ensures Asks(l, iid) <==> iid < l.highestIidSeen && iid < l.currentIid + 10000
  {
    if l.highestIidClosed > l.currentIid {
      MarkedIsWaiting(l);
    }
  }

  /** An instance beyond the window is asked for again if and only if a higher one was heard of
      and it is among the next 10000: the highest one never is. */
  lemma DroppedIsAskedForIff(n: nat, window: nat, catchUp: bool, events: seq<Event>, iid: nat)
    requires n >= 1 && window >= 1 && EventsOk(n, events)
    requires iid >= Run(n, window, catchUp, events).0.currentIid + window
    requires exists x :: x in Heard(events) && x.iid == iid
    ensures var l := Run(n, window, catchUp, events).0;
      Asks(l, iid) <==> (exists x :: x in Heard(events) && x.iid > iid) && iid < l.currentIid + 10000
  {
    SeenIsMaximum(n, window, catchUp, events);
    BeyondWindowIsAskedForIff(Run(n, window, catchUp, events).0, iid);
  }

  /** The failing input: a learner with a window of one hears of instance 2, drops it, has
      nothing to deliver, and reports no hole. */
  lemma FirstBeyondWindowIsForgotten(ack: Record)
    requires ack.acceptor == 0 && ack.iid == 2
    ensures EventsOk(1, [Got(ack)])
    ensures var l := Run(1, 1, true, [Got(ack)]).0;
      l.highestIidSeen == 2 && !InWindow(l, 2) && CaughtUp(l) && !Waiting(l) && Holes(l) == None
  {
    var events := [Got(ack)];
    assert events[..0] == [];
    NewIsValid(1, 1, true);
    var l := NewLearner(1, 1, true);
    ReceiveKeepsValid(l, ack);
    assert Run(1, 1, true, events).0 == Noticed(l, ack);
    CurrentIsTested(Noticed(l, ack));
  }

  /** After any events, every instance in the window is closed exactly when the exhaustive test
      over its stored acknowledgements says so, although the code looks only at the ballot
      stored last; and its final value is a stored acknowledgement that the test vouches for. */
  lemma LastBallotTestIsExhaustive(n: nat, window: nat, catchUp: bool, events: seq<Event>, iid: nat)
    requires n >= 1 && window >= 1 && EventsOk(n, events) && InWindow(Run(n, window, catchUp, events).0, iid)
    ensures var l := Run(n, window, catchUp, events).0; var slot := l.instances[iid % window];
      && (ClosedIn(l, iid) <==> Exhaustive(slot.acks, PaxosQuorum(n)))
      && (ClosedIn(l, iid) ==> FinalOk(slot.acks, slot.finalValue.value, PaxosQuorum(n)))
  {
    SlotHoldsInstance(Run(n, window, catchUp, events).0, iid);
    NothingStored(n);
  }

  /** An event delivers a closed instance or leaves it as it is. */
  lemma ClosedStaysOneStep(l: LearnerState, e: Event, iid: nat)
    requires Valid(l) && Started(l) && EventOk(l.acceptors, e)
    requires InWindow(l, iid) && ClosedIn(l, iid)
    ensures (e.DeliverNext? && iid == l.currentIid && Delivers(l, e) == [l.instances[iid % |l.instances|].finalValue.value])
            || (InWindow(After(l, e), iid)
                && After(l, e).instances[iid % |l.instances|] == l.instances[iid % |l.instances|])
  {
    var k := iid % |l.instances|;
    match e
    case DeliverNext =>
      CurrentIsTested(l);
      OnePerSlot(l.currentIid, |l.instances|, iid, l.currentIid);
      assert l.instances[k := l.instances[k]] == l.instances;
    case Got(ack) =>
      ReceiveKeepsValid(l, ack);
      assert !l.lateStart;
      if InWindow(l, ack.iid) && ack.iid % |l.instances| == k {
        OnePerSlot(l.currentIid, |l.instances|, iid, ack.iid);
        assert SlotOk(l, k, l.instances[k]);
        ReceivedKeepsUsed(l.instances[k], ack, l.acceptors);
      }
  }

  /** The record is in the log from position `from` on. */
  ghost predicate DeliveredSince(log: seq<Record>, from: nat, rec: Record) {
    exists j :: from <= j < |log| && log[j] == rec
  }

  lemma DeliveredStays(log: seq<Record>, more: seq<Record>, from: nat, rec: Record)
    requires DeliveredSince(log, from, rec)
    ensures DeliveredSince(log + more, from, rec)
  {
    var j :| from <= j < |log| && log[j] == rec;
    assert (log + more)[j] == rec;
  }

  /** Once an instance is closed, whatever happens next, its final value is delivered or its slot
      is still exactly what it was. */
  lemma {:induction false} ClosedStaysUntilDelivered(n: nat, window: nat, catchUp: bool, events: seq<Event>, k: nat, iid: nat)
    requires n >= 1 && window >= 1 && EventsOk(n, events) && k <= |events|
    requires var l := Run(n, window, catchUp, events[..k]).0; InWindow(l, iid) && ClosedIn(l, iid)
    ensures var (l0, log0) := Run(n, window, catchUp, events[..k]); var (l, log) := Run(n, window, catchUp, events);
      && |log0| <= |log|
      && (DeliveredSince(log, |log0|, l0.instances[iid % window].finalValue.value)
          || (InWindow(l, iid) && l.instances[iid % window] == l0.instances[iid % window]))
    decreases |events|
  {
    if k == |events| {
      assert events[..k] == events;
    } else {
      var init, e := events[..|events| - 1], events[|events| - 1];
      assert init[..k] == events[..k];
      ClosedStaysUntilDelivered(n, window, catchUp, init, k, iid);
      var (l0, log0) := Run(n, window, catchUp, events[..k]);
      var (l, log) := Run(n, window, catchUp, init);
      ClosedStepsOn(l, log, e, iid, |log0|, l0.instances[iid % window]);
    }
  }

  lemma ClosedStepsOn(l: LearnerState, log: seq<Record>, e: Event, iid: nat, from: nat, slot: Slot)
    requires Valid(l) && Started(l) && EventOk(l.acceptors, e) && from <= |log|
    requires slot.iid == iid && slot.finalValue.Some?
    requires DeliveredSince(log, from, slot.finalValue.value)
             || (InWindow(l, iid) && l.instances[iid % |l.instances|] == slot)
    ensures DeliveredSince(log + Delivers(l, e), from, slot.finalValue.value)
            || (InWindow(After(l, e), iid) && After(l, e).instances[iid % |l.instances|] == slot)
  {
    if DeliveredSince(log, from, slot.finalValue.value) {
      DeliveredStays(log, Delivers(l, e), from, slot.finalValue.value);
    } else {
      ClosedStaysOneStep(l, e, iid);
      if Delivers(l, e) == [slot.finalValue.value] {
        assert (log + Delivers(l, e))[|log|] == slot.finalValue.value;
      }
    }
  }

  // ---- what stands behind a delivery -----------------------------------------------------------------

  ghost function Heard(events: seq<Event>): set<Record> {
    set k: nat | k < |events| && events[k].Got? :: events[k].ack
  }

  /** The acceptors up to that of `rec` from whom an acknowledgement for its instance and ballot
      was heard that is not final. */
  ghost function Supporters(heard: set<Record>, n: nat, rec: Record): set<nat> {
    set a | a in Ids(n) && a <= rec.acceptor && Supports(heard, a, rec)
  }

  ghost predicate Supports(heard: set<Record>, a: nat, rec: Record) {
    exists x :: x in heard && x.acceptor == a && x.iid == rec.iid && x.ballot == rec.ballot && !x.isFinal
  }

  ghost predicate Backed(heard: set<Record>, n: nat, rec: Record) {
    rec in heard && (rec.isFinal || |Supporters(heard, n, rec)| >= PaxosQuorum(n))
  }

  ghost predicate StoredWasHeard(heard: set<Record>, slot: Slot) {
    forall a :: 0 <= a < |slot.acks| && slot.acks[a].Some? ==> slot.acks[a].value in heard
  }

  ghost predicate AllHeard(heard: set<Record>, l: LearnerState) {
    forall k :: 0 <= k < |l.instances| ==> StoredWasHeard(heard, l.instances[k])
  }

  lemma HeardGrows(events: seq<Event>)
    requires events != []
    ensures var e := events[|events| - 1];
      Heard(events) == Heard(events[..|events| - 1]) + (if e.Got? then {e.ack} else {})
  {
    var init, e := events[..|events| - 1], events[|events| - 1];
    forall x | x in Heard(init)
      ensures x in Heard(events)
    {
      var k: nat :| k < |init| && init[k].Got? && init[k].ack == x;
      assert events[k].Got? && events[k].ack == x;
    }
    forall x | x in Heard(events)
      ensures x in Heard(init) + (if e.Got? then {e.ack} else {})
    {
      var k: nat :| k < |events| && events[k].Got? && events[k].ack == x;
      if k < |init| { assert init[k].Got? && init[k].ack == x; }
    }
    if e.Got? {
      assert events[|events| - 1].ack == e.ack;
    }
  }

  lemma ReceiveStoresHeard(l: LearnerState, heard: set<Record>, ack: Record)
    requires Fits(l, ack) && AllHeard(heard, l)
    ensures AllHeard(heard + {ack}, Receive(l, ack))
  {
    var m := Receive(l, ack);
    forall k | 0 <= k < |m.instances|
      ensures StoredWasHeard(heard + {ack}, m.instances[k])
    {
      assert StoredWasHeard(heard, l.instances[k]);
    }
  }

  lemma DeliverStoresHeard(l: LearnerState, heard: set<Record>)
    requires |l.instances| >= 1 && AllHeard(heard, l)
    ensures AllHeard(heard, Deliver(l).0)
  {
    var m := Deliver(l).0;
    forall k | 0 <= k < |m.instances|
      ensures StoredWasHeard(heard, m.instances[k])
    {
      assert StoredWasHeard(heard, l.instances[k]);
    }
  }

  lemma DeliveredIsBacked(l: LearnerState, heard: set<Record>)
    requires Valid(l) && AllHeard(heard, l) && Deliver(l).1.Some?
    ensures Backed(heard, l.acceptors, Deliver(l).1.value)
  {
    CurrentIsTested(l);
    var k := l.currentIid % |l.instances|;
    var slot, f := l.instances[k], Deliver(l).1.value;
    assert StoredWasHeard(heard, slot);
    SlotHoldsInstance(l, l.currentIid);
    var at: nat :| FinalAt(slot.acks, f, l.quorum, at);
    assert f in heard && f.acceptor == at;
    if !f.isFinal {
      forall a | a in Agreeing(slot.acks, f.ballot)
        ensures a in Supporters(heard, l.acceptors, f)
      {
        assert slot.acks[a].value in heard;
      }
      SubsetSize(Agreeing(slot.acks, f.ballot), Supporters(heard, l.acceptors, f));
    }
  }

  lemma BackedStays(heard: set<Record>, heard': set<Record>, n: nat, rec: Record)
    requires heard <= heard' && Backed(heard, n, rec)
    ensures Backed(heard', n, rec)
  {
    SubsetSize(Supporters(heard, n, rec), Supporters(heard', n, rec));
  }

  /** Everything delivered was heard, and a majority of distinct acceptors with ids up to its own
      was heard for the same instance and ballot (or the acknowledgement was marked final). */
  lemma {:induction false} DeliveriesAreBacked(n: nat, window: nat, catchUp: bool, events: seq<Event>)
    requires n >= 1 && window >= 1 && EventsOk(n, events)
    ensures var (l, log) := Run(n, window, catchUp, events);
      && AllHeard(Heard(events), l)
      && forall k :: 0 <= k < |log| ==> Backed(Heard(events), n, log[k])
  {
    if events != [] {
      var init, e := events[..|events| - 1], events[|events| - 1];
      DeliveriesAreBacked(n, window, catchUp, init);
      HeardGrows(events);
      var (l, log) := Run(n, window, catchUp, init);
      BackedStep(l, log, Heard(init), Heard(events), e);
    }
  }

  lemma BackedStep(l: LearnerState, log: seq<Record>, heard: set<Record>, heard': set<Record>, e: Event)
    requires Valid(l) && Started(l) && EventOk(l.acceptors, e) && AllHeard(heard, l)
    requires forall k :: 0 <= k < |log| ==> Backed(heard, l.acceptors, log[k])
    requires heard' == heard + (if e.Got? then {e.ack} else {})
    ensures AllHeard(heard', After(l, e))
    ensures var log' := log + Delivers(l, e);
      forall k :: 0 <= k < |log'| ==> Backed(heard', l.acceptors, log'[k])
  {
    match e
    case Got(ack) =>
      ReceiveKeepsValid(l, ack);
      ReceiveStoresHeard(l, heard, ack);
      forall k | 0 <= k < |log|
        ensures Backed(heard', l.acceptors, log[k])
      {
        BackedStays(heard, heard', l.acceptors, log[k]);
      }
    case DeliverNext =>
      assert heard' == heard;
      DeliverStoresHeard(l, heard);
      if Deliver(l).1.Some? {
        DeliveredIsBacked(l, heard);
      }
  }
}
