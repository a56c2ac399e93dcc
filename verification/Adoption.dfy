/** Which value an instance of a proposer holds: what every promise did to it over a whole life
    (paxos/proposer.c:154-184). Nothing here is stated through the handler's own branch. */
module Adoption {
  import opened PaxosTypes
  import opened Proposers

  /** A value that was put before an instance, with the ballot it was accepted at. */
  datatype Offer = Offer(ballot: nat, value: Value)

  /** The first promise of its acceptor in this round, at the present ballot. */
  ghost predicate Counts(p: ProposerState, rec: Record)
    requires Valid(p) && rec.acceptor < p.acceptors
  {
    var k := Find(p.prepare, rec.iid);
    k < |p.prepare| && rec.ballot == p.prepare[k].ballot && p.prepare[k].quorum.flags[rec.acceptor] == 0
  }

  /** The front instance takes the next client value: it has its promises and nothing of its own. */
  ghost predicate TakesOwn(p: ProposerState) {
    && p.prepare != [] && p.prepare[0].value.None? && p.values != []
    && p.prepare[0].quorum.count >= p.prepare[0].quorum.quorum
  }

  /** What the event puts before the instance: the value of a counted promise, if it has one, or
      the proposer's own value, which counts as accepted at ballot 0. */
  ghost function OffersOf(p: ProposerState, e: Event, iid: nat): seq<Offer>
    requires Valid(p) && EventOk(p, e)
  {
    if e.GotPrepareAck? && e.rec.iid == iid && Counts(p, e.rec) && e.rec.value != []
    then [Offer(e.rec.valueBallot, e.rec.value)]
    else if e.Accept? && TakesOwn(p) && p.prepare[0].iid == iid then [Offer(0, p.values[0])]
    else []
  }

  /** Everything put before the instance in a life, in order. */
  ghost function Offers(id: nat, n: nat, events: seq<Event>, iid: nat): seq<Offer>
    requires id < MAX_N_OF_PROPOSERS && n >= 1 && RunOk(id, n, events)
  {
    if events == [] then []
    else
      var init := events[..|events| - 1];
      Offers(id, n, init, iid) + OffersOf(Run(id, n, init).p, events[|events| - 1], iid)
  }

  /** `x` is the first of the offers with the highest ballot. */
  ghost predicate FirstHighest(offers: seq<Offer>, x: Offer) {
    exists k :: 0 <= k < |offers| && offers[k] == x
      && (forall j :: 0 <= j < |offers| ==> offers[j].ballot <= x.ballot)
      && (forall j :: 0 <= j < k ==> offers[j].ballot < x.ballot)
  }

  /** All offers so far have a lower ballot. */
  ghost predicate Tops(offers: seq<Offer>, ballot: nat) {
    forall j :: 0 <= j < |offers| ==> offers[j].ballot < ballot
  }

  ghost predicate HoldsBest(inst: Instance, offers: seq<Offer>) {
    if offers == [] then inst.value.None? && inst.valueBallot == 0
    else inst.value.Some? && FirstHighest(offers, Offer(inst.valueBallot, inst.value.value))
  }

  ghost predicate BestHeld(p: ProposerState, iid: nat, offers: seq<Offer>) {
    && (forall k :: 0 <= k < |p.prepare| && p.prepare[k].iid == iid ==> HoldsBest(p.prepare[k], offers))
    && (forall k :: 0 <= k < |p.accept| && p.accept[k].iid == iid ==> HoldsBest(p.accept[k], offers))
    && (iid > p.nextPrepareIid ==> offers == [])
  }

  // ---- one offer more --------------------------------------------------------------------------

  lemma BetterOffer(inst: Instance, offers: seq<Offer>, x: Offer, inst': Instance)
    requires HoldsBest(inst, offers) && (inst.value.None? || x.ballot > inst.valueBallot)
    requires inst'.value == Some(x.value) && inst'.valueBallot == x.ballot
    ensures HoldsBest(inst', offers + [x]) && (offers == [] || Tops(offers, x.ballot))
  {
    assert (offers + [x])[|offers|] == x;
  }

  lemma NoBetterOffer(inst: Instance, offers: seq<Offer>, x: Offer, inst': Instance)
    requires HoldsBest(inst, offers) && inst.value.Some? && x.ballot <= inst.valueBallot
    requires inst'.value == inst.value && inst'.valueBallot == inst.valueBallot
    ensures HoldsBest(inst', offers + [x]) && !Tops(offers, x.ballot)
  {
    var y := Offer(inst.valueBallot, inst.value.value);
    var k :| 0 <= k < |offers| && offers[k] == y
      && (forall j :: 0 <= j < |offers| ==> offers[j].ballot <= y.ballot)
      && (forall j :: 0 <= j < k ==> offers[j].ballot < y.ballot);
    assert (offers + [x])[k] == y;
  }

  // ---- every event --------------------------------------------------------------------------------

  lemma PrepareAckOffers(p: ProposerState, rec: Record, now: int, iid: nat, offers: seq<Offer>)
    requires Valid(p) && EventOk(p, GotPrepareAck(rec, now)) && BestHeld(p, iid, offers)
    ensures BestHeld(ReceivePrepareAck(p, rec, now), iid, offers + OffersOf(p, GotPrepareAck(rec, now), iid))
  {
    var more := OffersOf(p, GotPrepareAck(rec, now), iid);
    var k := Find(p.prepare, rec.iid);
    if more == [] {
      assert offers + more == offers;
    } else {
      var inst, inst' := p.prepare[k], ReceivePrepareAck(p, rec, now).prepare[k];
      assert InstanceOk(p, inst);
      var x := Offer(rec.valueBallot, rec.value);
      if inst.value.None? || x.ballot > inst.valueBallot {
        BetterOffer(inst, offers, x, inst');
      } else {
        NoBetterOffer(inst, offers, x, inst');
      }
    }
  }

  lemma AcceptOffers(p: ProposerState, iid: nat, offers: seq<Offer>)
    requires Valid(p) && BestHeld(p, iid, offers)
    ensures BestHeld(AcceptNext(p), iid, offers + OffersOf(p, Accept, iid))
  {
    var more := OffersOf(p, Accept, iid);
    if CanAccept(p) {
      var q := AcceptNext(p);
      assert forall k :: 0 <= k < |q.prepare| ==> q.prepare[k] == p.prepare[k + 1];
      assert forall k :: 0 <= k < |p.accept| ==> q.accept[k] == p.accept[k];
      assert q.accept[|p.accept|] == Accepting(p);
      if more != [] {
        BetterOffer(p.prepare[0], offers, more[0], Accepting(p));
        assert InstanceOk(p, p.prepare[0]);
      }
    }
    if more == [] {
      assert offers + more == offers;
    }
  }

  lemma AcceptAckOffers(p: ProposerState, rec: Record, now: int, iid: nat, offers: seq<Offer>)
    requires Valid(p) && EventOk(p, GotAcceptAck(rec, now)) && BestHeld(p, iid, offers)
    ensures BestHeld(ReceiveAcceptAck(p, rec, now), iid, offers)
  {
    var k := Find(p.accept, rec.iid);
    if k < |p.accept| {
      WithoutIsRemoval(p.accept, k);
    }
  }

  lemma StepOffers(p: ProposerState, e: Event, iid: nat, offers: seq<Offer>)
    requires Valid(p) && EventOk(p, e) && BestHeld(p, iid, offers)
    ensures BestHeld(Next(p, e), iid, offers + OffersOf(p, e, iid))
  {
    if !e.GotPrepareAck? && !e.Accept? {
      assert offers + OffersOf(p, e, iid) == offers;
    }
    match e
    case GotPrepareAck(rec, now) => PrepareAckOffers(p, rec, now, iid, offers);
    case Accept => AcceptOffers(p, iid, offers);
    case GotAcceptAck(rec, now) => AcceptAckOffers(p, rec, now, iid, offers);
    case _ =>
  }

  lemma {:induction false} BestIsHeld(id: nat, n: nat, events: seq<Event>, iid: nat)
    requires id < MAX_N_OF_PROPOSERS && n >= 1 && RunOk(id, n, events)
    ensures BestHeld(Run(id, n, events).p, iid, Offers(id, n, events, iid))
  {
    if events != [] {
      var init := events[..|events| - 1];
      BestIsHeld(id, n, init, iid);
      StepOffers(Run(id, n, init).p, events[|events| - 1], iid, Offers(id, n, init, iid));
    }
  }

  // ---- theorems -------------------------------------------------------------------------------------

  /** Over every life an open instance holds the first of the offers with the highest ballot, across
      preemptions, and no value exactly when there was no offer. */
  lemma ValueIsFirstHighest(id: nat, n: nat, events: seq<Event>, inst: Instance)
    requires id < MAX_N_OF_PROPOSERS && n >= 1 && RunOk(id, n, events)
    requires inst in Run(id, n, events).p.prepare || inst in Run(id, n, events).p.accept
    ensures var offers := Offers(id, n, events, inst.iid);
      && (inst.value.None? <==> offers == [])
      && (inst.value.Some? ==> FirstHighest(offers, Offer(inst.valueBallot, inst.value.value)))
  {
    BestIsHeld(id, n, events, inst.iid);
  }

  lemma HigherThanBest(inst: Instance, offers: seq<Offer>, ballot: nat)
    requires HoldsBest(inst, offers)
    ensures inst.value.None? || ballot > inst.valueBallot <==> offers == [] || Tops(offers, ballot)
  {
    if inst.value.Some? && ballot <= inst.valueBallot {
      NoBetterOffer(inst, offers, Offer(ballot, []), inst);
    }
  }

  lemma AdoptingIff(p: ProposerState, rec: Record, offers: seq<Offer>)
    requires Valid(p) && rec.acceptor < p.acceptors && BestHeld(p, rec.iid, offers)
    ensures PrepareAckFits(p, rec)
    ensures Adopting(p, rec) <==>
              Counts(p, rec) && rec.value != [] && (offers == [] || Tops(offers, rec.valueBallot))
  {
    assert forall k :: 0 <= k < |p.prepare| ==> InstanceOk(p, p.prepare[k]);
    var k := Find(p.prepare, rec.iid);
    if k < |p.prepare| {
      HigherThanBest(p.prepare[k], offers, rec.valueBallot);
    }
  }

  /** A promise is adopted if and only if it is counted, has a value, and its value ballot is above
      those of all offers so far; the first offer is adopted at any ballot. */
  lemma AdoptsIffHigher(id: nat, n: nat, events: seq<Event>, rec: Record)
    requires id < MAX_N_OF_PROPOSERS && n >= 1 && RunOk(id, n, events) && rec.acceptor < n
    ensures var p, offers := Run(id, n, events).p, Offers(id, n, events, rec.iid);
      PrepareAckFits(p, rec)
      && (Adopting(p, rec) <==>
            Counts(p, rec) && rec.value != [] && (offers == [] || Tops(offers, rec.valueBallot)))
  {
    BestIsHeld(id, n, events, rec.iid);
    AdoptingIff(Run(id, n, events).p, rec, Offers(id, n, events, rec.iid));
  }

  /** What a promise does to the queue of client values: nothing, unless it tops earlier offers; then
      the best of them goes to the end of the queue. */
  lemma PromiseRequeues(id: nat, n: nat, events: seq<Event>, rec: Record, now: int)
    requires id < MAX_N_OF_PROPOSERS && n >= 1 && RunOk(id, n, events) && rec.acceptor < n
    ensures var p, offers := Run(id, n, events).p, Offers(id, n, events, rec.iid);
      && EventOk(p, GotPrepareAck(rec, now))
      && var values' := Next(p, GotPrepareAck(rec, now)).values;
         if Counts(p, rec) && rec.value != [] && offers != [] && Tops(offers, rec.valueBallot)
         then exists x :: FirstHighest(offers, x) && values' == p.values + [x.value]
         else values' == p.values
  {
    BestIsHeld(id, n, events, rec.iid);
    RequeuesBest(Run(id, n, events).p, rec, now, Offers(id, n, events, rec.iid));
  }

  lemma RequeuesBest(p: ProposerState, rec: Record, now: int, offers: seq<Offer>)
    requires Valid(p) && rec.acceptor < p.acceptors && BestHeld(p, rec.iid, offers)
    ensures PrepareAckFits(p, rec)
    ensures var values' := ReceivePrepareAck(p, rec, now).values;
      if Counts(p, rec) && rec.value != [] && offers != [] && Tops(offers, rec.valueBallot)
      then exists x :: FirstHighest(offers, x) && values' == p.values + [x.value]
      else values' == p.values
  {
    AdoptingIff(p, rec, offers);
    if Adopting(p, rec) {
      var inst := p.prepare[Find(p.prepare, rec.iid)];
      if inst.value.Some? {
        assert FirstHighest(offers, Offer(inst.valueBallot, inst.value.value));
      }
    }
  }
}
