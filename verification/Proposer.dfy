/** The proposer (paxos/proposer.c) as a deterministic step function, with the
    properties that hold whatever acknowledgements it receives. */
module Proposers {
  import opened PaxosTypes
  import opened QuorumCounter
  import opened RingBuffer

  datatype Instance = Instance(
    iid: nat, ballot: nat, valueBallot: nat, value: Option<Value>,
    quorum: QuorumState, createdAt: int)

  datatype ProposerState = ProposerState(
    id: nat, acceptors: nat,
    values: seq<Value>,           // submitted, not yet assigned to an instance
    nextPrepareIid: nat,
    prepare: seq<Instance>,       // waiting for prepare acks
    accept: seq<Instance>)        // waiting for accept acks

  function NewProposer(id: nat, acceptors: nat): ProposerState {
    ProposerState(id, acceptors, [], 0, [], [])
  }

  function NextBallot(id: nat, b: nat): nat {
    if b > 0 then MAX_N_OF_PROPOSERS + b else MAX_N_OF_PROPOSERS + id
  }

  /** Position of the first instance with this id, or the length of the queue. */
  function Find(s: seq<Instance>, iid: nat): (k: nat)
    ensures k <= |s|
    ensures k < |s| ==> s[k].iid == iid
    ensures forall j :: 0 <= j < k ==> s[j].iid != iid
  {
    if s == [] then 0 else if s[0].iid == iid then 0 else 1 + Find(s[1..], iid)
  }

  /** `instance_match`. */
  function Matching(iid: nat): Instance -> bool {
    (x: Instance) => x.iid == iid
  }

  /** `instance_remove`: the queue without the matching instances. */
  function Without(s: seq<Instance>, iid: nat): seq<Instance> {
    Filter(s, Wanted(Matching(iid), false))
  }

  function Preempted(id: nat, inst: Instance, now: int): Instance {
    inst.(ballot := NextBallot(id, inst.ballot), quorum := Cleared(inst.quorum), createdAt := now)
  }

  // ---- the handlers -----------------------------------------------------------

  /** `garbage` is what `malloc` returned for the new instance's acknowledgement flags. */
  function PrepareNext(p: ProposerState, garbage: seq<int>, now: int): ProposerState
    requires |garbage| == p.acceptors
  {
    var iid := p.nextPrepareIid + 1;
    var inst := Instance(iid, NextBallot(p.id, 0), 0, None, QuorumCounter.Fresh(p.acceptors, garbage), now);
    p.(nextPrepareIid := iid, prepare := p.prepare + [inst])
  }

  /** The branch of `proposer_receive_prepare_ack` that takes the promised value. */
  predicate AdoptsValue(inst: Instance, rec: Record) {
    |rec.value| > 0 && (inst.value.None? || rec.valueBallot > inst.valueBallot)
  }

  function ReceivePrepareAck(p: ProposerState, rec: Record, now: int): ProposerState
    requires PrepareAckFits(p, rec)
  {
    var k := Find(p.prepare, rec.iid);
    if k == |p.prepare| then p
    else
      var inst := p.prepare[k];
      if rec.ballot < inst.ballot then p
      else if rec.ballot > inst.ballot then
        p.(prepare := p.prepare[k := Preempted(p.id, inst, now)])
      else if !CanAdd(inst.quorum, rec.acceptor) then p
      else
        var counted := inst.(quorum := Added(inst.quorum, rec.acceptor));
        if AdoptsValue(inst, rec) then
          p.(values := p.values + (if inst.value.None? then [] else [inst.value.value]),
             prepare := p.prepare[k := counted.(valueBallot := rec.valueBallot, value := Some(rec.value))])
        else p.(prepare := p.prepare[k := counted])
  }

  /** The front of the prepare queue has its quorum and there is a value for it. */
  predicate CanAccept(p: ProposerState) {
    && p.prepare != [] && Reached(p.prepare[0].quorum)
    && (p.prepare[0].value.Some? || p.values != [])
  }

  /** The front instance as it enters the accept phase. Its `valueBallot` is not changed,
      even when the value is the proposer's own. */
  function Accepting(p: ProposerState): Instance
    requires CanAccept(p)
  {
    var inst := p.prepare[0];
    inst.(value := if inst.value.Some? then inst.value else Some(p.values[0]),
          quorum := Cleared(inst.quorum))
  }

  function AcceptNext(p: ProposerState): ProposerState {
    if !CanAccept(p) then p
    else p.(values := if p.prepare[0].value.Some? then p.values else p.values[1..],
            prepare := p.prepare[1..],
            accept := p.accept + [Accepting(p)])
  }

  /** The assertion at the head of `proposer_receive_accept_ack`'s matching branch. */
  predicate AssertionHolds(p: ProposerState, rec: Record) {
    var k := Find(p.accept, rec.iid);
    k < |p.accept| && rec.ballot == p.accept[k].ballot ==> rec.valueBallot == p.accept[k].ballot
  }

  /** This acknowledgement is the one that completes its instance. */
  predicate ClosesInstance(p: ProposerState, rec: Record)
    requires AcceptAckFits(p, rec)
  {
    var k := Find(p.accept, rec.iid);
    && k < |p.accept| && rec.ballot == p.accept[k].ballot
    && CanAdd(p.accept[k].quorum, rec.acceptor)
    && Reached(Added(p.accept[k].quorum, rec.acceptor))
  }

  function ReceiveAcceptAck(p: ProposerState, rec: Record, now: int): ProposerState
    requires AcceptAckFits(p, rec)
  {
    var k := Find(p.accept, rec.iid);
    if k == |p.accept| then p
    else
      var inst := p.accept[k];
      if rec.ballot != inst.ballot then
        p.(accept := Without(p.accept, rec.iid),
           prepare := [Preempted(p.id, inst, now)] + p.prepare)
      else if ClosesInstance(p, rec) then p.(accept := Without(p.accept, rec.iid))
      else p.(accept := p.accept[k := inst.(quorum := Added(inst.quorum, rec.acceptor))])
  }

  // ---- events -------------------------------------------------------------------

  datatype Event =
    | Propose(value: Value)
    | Prepare(garbage: seq<int>, now: int)
    | GotPrepareAck(rec: Record, now: int)
    | Accept
    | GotAcceptAck(rec: Record, now: int)
    | ResendPrepare(k: nat, now: int)
    | ResendAccept(k: nat, now: int)

  /** An acceptor id indexes the flags unchecked, so it must be in range. */
  ghost predicate PrepareAckFits(p: ProposerState, rec: Record) {
    forall k :: 0 <= k < |p.prepare| ==> rec.acceptor < |p.prepare[k].quorum.flags|
  }

  ghost predicate AcceptAckFits(p: ProposerState, rec: Record) {
    forall k :: 0 <= k < |p.accept| ==> rec.acceptor < |p.accept[k].quorum.flags|
  }

  ghost predicate EventOk(p: ProposerState, e: Event) {
    match e
    case Propose(_) => true
    case Prepare(garbage, _) => |garbage| == p.acceptors
    case GotPrepareAck(rec, _) => rec.acceptor < p.acceptors
    case Accept => true
    case GotAcceptAck(rec, _) => rec.acceptor < p.acceptors && AssertionHolds(p, rec)
    case ResendPrepare(k, _) => k < |p.prepare| && !Reached(p.prepare[k].quorum)
    case ResendAccept(k, _) => k < |p.accept| && !Reached(p.accept[k].quorum)
  }

  ghost function Next(p: ProposerState, e: Event): ProposerState
    requires Valid(p) && EventOk(p, e)
  {
    match e
    case Propose(v) => p.(values := p.values + [v])
    case Prepare(garbage, now) => PrepareNext(p, garbage, now)
    case GotPrepareAck(rec, now) => ReceivePrepareAck(p, rec, now)
    case Accept => AcceptNext(p)
    case GotAcceptAck(rec, now) => ReceiveAcceptAck(p, rec, now)
    case ResendPrepare(k, now) => p.(prepare := p.prepare[k := p.prepare[k].(createdAt := now)])
    case ResendAccept(k, now) => p.(accept := p.accept[k := p.accept[k].(createdAt := now)])
  }

  function PrepareOf(inst: Instance): Request {
    PrepareReq(inst.iid, inst.ballot)
  }

  function AcceptOf(inst: Instance): Request {
    AcceptReq(inst.iid, inst.ballot, if inst.value.Some? then inst.value.value else [])
  }

  /** The request that the step makes the proposer send, if any. */
  ghost function Sends(p: ProposerState, e: Event): Option<Request>
    requires Valid(p) && EventOk(p, e)
  {
    match e
    case Propose(_) => None
    case Prepare(garbage, now) =>
      Some(PrepareReq(p.nextPrepareIid + 1, NextBallot(p.id, 0)))
    case GotPrepareAck(rec, now) =>
      var k := Find(p.prepare, rec.iid);
      if k < |p.prepare| && rec.ballot > p.prepare[k].ballot
      then Some(PrepareOf(Preempted(p.id, p.prepare[k], now))) else None
    case Accept => if CanAccept(p) then Some(AcceptOf(Accepting(p))) else None
    case GotAcceptAck(rec, now) =>
      var k := Find(p.accept, rec.iid);
      if k < |p.accept| && rec.ballot != p.accept[k].ballot
      then Some(PrepareOf(Preempted(p.id, p.accept[k], now))) else None
    case ResendPrepare(k, _) => Some(PrepareOf(p.prepare[k]))
    case ResendAccept(k, _) => Some(AcceptOf(p.accept[k]))
  }

  // ---- the invariant of a proposer ------------------------------------------------

  ghost predicate InstanceOk(p: ProposerState, inst: Instance) {
    && 1 <= inst.iid <= p.nextPrepareIid
    && Shaped(inst.quorum, p.acceptors)
    && inst.ballot % MAX_N_OF_PROPOSERS == p.id && inst.ballot >= MAX_N_OF_PROPOSERS
    && (inst.value.None? ==> inst.valueBallot == 0)
  }

  ghost predicate Distinct(s: seq<Instance>) {
    forall i, j :: 0 <= i < j < |s| ==> s[i].iid != s[j].iid
  }

  ghost predicate Apart(s: seq<Instance>, t: seq<Instance>) {
    forall i, j :: 0 <= i < |s| && 0 <= j < |t| ==> s[i].iid != t[j].iid
  }

  ghost predicate Valid(p: ProposerState) {
    && p.acceptors >= 1 && p.id < MAX_N_OF_PROPOSERS
    && (forall k :: 0 <= k < |p.prepare| ==> InstanceOk(p, p.prepare[k]))
    && (forall k :: 0 <= k < |p.accept| ==> InstanceOk(p, p.accept[k]) && p.accept[k].value.Some?)
    && Distinct(p.prepare) && Distinct(p.accept) && Apart(p.prepare, p.accept)
  }

  lemma NewIsValid(id: nat, acceptors: nat)
    requires id < MAX_N_OF_PROPOSERS && acceptors >= 1
    ensures Valid(NewProposer(id, acceptors))
  {
  }

  /** With distinct ids `instance_remove` takes out exactly the instance that was found. */
  lemma {:induction false} WithoutIsRemoval(s: seq<Instance>, k: nat)
    requires Distinct(s) && k < |s|
    ensures Without(s, s[k].iid) == s[..k] + s[k + 1..]
  {
    var iid := s[k].iid;
    var init, last := s[..|s| - 1], s[|s| - 1];
    if k == |s| - 1 {
      WithoutAbsent(init, iid);
      assert s[k + 1..] == [];
    } else {
      WithoutIsRemoval(init, k);
      assert init[k].iid == iid;
      assert s[..k] + s[k + 1..] == (init[..k] + init[k + 1..]) + [last];
    }
  }

  lemma WithoutIsPart(s: seq<Instance>, iid: nat)
    ensures forall x :: x in Without(s, iid) ==> x in s
  {
    FilterMembers(s, Wanted(Matching(iid), false));
  }

  lemma {:induction false} WithoutAbsent(s: seq<Instance>, iid: nat)
    requires forall k :: 0 <= k < |s| ==> s[k].iid != iid
    ensures Without(s, iid) == s
  {
    if s != [] {
      WithoutAbsent(s[..|s| - 1], iid);
    }
  }

  lemma UpdatePrepareKeepsValid(p: ProposerState, k: nat, x: Instance)
    requires Valid(p) && k < |p.prepare| && x.iid == p.prepare[k].iid && InstanceOk(p, x)
    ensures Valid(p.(prepare := p.prepare[k := x]))
  {
    var s := p.prepare[k := x];
    assert forall j :: 0 <= j < |s| ==> s[j].iid == p.prepare[j].iid;
  }

  lemma UpdateAcceptKeepsValid(p: ProposerState, k: nat, x: Instance)
    requires Valid(p) && k < |p.accept| && x.iid == p.accept[k].iid && InstanceOk(p, x) && x.value.Some?
    ensures Valid(p.(accept := p.accept[k := x]))
  {
    var s := p.accept[k := x];
    assert forall j :: 0 <= j < |s| ==> s[j].iid == p.accept[j].iid;
  }

  lemma PrepareAckKeepsValid(p: ProposerState, rec: Record, now: int)
    requires Valid(p) && rec.acceptor < p.acceptors
    ensures Valid(ReceivePrepareAck(p, rec, now))
  {
    var k := Find(p.prepare, rec.iid);
    if k < |p.prepare| {
      var p' := ReceivePrepareAck(p, rec, now);
      assert p'.prepare == p.prepare[k := p'.prepare[k]];
      assert InstanceOk(p, p.prepare[k]);
      UpdatePrepareKeepsValid(p, k, p'.prepare[k]);
    }
  }

  lemma PrepareKeepsValid(p: ProposerState, garbage: seq<int>, now: int)
    requires Valid(p) && |garbage| == p.acceptors
    ensures Valid(PrepareNext(p, garbage, now))
  {
    var q := PrepareNext(p, garbage, now);
    assert forall k :: 0 <= k < |p.prepare| ==> q.prepare[k] == p.prepare[k] && InstanceOk(q, p.prepare[k]);
  }

  lemma AcceptKeepsValid(p: ProposerState)
    requires Valid(p)
    ensures Valid(AcceptNext(p))
  {
    if CanAccept(p) {
      assert InstanceOk(p, p.prepare[0]);
      var p' := AcceptNext(p);
      assert forall k :: 0 <= k < |p'.prepare| ==> p'.prepare[k] == p.prepare[k + 1];
      assert forall k :: 0 <= k < |p.accept| ==> p'.accept[k] == p.accept[k];
      assert p'.accept[|p.accept|] == Accepting(p);
    }
  }

  lemma RemovalKeepsValid(p: ProposerState, k: nat)
    requires Valid(p) && k < |p.accept|
    ensures var q := p.(accept := p.accept[..k] + p.accept[k + 1..]);
      && Valid(q)
      && forall j :: 0 <= j < |q.accept| ==> q.accept[j].iid != p.accept[k].iid
  {
    var s := p.accept[..k] + p.accept[k + 1..];
    assert forall j :: 0 <= j < |s| ==> s[j] == (if j < k then p.accept[j] else p.accept[j + 1]);
  }

  lemma PushFrontKeepsValid(p: ProposerState, x: Instance)
    requires Valid(p) && InstanceOk(p, x)
    requires forall j :: 0 <= j < |p.accept| ==> p.accept[j].iid != x.iid
    requires forall j :: 0 <= j < |p.prepare| ==> p.prepare[j].iid != x.iid
    ensures Valid(p.(prepare := [x] + p.prepare))
  {
    var s := [x] + p.prepare;
    assert forall j :: 0 <= j < |s| ==> s[j] == (if j == 0 then x else p.prepare[j - 1]);
  }

  lemma AcceptAckKeepsValid(p: ProposerState, rec: Record, now: int)
    requires Valid(p) && rec.acceptor < p.acceptors
    ensures Valid(ReceiveAcceptAck(p, rec, now))
  {
    var k := Find(p.accept, rec.iid);
    if k < |p.accept| {
      var p' := ReceiveAcceptAck(p, rec, now);
      var inst := p.accept[k];
      assert InstanceOk(p, inst);
      if rec.ballot == inst.ballot && !ClosesInstance(p, rec) {
        UpdateAcceptKeepsValid(p, k, p'.accept[k]);
      } else {
        WithoutIsRemoval(p.accept, k);
        RemovalKeepsValid(p, k);
        if rec.ballot != inst.ballot {
          PushFrontKeepsValid(p.(accept := p'.accept), Preempted(p.id, inst, now));
        }
      }
    }
  }

  lemma NextKeepsValid(p: ProposerState, e: Event)
    requires Valid(p) && EventOk(p, e)
    ensures Valid(Next(p, e))
    ensures Next(p, e).id == p.id && Next(p, e).acceptors == p.acceptors
    ensures Next(p, e).nextPrepareIid >= p.nextPrepareIid
  {
    match e
    case Propose(v) =>
    case Prepare(garbage, now) => PrepareKeepsValid(p, garbage, now);
    case GotPrepareAck(rec, now) => PrepareAckKeepsValid(p, rec, now);
    case Accept => AcceptKeepsValid(p);
    case GotAcceptAck(rec, now) => AcceptAckKeepsValid(p, rec, now);
    case ResendPrepare(k, now) => UpdatePrepareKeepsValid(p, k, p.prepare[k].(createdAt := now));
    case ResendAccept(k, now) => UpdateAcceptKeepsValid(p, k, p.accept[k].(createdAt := now));
  }

  // ---- exact conservation of values -------------------------------------------------

  /** How often an instance holds `v`: 0 or 1. */
  ghost function Holds(inst: Instance, v: Value): nat {
    if inst.value == Some(v) then 1 else 0
  }

  ghost function HeldBy(s: seq<Instance>, v: Value): nat {
    if s == [] then 0 else Holds(s[0], v) + HeldBy(s[1..], v)
  }

  lemma {:induction false} HeldByConcat(s: seq<Instance>, t: seq<Instance>, v: Value)
    ensures HeldBy(s + t, v) == HeldBy(s, v) + HeldBy(t, v)
  {
    if s == [] {
      assert s + t == t;
    } else {
      assert (s + t)[1..] == s[1..] + t;
      HeldByConcat(s[1..], t, v);
    }
  }

  lemma HeldBySplit(s: seq<Instance>, k: nat, v: Value)
    requires k < |s|
    ensures HeldBy(s, v) == HeldBy(s[..k] + s[k + 1..], v) + Holds(s[k], v)
  {
    var a, b := s[..k], s[k + 1..];
    assert s == a + ([s[k]] + b);
    HeldByConcat(a, [s[k]] + b, v);
    assert ([s[k]] + b)[1..] == b;
    HeldByConcat(a, b, v);
  }

  lemma HeldByUpdate(s: seq<Instance>, k: nat, x: Instance, v: Value)
    requires k < |s|
    ensures HeldBy(s[k := x], v) + Holds(s[k], v) == HeldBy(s, v) + Holds(x, v)
  {
    HeldBySplit(s, k, v);
    HeldBySplit(s[k := x], k, v);
    assert s[k := x][..k] == s[..k] && s[k := x][k + 1..] == s[k + 1..];
  }

  lemma HeldByAppend(s: seq<Instance>, x: Instance, v: Value)
    ensures HeldBy(s + [x], v) == HeldBy(s, v) + Holds(x, v) == HeldBy([x] + s, v)
  {
    HeldByConcat(s, [x], v);
    assert [x][1..] == [];
    assert ([x] + s)[1..] == s;
  }

  /** How often the proposer is still responsible for `v`: queued, preparing or accepting. */
  ghost function Held(p: ProposerState, v: Value): nat {
    multiset(p.values)[v] + HeldBy(p.prepare, v) + HeldBy(p.accept, v)
  }

  ghost function Submits(e: Event): multiset<Value> {
    if e.Propose? then multiset{e.value} else multiset{}
  }

  ghost predicate Adopting(p: ProposerState, rec: Record)
    requires PrepareAckFits(p, rec)
  {
    var k := Find(p.prepare, rec.iid);
    && k < |p.prepare| && rec.ballot == p.prepare[k].ballot
    && CanAdd(p.prepare[k].quorum, rec.acceptor) && AdoptsValue(p.prepare[k], rec)
  }

  ghost function Adopts(p: ProposerState, e: Event): multiset<Value>
    requires Valid(p) && EventOk(p, e)
  {
    if e.GotPrepareAck? && Adopting(p, e.rec) then multiset{e.rec.value} else multiset{}
  }

  ghost function Closes(p: ProposerState, e: Event): multiset<Value>
    requires Valid(p) && EventOk(p, e)
  {
    if e.GotAcceptAck? && ClosesInstance(p, e.rec)
    then multiset{p.accept[Find(p.accept, e.rec.iid)].value.value} else multiset{}
  }

  lemma PrepareAckConserves(p: ProposerState, rec: Record, now: int, v: Value)
    requires PrepareAckFits(p, rec)
    ensures Held(ReceivePrepareAck(p, rec, now), v)
            == Held(p, v) + (if Adopting(p, rec) && rec.value == v then 1 else 0)
  {
    var k := Find(p.prepare, rec.iid);
    if k < |p.prepare| {
      var p' := ReceivePrepareAck(p, rec, now);
      HeldByUpdate(p.prepare, k, p'.prepare[k], v);
      assert p'.prepare == p.prepare[k := p'.prepare[k]];
    }
  }

  lemma AcceptConserves(p: ProposerState, v: Value)
    ensures Held(AcceptNext(p), v) == Held(p, v)
  {
    if CanAccept(p) {
      HeldByAppend(p.accept, Accepting(p), v);
      if p.prepare[0].value.None? {
        assert p.values == [p.values[0]] + p.values[1..];
      }
    }
  }

  lemma AcceptAckConserves(p: ProposerState, rec: Record, now: int, v: Value)
    requires AcceptAckFits(p, rec) && Distinct(p.accept)
    ensures Held(ReceiveAcceptAck(p, rec, now), v)
            + (if ClosesInstance(p, rec) then Holds(p.accept[Find(p.accept, rec.iid)], v) else 0)
            == Held(p, v)
  {
    var k := Find(p.accept, rec.iid);
    if k < |p.accept| {
      var inst := p.accept[k];
      if rec.ballot == inst.ballot && !ClosesInstance(p, rec) {
        HeldByUpdate(p.accept, k, ReceiveAcceptAck(p, rec, now).accept[k], v);
      } else {
        WithoutIsRemoval(p.accept, k);
        HeldBySplit(p.accept, k, v);
        HeldByAppend(p.prepare, Preempted(p.id, inst, now), v);
      }
    }
  }

  /** No step loses, invents or duplicates a value. For every value: how often it is held
      afterwards, plus once if closing released it, is how often it was held before, plus
      once if it was submitted or adopted from a promise. */
  lemma StepConservesValues(p: ProposerState, e: Event, v: Value)
    requires Valid(p) && EventOk(p, e)
    ensures Held(Next(p, e), v) + Closes(p, e)[v] == Held(p, v) + Submits(e)[v] + Adopts(p, e)[v]
  {
    match e
    case Propose(w) => assert multiset(p.values + [w]) == multiset(p.values) + multiset{w};
    case Prepare(garbage, now) => HeldByAppend(p.prepare, PrepareNext(p, garbage, now).prepare[|p.prepare|], v);
    case GotPrepareAck(rec, now) => PrepareAckConserves(p, rec, now, v);
    case Accept => AcceptConserves(p, v);
    case GotAcceptAck(rec, now) => AcceptAckConserves(p, rec, now, v);
    case ResendPrepare(k, now) => HeldByUpdate(p.prepare, k, p.prepare[k].(createdAt := now), v);
    case ResendAccept(k, now) => HeldByUpdate(p.accept, k, p.accept[k].(createdAt := now), v);
  }

  // ---- the instances 1..nextPrepareIid ------------------------------------------------

  ghost function Iids(s: seq<Instance>): set<nat> {
    set k: nat | k < |s| :: s[k].iid
  }

  ghost function OpenIids(p: ProposerState): set<nat> {
    Iids(p.prepare) + Iids(p.accept)
  }

  ghost function ClosedIids(p: ProposerState, e: Event): set<nat>
    requires Valid(p) && EventOk(p, e)
  {
    if e.GotAcceptAck? && ClosesInstance(p, e.rec) then {e.rec.iid} else {}
  }

  lemma IidsAppend(s: seq<Instance>, x: Instance)
    ensures Iids(s + [x]) == Iids(s) + {x.iid} == Iids([x] + s)
  {
    var t, u := s + [x], [x] + s;
    assert t[|s|] == x && u[0] == x;
    forall i | i in Iids(s)
      ensures i in Iids(t) && i in Iids(u)
    {
      var k: nat :| k < |s| && s[k].iid == i;
      assert t[k] == s[k] && u[k + 1] == s[k];
    }
    assert {x.iid} <= Iids(t) && {x.iid} <= Iids(u);
    forall i | i in Iids(t)
      ensures i in Iids(s) + {x.iid}
    {
      var k: nat :| k < |t| && t[k].iid == i;
      if k < |s| { assert s[k].iid == i; }
    }
    forall i | i in Iids(u)
      ensures i in Iids(s) + {x.iid}
    {
      var k: nat :| k < |u| && u[k].iid == i;
      if k > 0 { assert s[k - 1].iid == i; }
    }
  }

  lemma IidsUpdate(s: seq<Instance>, k: nat, x: Instance)
    requires k < |s| && s[k].iid == x.iid
    ensures Iids(s[k := x]) == Iids(s)
  {
    var t := s[k := x];
    assert forall j: nat :: j < |s| ==> t[j].iid == s[j].iid;
    assert Iids(t) <= Iids(s);
    assert Iids(s) <= Iids(t);
  }

  lemma IidsRemove(s: seq<Instance>, k: nat)
    requires Distinct(s) && k < |s|
    ensures Iids(s[..k] + s[k + 1..]) == Iids(s) - {s[k].iid}
  {
    var t := s[..k] + s[k + 1..];
    forall i | i in Iids(s) - {s[k].iid}
      ensures i in Iids(t)
    {
      var j: nat :| j < |s| && s[j].iid == i;
      if j < k { assert t[j] == s[j]; } else { assert t[j - 1] == s[j]; }
    }
    forall i | i in Iids(t)
      ensures i in Iids(s) - {s[k].iid}
    {
      var j: nat :| j < |t| && t[j].iid == i;
      if j < k { assert s[j].iid == i; } else { assert s[j + 1].iid == i; }
    }
  }

  lemma AcceptKeepsOpen(p: ProposerState)
    ensures OpenIids(AcceptNext(p)) == OpenIids(p)
  {
    if CanAccept(p) {
      IidsAppend(p.accept, Accepting(p));
      IidsAppend(p.prepare[1..], p.prepare[0]);
      assert p.prepare == [p.prepare[0]] + p.prepare[1..];
    }
  }

  lemma PrepareAckKeepsOpen(p: ProposerState, rec: Record, now: int)
    requires PrepareAckFits(p, rec)
    ensures OpenIids(ReceivePrepareAck(p, rec, now)) == OpenIids(p)
  {
    var k := Find(p.prepare, rec.iid);
    if k < |p.prepare| {
      var p' := ReceivePrepareAck(p, rec, now);
      assert p'.prepare == p.prepare[k := p'.prepare[k]];
      IidsUpdate(p.prepare, k, p'.prepare[k]);
    }
  }

  lemma AcceptAckKeepsOpen(p: ProposerState, rec: Record, now: int)
    requires AcceptAckFits(p, rec) && Distinct(p.accept) && Apart(p.prepare, p.accept)
    ensures ClosesInstance(p, rec) ==>
              OpenIids(ReceiveAcceptAck(p, rec, now)) == OpenIids(p) - {rec.iid} && {rec.iid} <= OpenIids(p)
    ensures !ClosesInstance(p, rec) ==> OpenIids(ReceiveAcceptAck(p, rec, now)) == OpenIids(p)
  {
    var k := Find(p.accept, rec.iid);
    if k < |p.accept| {
      var inst := p.accept[k];
      assert rec.iid in Iids(p.accept);
      if rec.ballot == inst.ballot && !ClosesInstance(p, rec) {
        IidsUpdate(p.accept, k, inst.(quorum := Added(inst.quorum, rec.acceptor)));
      } else {
        WithoutIsRemoval(p.accept, k);
        IidsRemove(p.accept, k);
        assert rec.iid !in Iids(p.prepare);
        IidsAppend(p.prepare, Preempted(p.id, inst, now));
      }
    }
  }

  ghost function OpenedIids(p: ProposerState, e: Event): set<nat> {
    if e.Prepare? then {p.nextPrepareIid + 1} else {}
  }

  /** The open instances change by opening `added` and closing `done`, never both. */
  ghost predicate OpenChanges(open: set<nat>, open': set<nat>, added: set<nat>, done: set<nat>) {
    open' == open + added - done && (added == {} || done == {}) && done <= open
  }

  lemma OpenChangesIf(open: set<nat>, open': set<nat>, x: set<nat>)
    ensures open' == open ==> OpenChanges(open, open', {}, {})
    ensures open' == open + x ==> OpenChanges(open, open', x, {})
    ensures open' == open - x && x <= open ==> OpenChanges(open, open', {}, x)
  {
  }

  lemma PrepareOpens(p: ProposerState, garbage: seq<int>, now: int)
    requires |garbage| == p.acceptors
    ensures OpenIids(PrepareNext(p, garbage, now)) == OpenIids(p) + {p.nextPrepareIid + 1}
  {
    IidsAppend(p.prepare, PrepareNext(p, garbage, now).prepare[|p.prepare|]);
  }

  /** A step opens at most the next instance, closes at most the one whose quorum it
      completes, and keeps every other instance in exactly one queue. */
  lemma StepConservesInstances(p: ProposerState, e: Event)
    requires Valid(p) && EventOk(p, e)
    ensures OpenChanges(OpenIids(p), OpenIids(Next(p, e)), OpenedIids(p, e), ClosedIids(p, e))
  {
    var open, open' := OpenIids(p), OpenIids(Next(p, e));
    OpenChangesIf(open, open', OpenedIids(p, e));
    OpenChangesIf(open, open', ClosedIids(p, e));
    match e
    case Propose(v) =>
    case Prepare(garbage, now) => PrepareOpens(p, garbage, now);
    case GotPrepareAck(rec, now) => PrepareAckKeepsOpen(p, rec, now);
    case Accept => AcceptKeepsOpen(p);
    case GotAcceptAck(rec, now) => AcceptAckKeepsOpen(p, rec, now);
    case ResendPrepare(k, now) => IidsUpdate(p.prepare, k, Next(p, e).prepare[k]);
    case ResendAccept(k, now) => IidsUpdate(p.accept, k, Next(p, e).accept[k]);
  }

  lemma StepCountsInstances(p: ProposerState, e: Event)
    requires Valid(p) && EventOk(p, e)
    ensures var added, next, next' := OpenedIids(p, e), p.nextPrepareIid, Next(p, e).nextPrepareIid;
      (added == {} && next' == next) || (added == {next + 1} && next' == next + 1)
  {
  }

  // ---- whole runs -----------------------------------------------------------------------

  datatype Ledger = Ledger(
    p: ProposerState, submitted: multiset<Value>, adopted: multiset<Value>,
    closed: multiset<Value>, closedIids: set<nat>)

  ghost predicate RunOk(id: nat, n: nat, events: seq<Event>)
    requires id < MAX_N_OF_PROPOSERS && n >= 1
    decreases |events|, 0
  {
    events == [] || (
      && RunOk(id, n, events[..|events| - 1])
      && EventOk(Run(id, n, events[..|events| - 1]).p, events[|events| - 1]))
  }

  /** A proposer's life from `proposer_new`, with the books kept beside it. */
  ghost function Run(id: nat, n: nat, events: seq<Event>): (l: Ledger)
    requires id < MAX_N_OF_PROPOSERS && n >= 1 && RunOk(id, n, events)
    ensures Valid(l.p) && l.p.id == id && l.p.acceptors == n
    decreases |events|, 1
  {
    if events == [] then Ledger(NewProposer(id, n), multiset{}, multiset{}, multiset{}, {})
    else
      var l := Run(id, n, events[..|events| - 1]);
      var e := events[|events| - 1];
      NextKeepsValid(l.p, e);
      Ledger(Next(l.p, e), l.submitted + Submits(e), l.adopted + Adopts(l.p, e),
             l.closed + Closes(l.p, e), l.closedIids + ClosedIids(l.p, e))
  }

  /** Over every life of a proposer the books balance exactly, value by value. */
  lemma {:induction false} RunConservesValues(id: nat, n: nat, events: seq<Event>, v: Value)
    requires id < MAX_N_OF_PROPOSERS && n >= 1 && RunOk(id, n, events)
    ensures var l := Run(id, n, events); Held(l.p, v) + l.closed[v] == l.submitted[v] + l.adopted[v]
  {
    if events != [] {
      var init, e := events[..|events| - 1], events[|events| - 1];
      RunConservesValues(id, n, init, v);
      StepConservesValues(Run(id, n, init).p, e, v);
    }
  }

  /** The value that an adoption displaces goes to the back of the queue. */
  ghost function Pushes(p: ProposerState, e: Event): seq<Value>
    requires Valid(p) && EventOk(p, e)
  {
    if e.Propose? then [e.value]
    else if e.GotPrepareAck? && Adopting(p, e.rec) then
      var inst := p.prepare[Find(p.prepare, e.rec.iid)];
      if inst.value.Some? then [inst.value.value] else []
    else []
  }

  /** The value that an accept takes from the front of the queue. */
  ghost function Pops(p: ProposerState, e: Event): seq<Value>
    requires Valid(p) && EventOk(p, e)
  {
    if e.Accept? && CanAccept(p) && p.prepare[0].value.None?
    then [Accepting(p).value.value] else []
  }

  ghost function Pushed(id: nat, n: nat, events: seq<Event>): seq<Value>
    requires id < MAX_N_OF_PROPOSERS && n >= 1 && RunOk(id, n, events)
  {
    if events == [] then []
    else Pushed(id, n, events[..|events| - 1]) + Pushes(Run(id, n, events[..|events| - 1]).p, events[|events| - 1])
  }

  ghost function Popped(id: nat, n: nat, events: seq<Event>): seq<Value>
    requires id < MAX_N_OF_PROPOSERS && n >= 1 && RunOk(id, n, events)
  {
    if events == [] then []
    else Popped(id, n, events[..|events| - 1]) + Pops(Run(id, n, events[..|events| - 1]).p, events[|events| - 1])
  }

  lemma StepKeepsOrder(p: ProposerState, e: Event)
    requires Valid(p) && EventOk(p, e)
    ensures p.values + Pushes(p, e) == Pops(p, e) + Next(p, e).values
  {
    if e.Accept? && CanAccept(p) && p.prepare[0].value.None? {
      assert p.values == [p.values[0]] + p.values[1..];
    }
  }

  /** First come, first served: over every life, the values taken for instances, followed by
      the queue, are the values that were submitted or displaced, in that order. */
  lemma {:induction false} ValuesAreServedInOrder(id: nat, n: nat, events: seq<Event>)
    requires id < MAX_N_OF_PROPOSERS && n >= 1 && RunOk(id, n, events)
    ensures Pushed(id, n, events) == Popped(id, n, events) + Run(id, n, events).p.values
  {
    if events != [] {
      var init, e := events[..|events| - 1], events[|events| - 1];
      var p := Run(id, n, init).p;
      ValuesAreServedInOrder(id, n, init);
      StepKeepsOrder(p, e);
      Shift(Popped(id, n, init), p.values, Pushes(p, e), Pops(p, e), Next(p, e).values);
    }
  }

  lemma Shift<T>(done: seq<T>, queue: seq<T>, pushed: seq<T>, popped: seq<T>, queue': seq<T>)
    requires queue + pushed == popped + queue'
    ensures (done + queue) + pushed == (done + popped) + queue'
  {
    assert (done + queue) + pushed == done + (queue + pushed);
    assert (done + popped) + queue' == done + (popped + queue');
  }

  ghost predicate Splits(next: nat, open: set<nat>, closed: set<nat>) {
    && (forall i: nat :: 1 <= i <= next <==> i in open || i in closed)
    && open !! closed
  }

  lemma SplitsStep(next: nat, next': nat, open: set<nat>, open': set<nat>,
                   closed: set<nat>, added: set<nat>, done: set<nat>)
    requires Splits(next, open, closed) && OpenChanges(open, open', added, done)
    requires (added == {} && next' == next) || (added == {next + 1} && next' == next + 1)
    ensures Splits(next', open', closed + done)
  {
  }

  lemma QueuesApart(p: ProposerState)
    requires Valid(p)
    ensures Iids(p.prepare) !! Iids(p.accept)
  {
  }

  lemma StepSplits(p: ProposerState, closed: set<nat>, e: Event)
    requires Valid(p) && EventOk(p, e) && Splits(p.nextPrepareIid, OpenIids(p), closed)
    ensures Splits(Next(p, e).nextPrepareIid, OpenIids(Next(p, e)), closed + ClosedIids(p, e))
  {
    StepConservesInstances(p, e);
    StepCountsInstances(p, e);
    SplitsStep(p.nextPrepareIid, Next(p, e).nextPrepareIid, OpenIids(p), OpenIids(Next(p, e)),
               closed, OpenedIids(p, e), ClosedIids(p, e));
  }

  /** Over every life of a proposer the instances 1..nextPrepareIid are split, without
      overlap, into open and closed ones, and the open ones into preparing and accepting. */
  lemma {:induction false} RunPartitionsInstances(id: nat, n: nat, events: seq<Event>)
    requires id < MAX_N_OF_PROPOSERS && n >= 1 && RunOk(id, n, events)
    ensures var l := Run(id, n, events);
      Splits(l.p.nextPrepareIid, OpenIids(l.p), l.closedIids) && Iids(l.p.prepare) !! Iids(l.p.accept)
  {
    QueuesApart(Run(id, n, events).p);
    if events == [] {
      assert Iids([]) == {};
    } else {
      var l, e := Run(id, n, events[..|events| - 1]), events[|events| - 1];
      RunPartitionsInstances(id, n, events[..|events| - 1]);
      StepSplits(l.p, l.closedIids, e);
    }
  }

  /** The instance that the event closes, with its value. */
  ghost function Closure(p: ProposerState, e: Event): map<nat, Value>
    requires Valid(p) && EventOk(p, e)
  {
    if e.GotAcceptAck? && ClosesInstance(p, e.rec)
    then map[e.rec.iid := p.accept[Find(p.accept, e.rec.iid)].value.value] else map[]
  }

  /** The value with which each closed instance was closed. */
  ghost function ClosedAs(id: nat, n: nat, events: seq<Event>): map<nat, Value>
    requires id < MAX_N_OF_PROPOSERS && n >= 1 && RunOk(id, n, events)
  {
    if events == [] then map[]
    else
      var init, e := events[..|events| - 1], events[|events| - 1];
      var p := Run(id, n, init).p;
      ClosedAs(id, n, init) + Closure(p, e)
  }

  ghost function KeysOf(m: map<nat, Value>, v: Value): set<nat> {
    set iid | iid in m && m[iid] == v
  }

  lemma KeysOfMore(m: map<nat, Value>, iid: nat, w: Value, v: Value)
    requires iid !in m
    ensures |KeysOf(m + map[iid := w], v)| == |KeysOf(m, v)| + multiset{w}[v]
  {
    if v == w {
      assert KeysOf(m + map[iid := w], v) == KeysOf(m, v) + {iid};
    } else {
      assert KeysOf(m + map[iid := w], v) == KeysOf(m, v);
    }
  }

  lemma ClosureIsCounted(p: ProposerState, e: Event, before: map<nat, Value>, v: Value)
    requires Valid(p) && EventOk(p, e) && OpenIids(p) !! before.Keys
    ensures (before + Closure(p, e)).Keys == before.Keys + ClosedIids(p, e)
    ensures |KeysOf(before + Closure(p, e), v)| == |KeysOf(before, v)| + Closes(p, e)[v]
  {
    if Closure(p, e) == map[] {
      assert before + Closure(p, e) == before;
    } else {
      var k := Find(p.accept, e.rec.iid);
      assert e.rec.iid in Iids(p.accept);
      KeysOfMore(before, e.rec.iid, p.accept[k].value.value, v);
    }
  }

  /** Every instance is closed at most once, so a value is released once for each instance
      that was closed with it. */
  lemma {:induction false} ClosedAsCounts(id: nat, n: nat, events: seq<Event>, v: Value)
    requires id < MAX_N_OF_PROPOSERS && n >= 1 && RunOk(id, n, events)
    ensures ClosedAs(id, n, events).Keys == Run(id, n, events).closedIids
    ensures Run(id, n, events).closed[v] == |KeysOf(ClosedAs(id, n, events), v)|
  {
    if events == [] {
      assert KeysOf(map[], v) == {};
    } else {
      var init := events[..|events| - 1];
      ClosedAsCounts(id, n, init, v);
      RunPartitionsInstances(id, n, init);
      ClosureIsCounted(Run(id, n, init).p, events[|events| - 1], ClosedAs(id, n, init), v);
    }
  }
}
