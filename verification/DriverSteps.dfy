/** What the handlers of evpaxos/evproposer.c do to a proposer: draining the prepare queue,
    refilling it and sending late requests again, each as a sequence of proposer events. */
module DriverSteps {
  import opened PaxosTypes
  import opened QuorumCounter
  import opened RingBuffer
  import opened EventRuns
  import opened Phases
  import P = Proposers

  // ---- timeouts ----------------------------------------------------------------------

  /** An instance that `next_timedout` stops at: no quorum yet and old enough. */
  predicate Late(inst: P.Instance, now: int, timeout: int) {
    !Reached(inst.quorum) && now - inst.createdAt >= timeout
  }

  function IsLate(now: int, timeout: int): P.Instance -> bool {
    (inst: P.Instance) => Late(inst, now, timeout)
  }

  function Refresh(inst: P.Instance, now: int, timeout: int): P.Instance {
    if Late(inst, now, timeout) then inst.(createdAt := now) else inst
  }

  /** The queue after a timeout sweep. */
  function Refreshed(s: seq<P.Instance>, now: int, timeout: int): seq<P.Instance> {
    seq(|s|, k requires 0 <= k < |s| => Refresh(s[k], now, timeout))
  }

  /** The instances a timeout sweep sends again, in queue order. */
  function LateOnes(s: seq<P.Instance>, now: int, timeout: int): seq<P.Instance> {
    Filter(s, IsLate(now, timeout))
  }

  function Requests(s: seq<P.Instance>, asAccept: bool): seq<Request> {
    seq(|s|, k requires 0 <= k < |s| => if asAccept then P.AcceptOf(s[k]) else P.PrepareOf(s[k]))
  }

  lemma {:induction false} SkipQuiet(s: seq<P.Instance>, keep: P.Instance -> bool, i: nat, k: nat)
    requires i <= k <= |s| && forall j :: i <= j < k ==> !keep(s[j])
    ensures Filter(s[..k], keep) == Filter(s[..i], keep)
    decreases k - i
  {
    if i < k {
      assert s[..k][..k - 1] == s[..k - 1];
      SkipQuiet(s, keep, i, k - 1);
    }
  }

  /** Nothing is sent twice at the same time: after a sweep no instance is late. */
  lemma RefreshedTwice(s: seq<P.Instance>, now: int, timeout: int)
    requires timeout > 0
    ensures LateOnes(Refreshed(s, now, timeout), now, timeout) == []
  {
    var t := Refreshed(s, now, timeout);
    assert t[..|t|] == t;
    SkipQuiet(t, IsLate(now, timeout), 0, |t|);
  }

  // ---- draining the prepare queue --------------------------------------------------------

  /** `proposer_accept` until it has nothing to do. */
  function Drained(p: P.ProposerState): P.ProposerState
    decreases |p.prepare|
  {
    if P.CanAccept(p) then Drained(P.AcceptNext(p)) else p
  }

  function DrainedRequests(p: P.ProposerState): seq<Request>
    decreases |p.prepare|
  {
    if P.CanAccept(p) then [P.AcceptOf(P.Accepting(p))] + DrainedRequests(P.AcceptNext(p)) else []
  }

  /** Draining leaves the front without a quorum or without a value, keeps the invariant and
      every value, and moves exactly as many instances as requests were sent, in order. */
  lemma {:induction false} DrainedMeaning(p: P.ProposerState, v: Value)
    requires P.Valid(p)
    ensures var d := Drained(p);
      && P.Valid(d) && !FrontReady(d) && P.Held(d, v) == P.Held(p, v)
      && QueuesMoved(p, d, DrainedRequests(p))
      && d.id == p.id && d.acceptors == p.acceptors && d.nextPrepareIid == p.nextPrepareIid
    decreases |p.prepare|
  {
    if P.CanAccept(p) {
      var q := P.AcceptNext(p);
      P.AcceptKeepsValid(p);
      P.AcceptConserves(p, v);
      DrainedMeaning(q, v);
      QueuesMovedOneMore(p, Drained(p), DrainedRequests(q));
    } else {
      ReadyIsAccepted(p);
      assert Requests(p.accept[|p.accept|..], true) == [];
    }
  }

  /** What `DrainedMeaning` says about the queues. */
  ghost predicate QueuesMoved(p: P.ProposerState, d: P.ProposerState, sent: seq<Request>) {
    && |sent| <= |p.prepare| && d.prepare == p.prepare[|sent|..]
    && |d.accept| == |p.accept| + |sent| && p.accept <= d.accept
    && sent == Requests(d.accept[|p.accept|..], true)
  }

  lemma QueuesMovedOneMore(p: P.ProposerState, d: P.ProposerState, sent: seq<Request>)
    requires P.CanAccept(p) && QueuesMoved(P.AcceptNext(p), d, sent)
    ensures QueuesMoved(p, d, [P.AcceptOf(P.Accepting(p))] + sent)
  {
    var q, x := P.AcceptNext(p), P.Accepting(p);
    assert q.accept == p.accept + [x];
    var tail := d.accept[|p.accept|..];
    assert tail[0] == d.accept[|p.accept|] == q.accept[|p.accept|] == x;
    assert tail[1..] == d.accept[|q.accept|..];
    RequestsCons(tail);
    assert p.prepare[1..][|sent|..] == p.prepare[1 + |sent|..];
  }

  lemma RequestsCons(s: seq<P.Instance>)
    requires s != []
    ensures Requests(s, true) == [P.AcceptOf(s[0])] + Requests(s[1..], true)
  {
  }

  lemma Regroup(a: seq<Request>, b: seq<Request>, c: seq<Request>)
    ensures (a + b) + c == a + (b + c)
  {
  }

  ghost predicate Draining(start: P.ProposerState, p: P.ProposerState, accepts: seq<Request>) {
    DrainedRequests(start) == accepts + DrainedRequests(p) && Drained(start) == Drained(p)
  }

  /** The loop of `try_accept` has collected `accepts` and the last call, on `p`, returned `req`. */
  ghost predicate DrainLoop(start: P.ProposerState, p: P.ProposerState, accepts: seq<Request>,
                            q: P.ProposerState, req: Option<Request>) {
    && Draining(start, p, accepts) && q == P.AcceptNext(p)
    && req == if P.CanAccept(p) then Some(P.AcceptOf(P.Accepting(p))) else None
  }

  lemma DrainStep(start: P.ProposerState, p: P.ProposerState, accepts: seq<Request>, q: P.ProposerState, req: Option<Request>)
    requires DrainLoop(start, p, accepts, q, req) && req.Some?
    ensures Draining(start, q, accepts + [req.value]) && |q.prepare| < |p.prepare|
  {
    Regroup(accepts, [req.value], DrainedRequests(q));
  }

  lemma DrainEnds(start: P.ProposerState, p: P.ProposerState, accepts: seq<Request>, q: P.ProposerState, req: Option<Request>)
    requires DrainLoop(start, p, accepts, q, req) && req.None?
    ensures accepts == DrainedRequests(start) && q == Drained(start)
  {
    assert accepts + [] == accepts;
  }

  function Accepts(k: nat): seq<P.Event> {
    seq(k, _ => P.Accept)
  }

  lemma AcceptDoes(p: P.ProposerState)
    requires P.Valid(p) && P.CanAccept(p)
    ensures Does(p, Accepts(1), P.AcceptNext(p), [P.AcceptOf(P.Accepting(p))])
  {
    DoesNothing(p);
    DoesOneMore(p, [], p, [], P.Accept);
    assert [] + [P.Accept] == Accepts(1);
  }

  lemma OneAcceptMore(p: P.ProposerState, q: P.ProposerState, first: seq<Request>,
                      d: P.ProposerState, sent: seq<Request>, all: seq<Request>)
    requires Does(p, Accepts(1), q, first) && Does(q, Accepts(|sent|), d, sent) && |first| == 1 && all == first + sent
    ensures Does(p, Accepts(|all|), d, all)
  {
    assert Accepts(1) + Accepts(|sent|) == Accepts(|all|);
    DoesThen(p, Accepts(1), q, first, Accepts(|sent|), d, sent);
  }

  lemma DrainedAfterOne(p: P.ProposerState)
    requires P.CanAccept(p)
    ensures Drained(p) == Drained(P.AcceptNext(p))
    ensures DrainedRequests(p) == [P.AcceptOf(P.Accepting(p))] + DrainedRequests(P.AcceptNext(p))
  {
  }

  /** Draining is a number of accept events. */
  lemma {:induction false} DrainedIsAccepts(p: P.ProposerState)
    requires P.Valid(p)
    ensures Does(p, Accepts(|DrainedRequests(p)|), Drained(p), DrainedRequests(p))
    decreases |p.prepare|
  {
    if P.CanAccept(p) {
      var q := P.AcceptNext(p);
      P.AcceptKeepsValid(p);
      DrainedIsAccepts(q);
      AcceptDoes(p);
      DrainedAfterOne(p);
      OneAcceptMore(p, q, [P.AcceptOf(P.Accepting(p))], Drained(q), DrainedRequests(q), DrainedRequests(p));
    } else {
      DoesNothing(p);
      assert Accepts(0) == [];
    }
  }

  // ---- refilling the prepare queue ---------------------------------------------------------

  /** `instance_new` over the flag memory of the event. */
  function NewInstance(p: P.ProposerState, iid: nat, e: P.Event): P.Instance
    requires e.Prepare? && |e.garbage| == p.acceptors
  {
    P.Instance(iid, P.NextBallot(p.id, 0), 0, None, QuorumCounter.Fresh(p.acceptors, e.garbage), e.now)
  }

  ghost predicate IsPrepare(p: P.ProposerState, e: P.Event, now: int) {
    e.Prepare? && |e.garbage| == p.acceptors && e.now == now
  }

  /** By prepare events alone, `q` is `p` with one new instance for each at the end of the
      prepare queue: the next ids, at the first ballot, without value or acknowledgement. */
  ghost predicate Refilled(p: P.ProposerState, events: seq<P.Event>, q: P.ProposerState, sent: seq<Request>, now: int) {
    && |q.prepare| == |p.prepare| + |events| && |sent| == |events|
    && q == p.(nextPrepareIid := p.nextPrepareIid + |events|, prepare := q.prepare)
    && p.prepare == q.prepare[..|p.prepare|]
    && forall k :: 0 <= k < |events| ==>
         && IsPrepare(p, events[k], now)
         && q.prepare[|p.prepare| + k] == NewInstance(p, p.nextPrepareIid + 1 + k, events[k])
         && sent[k] == PrepareReq(p.nextPrepareIid + 1 + k, MAX_N_OF_PROPOSERS + p.id)
  }

  lemma RefilledNothing(p: P.ProposerState, now: int)
    requires P.Valid(p)
    ensures Does(p, [], p, []) && Refilled(p, [], p, [], now)
  {
    DoesNothing(p);
  }

  lemma RefillStep(p: P.ProposerState, events: seq<P.Event>, q: P.ProposerState, sent: seq<Request>,
                   garbage: seq<int>, now: int)
    requires Refilled(p, events, q, sent, now) && |garbage| == q.acceptors
    ensures Refilled(p, events + [P.Prepare(garbage, now)], P.PrepareNext(q, garbage, now),
              sent + [PrepareReq(q.nextPrepareIid + 1, MAX_N_OF_PROPOSERS + q.id)], now)
  {
    var r := P.PrepareNext(q, garbage, now);
    assert r.prepare[..|p.prepare|] == q.prepare[..|p.prepare|];
    assert forall k :: 0 <= k < |q.prepare| ==> r.prepare[k] == q.prepare[k];
  }

  lemma PrepareIs(q: P.ProposerState, garbage: seq<int>, now: int)
    requires P.Valid(q) && |garbage| == q.acceptors
    ensures var e := P.Prepare(garbage, now);
      && P.EventOk(q, e) && P.Next(q, e) == P.PrepareNext(q, garbage, now)
      && Optional(P.Sends(q, e)) == [PrepareReq(q.nextPrepareIid + 1, MAX_N_OF_PROPOSERS + q.id)]
  {
  }

  lemma PrepareDoes(p: P.ProposerState, events: seq<P.Event>, q: P.ProposerState, sent: seq<Request>,
                    garbage: seq<int>, now: int)
    requires Does(p, events, q, sent) && P.Valid(q) && |garbage| == q.acceptors
    ensures Does(p, events + [P.Prepare(garbage, now)], P.PrepareNext(q, garbage, now),
              sent + [PrepareReq(q.nextPrepareIid + 1, MAX_N_OF_PROPOSERS + q.id)])
  {
    PrepareIs(q, garbage, now);
    DoesStep(p, events, q, sent, P.Prepare(garbage, now), P.PrepareNext(q, garbage, now),
      [PrepareReq(q.nextPrepareIid + 1, MAX_N_OF_PROPOSERS + q.id)]);
  }

  lemma RefillOne(p: P.ProposerState, events: seq<P.Event>, q: P.ProposerState, sent: seq<Request>,
                  garbage: seq<int>, now: int, r: P.ProposerState, req: Request)
    requires Does(p, events, q, sent) && Refilled(p, events, q, sent, now) && P.Valid(q)
    requires |garbage| == q.acceptors && r == P.PrepareNext(q, garbage, now)
    requires req == PrepareReq(q.nextPrepareIid + 1, MAX_N_OF_PROPOSERS + q.id)
    ensures Does(p, events + [P.Prepare(garbage, now)], r, sent + [req])
    ensures Refilled(p, events + [P.Prepare(garbage, now)], r, sent + [req], now)
  {
    PrepareDoes(p, events, q, sent, garbage, now);
    RefillStep(p, events, q, sent, garbage, now);
  }

  /** Draining, then refilling: the events. */
  lemma TryAcceptDoes(p: P.ProposerState, prepares: seq<P.Event>, q: P.ProposerState, sent: seq<Request>)
    requires P.Valid(p) && Does(Drained(p), prepares, q, sent)
    ensures Does(p, Accepts(|DrainedRequests(p)|) + prepares, q, DrainedRequests(p) + sent)
  {
    DrainedIsAccepts(p);
    DoesThen(p, Accepts(|DrainedRequests(p)|), Drained(p), DrainedRequests(p), prepares, q, sent);
  }

  /** ... and the front afterwards. */
  lemma TryAcceptNotReady(p: P.ProposerState, prepares: seq<P.Event>, q: P.ProposerState, sent: seq<Request>, now: int)
    requires P.Valid(p) && P.Valid(q) && Refilled(Drained(p), prepares, q, sent, now)
    ensures !FrontReady(q)
  {
    DrainedMeaning(p, []);
    StillNotReady(Drained(p), prepares, q, sent, now);
  }

  /** One event, then others. */
  lemma EventThen(p: P.ProposerState, e: P.Event, events: seq<P.Event>, q: P.ProposerState, sent: seq<Request>)
    requires P.Valid(p) && P.EventOk(p, e) && Does(P.Next(p, e), events, q, sent)
    ensures Does(p, [e] + events, q, Optional(P.Sends(p, e)) + sent)
  {
    DoesNothing(p);
    assert [] + [e] == [e] && [] + Optional(P.Sends(p, e)) == Optional(P.Sends(p, e));
    DoesOneMore(p, [], p, [], e);
    DoesThen(p, [e], P.Next(p, e), Optional(P.Sends(p, e)), events, q, sent);
  }

  /** A refill does not make the front ready. */
  lemma StillNotReady(d: P.ProposerState, events: seq<P.Event>, q: P.ProposerState, sent: seq<Request>, now: int)
    requires !FrontReady(d) && P.Valid(q) && Refilled(d, events, q, sent, now)
    ensures !FrontReady(q)
  {
    if q.prepare != [] {
      assert P.InstanceOk(q, q.prepare[0]);
      if d.prepare == [] {
        assert q.prepare[|d.prepare| + 0] == NewInstance(d, d.nextPrepareIid + 1, events[0]);
      } else {
        assert q.prepare[0] == d.prepare[0];
      }
    }
  }

  // ---- sending late requests again -------------------------------------------------------------

  /** One resend event for each late instance, in queue order. */
  function Resends(s: seq<P.Instance>, now: int, timeout: int, asAccept: bool): seq<P.Event> {
    if s == [] then []
    else
      var k := |s| - 1;
      Resends(s[..k], now, timeout, asAccept)
      + (if Late(s[k], now, timeout) then [Resend(k, now, asAccept)] else [])
  }

  /** A queue whose first `i` instances have been swept. */
  function Swept(s: seq<P.Instance>, i: nat, now: int, timeout: int): seq<P.Instance>
    requires i <= |s|
  {
    seq(|s|, k requires 0 <= k < |s| => if k < i then Refresh(s[k], now, timeout) else s[k])
  }

  function Resend(k: nat, now: int, asAccept: bool): P.Event {
    if asAccept then P.ResendAccept(k, now) else P.ResendPrepare(k, now)
  }

  lemma SweptStep(s: seq<P.Instance>, i: nat, now: int, timeout: int)
    requires i < |s|
    ensures Swept(s, i, now, timeout)[i] == s[i]
    ensures Swept(s, i + 1, now, timeout) == Swept(s, i, now, timeout)[i := Refresh(s[i], now, timeout)]
  {
  }

  lemma SweptSkip(s: seq<P.Instance>, i: nat, k: nat, now: int, timeout: int)
    requires i <= k <= |s| && forall j :: i <= j < k ==> !Late(s[j], now, timeout)
    ensures Swept(s, k, now, timeout) == Swept(s, i, now, timeout)
    ensures LateOnes(s[..k], now, timeout) == LateOnes(s[..i], now, timeout)
  {
    SkipQuiet(s, IsLate(now, timeout), i, k);
  }

  lemma SweepSendsLate(s: seq<P.Instance>, i: nat, now: int, timeout: int, asAccept: bool)
    requires i < |s|
    ensures Late(s[i], now, timeout) ==>
              && Resends(s[..i + 1], now, timeout, asAccept) == Resends(s[..i], now, timeout, asAccept) + [Resend(i, now, asAccept)]
              && LateOnes(s[..i + 1], now, timeout) == LateOnes(s[..i], now, timeout) + [s[i]]
    ensures !Late(s[i], now, timeout) ==>
              && Resends(s[..i + 1], now, timeout, asAccept) == Resends(s[..i], now, timeout, asAccept)
              && LateOnes(s[..i + 1], now, timeout) == LateOnes(s[..i], now, timeout)
  {
    assert s[..i + 1][..i] == s[..i];
  }

  lemma SweptKeepsValid(p: P.ProposerState, i: nat, now: int, timeout: int)
    requires P.Valid(p)
    ensures i <= |p.prepare| ==> P.Valid(p.(prepare := Swept(p.prepare, i, now, timeout)))
    ensures i <= |p.accept| ==> P.Valid(p.(accept := Swept(p.accept, i, now, timeout)))
  {
  }

  lemma RequestsMore(s: seq<P.Instance>, x: P.Instance, asAccept: bool)
    ensures Requests(s + [x], asAccept) ==
            Requests(s, asAccept) + [if asAccept then P.AcceptOf(x) else P.PrepareOf(x)]
  {
  }

  lemma SweepPreparesStep(p: P.ProposerState, i: nat, now: int, timeout: int)
    requires P.Valid(p) && i < |p.prepare|
    requires Does(p, Resends(p.prepare[..i], now, timeout, false), p.(prepare := Swept(p.prepare, i, now, timeout)),
              Requests(LateOnes(p.prepare[..i], now, timeout), false))
    ensures Does(p, Resends(p.prepare[..i + 1], now, timeout, false), p.(prepare := Swept(p.prepare, i + 1, now, timeout)),
              Requests(LateOnes(p.prepare[..i + 1], now, timeout), false))
  {
    var s, q := p.prepare, p.(prepare := Swept(p.prepare, i, now, timeout));
    SweptKeepsValid(p, i, now, timeout);
    SweptStep(s, i, now, timeout);
    SweepSendsLate(s, i, now, timeout, false);
    if Late(s[i], now, timeout) {
      var late := LateOnes(s[..i], now, timeout);
      ResendsPrepare(p, Resends(s[..i], now, timeout, false), q, Requests(late, false), i, now);
      RequestsMore(late, s[i], false);
    } else {
      assert Swept(s, i + 1, now, timeout) == Swept(s, i, now, timeout);
    }
  }

  lemma ResendsPrepare(p: P.ProposerState, events: seq<P.Event>, q: P.ProposerState, sent: seq<Request>, k: nat, now: int)
    requires Does(p, events, q, sent) && P.Valid(q) && k < |q.prepare| && !Reached(q.prepare[k].quorum)
    ensures Does(p, events + [P.ResendPrepare(k, now)],
              q.(prepare := q.prepare[k := q.prepare[k].(createdAt := now)]), sent + [P.PrepareOf(q.prepare[k])])
  {
    DoesOneMore(p, events, q, sent, P.ResendPrepare(k, now));
  }

  /** Sweeping the prepare queue is a sequence of resend events. */
  lemma {:induction false} SweepPrepares(p: P.ProposerState, i: nat, now: int, timeout: int)
    requires P.Valid(p) && i <= |p.prepare|
    ensures Does(p, Resends(p.prepare[..i], now, timeout, false), p.(prepare := Swept(p.prepare, i, now, timeout)),
              Requests(LateOnes(p.prepare[..i], now, timeout), false))
  {
    if i == 0 {
      assert Swept(p.prepare, 0, now, timeout) == p.prepare;
      DoesNothing(p);
    } else {
      SweepPrepares(p, i - 1, now, timeout);
      SweepPreparesStep(p, i - 1, now, timeout);
    }
  }

  lemma SweepAcceptsStep(p: P.ProposerState, i: nat, now: int, timeout: int)
    requires P.Valid(p) && i < |p.accept|
    requires Does(p, Resends(p.accept[..i], now, timeout, true), p.(accept := Swept(p.accept, i, now, timeout)),
              Requests(LateOnes(p.accept[..i], now, timeout), true))
    ensures Does(p, Resends(p.accept[..i + 1], now, timeout, true), p.(accept := Swept(p.accept, i + 1, now, timeout)),
              Requests(LateOnes(p.accept[..i + 1], now, timeout), true))
  {
    var s, q := p.accept, p.(accept := Swept(p.accept, i, now, timeout));
    SweptKeepsValid(p, i, now, timeout);
    SweptStep(s, i, now, timeout);
    SweepSendsLate(s, i, now, timeout, true);
    if Late(s[i], now, timeout) {
      var late := LateOnes(s[..i], now, timeout);
      ResendsAccept(p, Resends(s[..i], now, timeout, true), q, Requests(late, true), i, now);
      RequestsMore(late, s[i], true);
    } else {
      assert Swept(s, i + 1, now, timeout) == Swept(s, i, now, timeout);
    }
  }

  lemma ResendsAccept(p: P.ProposerState, events: seq<P.Event>, q: P.ProposerState, sent: seq<Request>, k: nat, now: int)
    requires Does(p, events, q, sent) && P.Valid(q) && k < |q.accept| && !Reached(q.accept[k].quorum)
    ensures Does(p, events + [P.ResendAccept(k, now)],
              q.(accept := q.accept[k := q.accept[k].(createdAt := now)]), sent + [P.AcceptOf(q.accept[k])])
  {
    DoesOneMore(p, events, q, sent, P.ResendAccept(k, now));
  }

  /** ... and so is sweeping the accept queue. */
  lemma {:induction false} SweepAccepts(p: P.ProposerState, i: nat, now: int, timeout: int)
    requires P.Valid(p) && i <= |p.accept|
    ensures Does(p, Resends(p.accept[..i], now, timeout, true), p.(accept := Swept(p.accept, i, now, timeout)),
              Requests(LateOnes(p.accept[..i], now, timeout), true))
  {
    if i == 0 {
      assert Swept(p.accept, 0, now, timeout) == p.accept;
      DoesNothing(p);
    } else {
      SweepAccepts(p, i - 1, now, timeout);
      SweepAcceptsStep(p, i - 1, now, timeout);
    }
  }

  /** A whole sweep: both queues, prepare requests first. */
  lemma SweepIsResends(p: P.ProposerState, now: int, timeout: int)
    requires P.Valid(p)
    ensures Does(p, Resends(p.prepare, now, timeout, false) + Resends(p.accept, now, timeout, true),
              p.(prepare := Refreshed(p.prepare, now, timeout), accept := Refreshed(p.accept, now, timeout)),
              Requests(LateOnes(p.prepare, now, timeout), false) + Requests(LateOnes(p.accept, now, timeout), true))
    ensures P.Valid(p.(prepare := Refreshed(p.prepare, now, timeout), accept := Refreshed(p.accept, now, timeout)))
  {
    SweptKeepsValid(p, |p.prepare|, now, timeout);
    var q := p.(prepare := Refreshed(p.prepare, now, timeout));
    SweepPrepares(p, |p.prepare|, now, timeout);
    assert p.prepare[..|p.prepare|] == p.prepare && p.accept[..|p.accept|] == p.accept;
    assert Swept(p.prepare, |p.prepare|, now, timeout) == Refreshed(p.prepare, now, timeout);
    assert Swept(p.accept, |p.accept|, now, timeout) == Refreshed(p.accept, now, timeout);
    SweptKeepsValid(q, |p.accept|, now, timeout);
    SweepAccepts(q, |p.accept|, now, timeout);
    DoesThen(p, Resends(p.prepare, now, timeout, false), q, Requests(LateOnes(p.prepare, now, timeout), false),
             Resends(p.accept, now, timeout, true), q.(accept := Refreshed(p.accept, now, timeout)),
             Requests(LateOnes(p.accept, now, timeout), true));
  }
}
