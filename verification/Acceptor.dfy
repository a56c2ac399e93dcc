/** The acceptor (paxos/acceptor.c) over an unbounded map of records and over the
    fixed table of paxos/storage_mem.c. */
module Acceptors {
  import opened PaxosTypes

  type Store = map<nat, Record>

  const MAX_RECORDS: nat := 4096

  function Lookup(store: Store, iid: nat): Option<Record> {
    if iid in store then Some(store[iid]) else None
  }

  /** `apply_prepare` with `storage_save_prepare`. */
  function AfterPrepare(id: nat, rec: Option<Record>, iid: nat, ballot: nat): Record {
    match rec
    case None => Record(id, iid, ballot, 0, false, [])
    case Some(r) => if r.ballot >= ballot || r.isFinal then r else r.(ballot := ballot)
  }

  /** `apply_accept` with `storage_save_accept`: no earlier promise is required. */
  function AfterAccept(id: nat, rec: Option<Record>, iid: nat, ballot: nat, value: Value): Record {
    if rec.Some? && rec.value.ballot > ballot then rec.value
    else Record(id, iid, ballot, ballot, false, value)
  }

  /** One request against the map. The reply is the record after the request; only a
      repeat request for an unknown instance has none. */
  function Serve(id: nat, store: Store, req: Request): (Store, Option<Record>) {
    match req
    case PrepareReq(iid, ballot) =>
      var rec := AfterPrepare(id, Lookup(store, iid), iid, ballot);
      (store[iid := rec], Some(rec))
    case AcceptReq(iid, ballot, value) =>
      var rec := AfterAccept(id, Lookup(store, iid), iid, ballot, value);
      (store[iid := rec], Some(rec))
    case RepeatReq(iid) => (store, Lookup(store, iid))
  }

  ghost function ServeAll(id: nat, store: Store, reqs: seq<Request>): Store {
    if reqs == [] then store
    else Serve(id, ServeAll(id, store, reqs[..|reqs| - 1]), reqs[|reqs| - 1]).0
  }

  /** The reply to `req` after the requests in `history`. */
  ghost function ReplyTo(id: nat, history: seq<Request>, req: Request): Option<Record> {
    Serve(id, ServeAll(id, map[], history), req).1
  }

  // ---- who receives the reply (evpaxos/evacceptor.c) -------------------------

  datatype Delivery = Broadcast(rec: Record) | ToSender(rec: Record) | Silence

  function Route(req: Request, reply: Option<Record>): Delivery {
    match reply
    case None => Silence
    case Some(rec) =>
      if req.AcceptReq? && req.ballot == rec.ballot then Broadcast(rec) else ToSender(rec)
  }

  // ---- whole runs over the map -----------------------------------------------

  ghost predicate StoreOk(id: nat, store: Store) {
    forall i :: i in store ==>
      && store[i].acceptor == id && store[i].iid == i && !store[i].isFinal
      && store[i].valueBallot <= store[i].ballot
  }

  lemma {:induction false} RunsKeepStoreOk(id: nat, reqs: seq<Request>)
    ensures StoreOk(id, ServeAll(id, map[], reqs))
  {
    if reqs != [] {
      RunsKeepStoreOk(id, reqs[..|reqs| - 1]);
    }
  }

  /** What is broadcast as accepted is exactly the vote that was asked for; a record with
      a different ballot goes to the sender alone and carries a higher ballot. */
  lemma BroadcastIsTheVote(id: nat, history: seq<Request>, req: Request)
    requires req.AcceptReq?
    ensures match Route(req, ReplyTo(id, history, req))
      case Broadcast(rec) => rec == Record(id, req.iid, req.ballot, req.ballot, false, req.value)
      case ToSender(rec) => rec.acceptor == id && rec.iid == req.iid && rec.ballot > req.ballot
      case Silence => false
  {
    RunsKeepStoreOk(id, history);
  }

  /** The promise over whole runs: ballots and value ballots never decrease, and once some
      reply carried ballot b, every value stored later was asked for at ballot b or above. */
  lemma {:induction false} PromiseIsKept(id: nat, reqs: seq<Request>, k: nat, iid: nat)
    requires k <= |reqs|
    requires iid in ServeAll(id, map[], reqs[..k])
    ensures iid in ServeAll(id, map[], reqs)
    ensures var before, after := ServeAll(id, map[], reqs[..k])[iid], ServeAll(id, map[], reqs)[iid];
      && before.ballot <= after.ballot
      && before.valueBallot <= after.valueBallot <= after.ballot
      && ((after.valueBallot == before.valueBallot && after.value == before.value)
          || before.ballot <= after.valueBallot)
    decreases |reqs|
  {
    RunsKeepStoreOk(id, reqs[..k]);
    if k == |reqs| {
      assert reqs[..k] == reqs;
    } else {
      var init := reqs[..|reqs| - 1];
      assert init[..k] == reqs[..k];
      PromiseIsKept(id, init, k, iid);
      RunsKeepStoreOk(id, init);
    }
  }

  /** An accept request for this instance and ballot is among the requests. */
  ghost predicate Asked(history: seq<Request>, iid: nat, ballot: nat) {
    exists k :: 0 <= k < |history| && history[k].AcceptReq? && history[k].iid == iid && history[k].ballot == ballot
  }

  lemma AskedMore(init: seq<Request>, last: Request, iid: nat, ballot: nat)
    ensures Asked(init + [last], iid, ballot) <==>
              Asked(init, iid, ballot) || (last.AcceptReq? && last.iid == iid && last.ballot == ballot)
  {
    var history := init + [last];
    assert history[|init|] == last;
    assert forall k :: 0 <= k < |init| ==> history[k] == init[k];
  }

  ghost predicate PositiveBallots(history: seq<Request>) {
    forall k :: 0 <= k < |history| && !history[k].RepeatReq? ==> history[k].ballot > 0
  }

  /** When a repeat reply is a vote. The reply for an instance carries the highest ballot the
      acceptor was ever asked for it, and reports a vote at that ballot if and only if that
      ballot arrived in an accept request; otherwise it is only a promise. */
  lemma {:induction false} RepeatReplyIsVoteIff(id: nat, history: seq<Request>, iid: nat)
    requires PositiveBallots(history)
    ensures match ReplyTo(id, history, RepeatReq(iid))
      case None => forall k :: 0 <= k < |history| ==> history[k].RepeatReq? || history[k].iid != iid
      case Some(rec) =>
        && (forall k :: 0 <= k < |history| && !history[k].RepeatReq? && history[k].iid == iid ==>
              history[k].ballot <= rec.ballot)
        && (rec.valueBallot == rec.ballot <==> Asked(history, iid, rec.ballot))
        && (forall b: nat :: b > rec.ballot ==> !Asked(history, iid, b))
  {
    if history != [] {
      var init, last := history[..|history| - 1], history[|history| - 1];
      assert history == init + [last];
      RepeatReplyIsVoteIff(id, init, iid);
      RunsKeepStoreOk(id, init);
      var before, after := ServeAll(id, map[], init), ServeAll(id, map[], history);
      if iid in after {
        AskedMore(init, last, iid, after[iid].ballot);
      }
      assert forall k :: 0 <= k < |init| ==> init[k] == history[k];
    }
  }

  /** The highest ballot asked for the instance, in a prepare or an accept request; 0 if none. */
  ghost function Highest(history: seq<Request>, iid: nat): nat {
    if history == [] then 0
    else
      var before, last := Highest(history[..|history| - 1], iid), history[|history| - 1];
      if !last.RepeatReq? && last.iid == iid && last.ballot > before then last.ballot else before
  }

  /** `Highest` is the maximum, and some request carried it. */
  lemma {:induction false} HighestIsMaximum(history: seq<Request>, iid: nat)
    ensures forall k :: 0 <= k < |history| && !history[k].RepeatReq? && history[k].iid == iid ==>
              history[k].ballot <= Highest(history, iid)
    ensures Highest(history, iid) > 0 ==>
              exists k :: 0 <= k < |history| && !history[k].RepeatReq? && history[k].iid == iid
                          && history[k].ballot == Highest(history, iid)
  {
    if history != [] {
      var init, last := history[..|history| - 1], history[|history| - 1];
      HighestIsMaximum(init, iid);
      assert forall k :: 0 <= k < |init| ==> init[k] == history[k];
      if Highest(history, iid) > 0 && Highest(history, iid) == Highest(init, iid) {
        var k :| 0 <= k < |init| && !init[k].RepeatReq? && init[k].iid == iid && init[k].ballot == Highest(init, iid);
        assert history[k] == init[k];
      }
    }
  }

  /** What an acceptor holds for an instance is at the highest ballot it was asked for. */
  lemma {:induction false} StoreHoldsHighest(id: nat, history: seq<Request>, iid: nat)
    requires PositiveBallots(history)
    ensures var store := ServeAll(id, map[], history);
      (iid in store <==> Highest(history, iid) > 0) && (iid in store ==> store[iid].ballot == Highest(history, iid))
  {
    if history != [] {
      var init := history[..|history| - 1];
      assert forall k :: 0 <= k < |init| ==> init[k] == history[k];
      StoreHoldsHighest(id, init, iid);
      RunsKeepStoreOk(id, init);
    }
  }

  /** An accept request is refused if and only if a higher ballot was asked for before, and the
      refusal carries the highest such ballot. It reports a vote at that ballot if and only if
      an accept request asked for it. */
  lemma RefusalMeaning(id: nat, history: seq<Request>, req: Request)
    requires PositiveBallots(history)
    requires req.AcceptReq?
    ensures var h, reply := Highest(history, req.iid), ReplyTo(id, history, req);
      && reply.Some? && reply.value.iid == req.iid
      && (Route(req, reply).ToSender? <==> req.ballot < h)
      && (req.ballot < h ==>
            reply.value.ballot == h && (reply.value.valueBallot == h <==> Asked(history, req.iid, h)))
  {
    StoreHoldsHighest(id, history, req.iid);
    RunsKeepStoreOk(id, history);
    RepeatReplyIsVoteIff(id, history, req.iid);
  }

  /** The accept request for the instance that was accepted last, as its ballot and value: one that
      was not below any ballot asked for before it. */
  ghost function LastVote(history: seq<Request>, iid: nat): (nat, Value) {
    if history == [] then (0, [])
    else
      var init, last := history[..|history| - 1], history[|history| - 1];
      if last.AcceptReq? && last.iid == iid && last.ballot >= Highest(init, iid) then (last.ballot, last.value)
      else LastVote(init, iid)
  }

  /** What an acceptor must know about an instance after the requests: the highest ballot it was
      asked for and the vote it cast last. */
  ghost function Known(id: nat, history: seq<Request>, iid: nat): Record {
    Record(id, iid, Highest(history, iid), LastVote(history, iid).0, false, LastVote(history, iid).1)
  }

  lemma {:induction false} StoreIsKnown(id: nat, history: seq<Request>, iid: nat)
    requires PositiveBallots(history)
    ensures Lookup(ServeAll(id, map[], history), iid)
            == if Highest(history, iid) > 0 then Some(Known(id, history, iid)) else None
    ensures Highest(history, iid) == 0 ==> LastVote(history, iid) == (0, [])
  {
    if history != [] {
      var init := history[..|history| - 1];
      assert forall k :: 0 <= k < |init| ==> init[k] == history[k];
      StoreIsKnown(id, init, iid);
    }
  }

  /** The answer that is due to a request after a history. */
  ghost function Due(id: nat, history: seq<Request>, req: Request): Delivery {
    match req
    case PrepareReq(iid, _) => ToSender(Known(id, history + [req], iid))
    case AcceptReq(iid, b, v) =>
      if Highest(history, iid) <= b then Broadcast(Record(id, iid, b, b, false, v))
      else ToSender(Known(id, history, iid))
    case RepeatReq(iid) =>
      if Highest(history, iid) > 0 then ToSender(Known(id, history, iid)) else Silence
  }

  /** Who is told what, for every request after every history. A prepare request is always answered,
      to its sender alone, with all that is known, this request included. An accept request is
      broadcast as the vote it asks for unless a higher ballot was asked for before, in which case
      its sender alone is told what is known. A repeat request is answered, to its sender alone and
      with what is known, if and only if the instance was asked for before. */
  lemma ReplyMeaning(id: nat, history: seq<Request>, req: Request)
    requires PositiveBallots(history + [req])
    ensures Route(req, ReplyTo(id, history, req)) == Due(id, history, req)
  {
    var all := history + [req];
    assert all[..|history|] == history && all[|history|] == req;
    assert forall k :: 0 <= k < |history| ==> history[k] == all[k];
    StoreIsKnown(id, history, req.iid);
    StoreIsKnown(id, all, req.iid);
  }

  // ---- the fixed table ---------------------------------------------------------

  /** `storage_get_record` ends the process when the slot holds a later instance. */
  predicate TooOld(table: seq<Record>, iid: nat)
    requires |table| == MAX_RECORDS
  {
    iid < table[iid % MAX_RECORDS].iid
  }

  function TableLookup(table: seq<Record>, iid: nat): Option<Record>
    requires |table| == MAX_RECORDS
  {
    var rec := table[iid % MAX_RECORDS];
    if iid == rec.iid then Some(rec) else None
  }

  /** One request against the table; `None` means the process has exited. */
  function ServeTable(id: nat, table: seq<Record>, req: Request)
    : (r: Option<(seq<Record>, Option<Record>)>)
    requires |table| == MAX_RECORDS
    ensures r.Some? ==> |r.value.0| == MAX_RECORDS
  {
    if TooOld(table, req.iid) then None
    else
      var found := TableLookup(table, req.iid);
      match req
      case PrepareReq(iid, ballot) =>
        var rec := AfterPrepare(id, found, iid, ballot);
        Some((table[iid % MAX_RECORDS := rec], Some(rec)))
      case AcceptReq(iid, ballot, value) =>
        var rec := AfterAccept(id, found, iid, ballot, value);
        Some((table[iid % MAX_RECORDS := rec], Some(rec)))
      case RepeatReq(_) => Some((table, found))
  }

  /** A table fresh from `storage_open`: only the instance ids are initialised. */
  ghost predicate Opened(table: seq<Record>) {
    |table| == MAX_RECORDS && forall k :: 0 <= k < MAX_RECORDS ==> table[k].iid == 0
  }

  /** The table after a sequence of requests, and how many were answered before exiting. */
  ghost function TableRun(id: nat, table: seq<Record>, reqs: seq<Request>)
    : (r: (seq<Record>, seq<Option<Record>>))
    requires |table| == MAX_RECORDS
    ensures |r.0| == MAX_RECORDS && |r.1| <= |reqs|
  {
    if reqs == [] then (table, [])
    else
      var init := reqs[..|reqs| - 1];
      var (t, replies) := TableRun(id, table, init);
      if |replies| < |init| then (t, replies)
      else match ServeTable(id, t, reqs[|reqs| - 1])
        case None => (t, replies)
        case Some((t', reply)) => (t', replies + [reply])
  }

  ghost predicate Represents(table: seq<Record>, store: Store)
    requires |table| == MAX_RECORDS
  {
    && (forall k :: 0 <= k < MAX_RECORDS && table[k].iid != 0 ==>
          && table[k].iid % MAX_RECORDS == k
          && table[k].iid in store && store[table[k].iid] == table[k])
    && (forall i :: i in store ==> 1 <= i <= table[i % MAX_RECORDS].iid)
  }

  /** One step of the simulation. */
  lemma TableStep(id: nat, table: seq<Record>, store: Store, req: Request)
    requires |table| == MAX_RECORDS && Represents(table, store) && StoreOk(id, store) && req.iid >= 1
    ensures TooOld(table, req.iid) <==>
              exists i :: i in store && i > req.iid && i % MAX_RECORDS == req.iid % MAX_RECORDS
    ensures match ServeTable(id, table, req)
      case None => TooOld(table, req.iid)
      case Some((t, reply)) =>
        && !TooOld(table, req.iid)
        && reply == Serve(id, store, req).1 && Represents(t, Serve(id, store, req).0)
  {
    var k := req.iid % MAX_RECORDS;
    if TooOld(table, req.iid) {
      var i := table[k].iid;
      assert i in store && i > req.iid && i % MAX_RECORDS == k;
    } else {
      assert TableLookup(table, req.iid) == Lookup(store, req.iid);
      var (t, _) := ServeTable(id, table, req).value;
      if !req.RepeatReq? {
        assert t[k].iid == req.iid;
        assert forall j :: 0 <= j < MAX_RECORDS && j != k ==> t[j] == table[j];
      }
    }
  }

  /** The instances that have been prepared or accepted. */
  ghost function Touched(reqs: seq<Request>): set<nat> {
    set j: nat | j < |reqs| && !reqs[j].RepeatReq? :: reqs[j].iid
  }

  lemma {:induction false} StoreHoldsTouched(id: nat, reqs: seq<Request>)
    ensures ServeAll(id, map[], reqs).Keys == Touched(reqs)
  {
    if reqs != [] {
      var init, last := reqs[..|reqs| - 1], reqs[|reqs| - 1];
      StoreHoldsTouched(id, init);
      assert forall j: nat :: j < |init| ==> init[j] == reqs[j];
      assert Touched(reqs) == Touched(init) + (if last.RepeatReq? then {} else {last.iid}) by {
        assert reqs[|reqs| - 1] == last;
        forall x | x in Touched(reqs)
          ensures x in Touched(init) + (if last.RepeatReq? then {} else {last.iid})
        {
          var j: nat :| j < |reqs| && !reqs[j].RepeatReq? && x == reqs[j].iid;
          if j < |init| {
            assert !init[j].RepeatReq? && x == init[j].iid;
          }
        }
        forall x | x in Touched(init)
          ensures x in Touched(reqs)
        {
          var j: nat :| j < |init| && !init[j].RepeatReq? && x == init[j].iid;
          assert !reqs[j].RepeatReq? && x == reqs[j].iid;
        }
      }
    }
  }

  /** The request is for an instance whose slot was given to a later instance. */
  ghost predicate AsksForForgotten(history: seq<Request>, req: Request) {
    exists i :: i in Touched(history) && i > req.iid && i % MAX_RECORDS == req.iid % MAX_RECORDS
  }

  /** Every reply is the reply of the map, and none was for an evicted instance. */
  ghost predicate AnswersAsMap(id: nat, reqs: seq<Request>, replies: seq<Option<Record>>)
    requires |replies| <= |reqs|
  {
    forall k :: 0 <= k < |replies| ==>
      replies[k] == ReplyTo(id, reqs[..k], reqs[k]) && !AsksForForgotten(reqs[..k], reqs[k])
  }

  lemma AnswersOfPrefix(id: nat, init: seq<Request>, last: Request, replies: seq<Option<Record>>)
    requires |replies| <= |init| && AnswersAsMap(id, init, replies)
    ensures AnswersAsMap(id, init + [last], replies)
  {
    var reqs := init + [last];
    forall k | 0 <= k < |replies|
      ensures replies[k] == ReplyTo(id, reqs[..k], reqs[k]) && !AsksForForgotten(reqs[..k], reqs[k])
    {
      assert init[..k] == reqs[..k] && init[k] == reqs[k];
    }
  }

  /** The bounded table refines the unbounded map, for every request sequence with instance
      ids from 1: every reply given is the reply of the map, and the process exits exactly
      at the first request for an instance that has been evicted. */
  lemma {:induction false} TableRefinesMap(id: nat, table: seq<Record>, reqs: seq<Request>)
    requires Opened(table)
    requires forall j :: 0 <= j < |reqs| ==> reqs[j].iid >= 1
    ensures var (t, replies) := TableRun(id, table, reqs); Refines(id, reqs, t, replies)
  {
    if reqs != [] {
      var init, last := reqs[..|reqs| - 1], reqs[|reqs| - 1];
      TableRefinesMap(id, table, init);
      var (t, replies) := TableRun(id, table, init);
      assert reqs == init + [last];
      if |replies| < |init| {
        DeadStep(id, t, init, last, replies);
      } else {
        LiveStep(id, t, init, last, replies);
      }
    }
  }

  /** All replies are those of the map; if one is missing, the next request was for an evicted
      instance, and otherwise the table represents the map. */
  ghost predicate Refines(id: nat, reqs: seq<Request>, t: seq<Record>, replies: seq<Option<Record>>) {
    && |t| == MAX_RECORDS && |replies| <= |reqs| && AnswersAsMap(id, reqs, replies)
    && (|replies| < |reqs| ==> AsksForForgotten(reqs[..|replies|], reqs[|replies|]))
    && (|replies| == |reqs| ==> Represents(t, ServeAll(id, map[], reqs)))
  }

  /** One more request to a process that has exited. */
  lemma DeadStep(id: nat, t: seq<Record>, init: seq<Request>, last: Request, replies: seq<Option<Record>>)
    requires Refines(id, init, t, replies) && |replies| < |init|
    ensures Refines(id, init + [last], t, replies)
  {
    var reqs := init + [last];
    AnswersOfPrefix(id, init, last, replies);
    assert init[..|replies|] == reqs[..|replies|] && init[|replies|] == reqs[|replies|];
  }

  /** One more request to a table that has answered all of `init`. */
  lemma LiveStep(id: nat, t: seq<Record>, init: seq<Request>, last: Request, replies: seq<Option<Record>>)
    requires Refines(id, init, t, replies) && |replies| == |init| && last.iid >= 1
    ensures match ServeTable(id, t, last)
      case None => Refines(id, init + [last], t, replies)
      case Some((t', reply)) => Refines(id, init + [last], t', replies + [reply])
  {
    var reqs := init + [last];
    assert reqs[..|init|] == init && reqs[|init|] == last;
    AnswersOfPrefix(id, init, last, replies);
    AnsweredStep(id, t, init, last);
    if !TooOld(t, last.iid) {
      AnswersStep(id, init, last, replies);
    }
  }

  lemma AnswersStep(id: nat, init: seq<Request>, last: Request, replies: seq<Option<Record>>)
    requires |replies| == |init| && AnswersAsMap(id, init + [last], replies)
    requires !AsksForForgotten(init, last)
    ensures AnswersAsMap(id, init + [last], replies + [ReplyTo(id, init, last)])
  {
    assert (init + [last])[..|init|] == init;
  }

  lemma AnsweredStep(id: nat, t: seq<Record>, history: seq<Request>, req: Request)
    requires |t| == MAX_RECORDS && Represents(t, ServeAll(id, map[], history)) && req.iid >= 1
    ensures TooOld(t, req.iid) == AsksForForgotten(history, req)
    ensures match ServeTable(id, t, req)
      case None => TooOld(t, req.iid)
      case Some((t', reply)) =>
        && !TooOld(t, req.iid)
        && reply == ReplyTo(id, history, req)
        && Represents(t', Serve(id, ServeAll(id, map[], history), req).0)
  {
    StoreHoldsTouched(id, history);
    RunsKeepStoreOk(id, history);
    TableStep(id, t, ServeAll(id, map[], history), req);
    assert forall i :: i in ServeAll(id, map[], history) <==> i in Touched(history);
  }

  lemma ResidueGap(i: nat, r: nat)
    ensures i > r && i % MAX_RECORDS == r % MAX_RECORDS ==> i >= r + 4096
    ensures i == r + 4096 ==> i % MAX_RECORDS == r % MAX_RECORDS
  {
  }

  lemma CloseIsKept(history: seq<Request>, req: Request)
    requires forall j :: 0 <= j < |history| ==> history[j].iid < req.iid + 4096
    ensures !AsksForForgotten(history, req)
  {
    forall i | i in Touched(history) && i > req.iid
      ensures i % MAX_RECORDS != req.iid % MAX_RECORDS
    {
      ResidueGap(i, req.iid);
    }
  }

  lemma FarIsForgotten(history: seq<Request>, j: nat, req: Request)
    requires j < |history| && !history[j].RepeatReq? && history[j].iid == req.iid + 4096
    ensures AsksForForgotten(history, req)
  {
    ResidueGap(history[j].iid, req.iid);
    assert history[j].iid in Touched(history);
  }

  /** Requests whose instance ids are less than 4096 apart never make the process exit. */
  lemma CloseIdsAreServed(id: nat, table: seq<Record>, reqs: seq<Request>)
    requires Opened(table) && forall j :: 0 <= j < |reqs| ==> reqs[j].iid >= 1
    requires forall j, k :: 0 <= j < |reqs| && 0 <= k < |reqs| ==> reqs[j].iid < reqs[k].iid + 4096
    ensures |TableRun(id, table, reqs).1| == |reqs|
  {
    var (t, replies) := TableRun(id, table, reqs);
    if |replies| < |reqs| {
      CloseIsKept(reqs[..|replies|], reqs[|replies|]);
    }
    TableRefinesMap(id, table, reqs);
  }

  /** An instance is forgotten as soon as the one 4096 later is prepared or accepted: the process
      exits at the latest when it is asked for again. */
  lemma EvictedIsNotServed(id: nat, table: seq<Record>, reqs: seq<Request>, j: nat, k: nat)
    requires Opened(table) && forall j :: 0 <= j < |reqs| ==> reqs[j].iid >= 1
    requires j < k < |reqs| && !reqs[j].RepeatReq? && reqs[j].iid == reqs[k].iid + 4096
    ensures |TableRun(id, table, reqs).1| <= k
  {
    FarIsForgotten(reqs[..k], j, reqs[k]);
    TableRefinesMap(id, table, reqs);
  }

  // ---- the objects ---------------------------------------------------------------

  class Storage {
    const acceptorId: nat
    const records: array<Record>

    ghost predicate Valid() {
      records.Length == MAX_RECORDS
    }

    constructor (id: nat)
      ensures Valid() && fresh(records) && acceptorId == id
      ensures Opened(records[..])
    {
      acceptorId := id;
      records := new Record[MAX_RECORDS];
      new;
      var i := 0;
      while i < MAX_RECORDS
        invariant 0 <= i <= MAX_RECORDS
        invariant forall k :: 0 <= k < i ==> records[k].iid == 0
      {
        records[i] := records[i].(iid := 0);
        i := i + 1;
      }
    }

    method GetRecord(iid: nat) returns (exited: bool, rec: Option<Record>)
      requires Valid()
      ensures exited == TooOld(records[..], iid)
      ensures !exited ==> rec == TableLookup(records[..], iid)
    {
      var buffer := records[iid % MAX_RECORDS];
      if iid < buffer.iid {
        return true, None;
      }
      return false, if iid == buffer.iid then Some(buffer) else None;
    }

    method SaveAccept(iid: nat, ballot: nat, value: Value) returns (rec: Record)
      requires Valid()
      modifies records
      ensures rec == Record(acceptorId, iid, ballot, ballot, false, value)
      ensures records[..] == old(records[..])[iid % MAX_RECORDS := rec]
    {
      rec := Record(acceptorId, iid, ballot, ballot, false, value);
      records[iid % MAX_RECORDS] := rec;
    }

    method SavePrepare(iid: nat, ballot: nat, found: Option<Record>) returns (rec: Record)
      requires Valid()
      requires found.Some? ==> found.value == records[iid % MAX_RECORDS]
      modifies records
      ensures rec == if found.None? then Record(acceptorId, iid, ballot, 0, false, [])
                     else found.value.(ballot := ballot)
      ensures records[..] == old(records[..])[iid % MAX_RECORDS := rec]
    {
      if found.None? {
        rec := Record(acceptorId, iid, ballot, 0, false, []);
      } else {
        rec := found.value.(ballot := ballot);
      }
      records[iid % MAX_RECORDS] := rec;
    }
  }

  class Acceptor {
    const store: Storage

    ghost predicate Valid() {
      store.Valid()
    }

    ghost function Table(): seq<Record>
      requires Valid()
      reads store.records
    {
      store.records[..]
    }

    constructor (id: nat)
      ensures Valid() && fresh(store) && fresh(store.records)
      ensures store.acceptorId == id && Opened(Table())
    {
      store := new Storage(id);
    }

    method ReceivePrepare(iid: nat, ballot: nat) returns (exited: bool, rec: Option<Record>)
      requires Valid()
      modifies store.records
      ensures match ServeTable(store.acceptorId, old(Table()), PrepareReq(iid, ballot))
        case None => exited && Table() == old(Table())
        case Some((table, reply)) => !exited && Table() == table && rec == reply
    {
      exited, rec := store.GetRecord(iid);
      if exited {
        return;
      }
      if rec.Some? && rec.value.ballot >= ballot {
        return;
      }
      if rec.Some? && rec.value.isFinal {
        return;
      }
      var saved := store.SavePrepare(iid, ballot, rec);
      rec := Some(saved);
    }

    method ReceiveAccept(iid: nat, ballot: nat, value: Value) returns (exited: bool, rec: Option<Record>)
      requires Valid()
      modifies store.records
      ensures match ServeTable(store.acceptorId, old(Table()), AcceptReq(iid, ballot, value))
        case None => exited && Table() == old(Table())
        case Some((table, reply)) => !exited && Table() == table && rec == reply
    {
      exited, rec := store.GetRecord(iid);
      if exited {
        return;
      }
      if rec.Some? && rec.value.ballot > ballot {
        return;
      }
      var saved := store.SaveAccept(iid, ballot, value);
      rec := Some(saved);
    }

    method ReceiveRepeat(iid: nat) returns (exited: bool, rec: Option<Record>)
      requires Valid()
      ensures exited == ServeTable(store.acceptorId, Table(), RepeatReq(iid)).None?
      ensures !exited ==> rec == ServeTable(store.acceptorId, Table(), RepeatReq(iid)).value.1
    {
      exited, rec := store.GetRecord(iid);
    }
  }
}
