/** The invariant of stores and messages, and why it gives agreement. Nothing here mentions
    proposer state: a proposal enters only through `NewProposalKeepsWorld`. */
module World {
  import opened PaxosTypes
  import opened Majorities
  import opened Acceptors
  import opened Protocol

  /** `a` has not voted at `c` and never will. */
  ghost predicate WontVote(stores: seq<Store>, net: set<Msg>, a: nat, iid: nat, c: nat)
    requires a < |stores|
  {
    c < Promised(stores, a, iid) && forall v :: !Voted(net, a, iid, c, v)
  }

  /** The acceptors that can no longer help any value but `v` to be chosen at ballot `c`. */
  ghost function Behind(stores: seq<Store>, net: set<Msg>, iid: nat, c: nat, v: Value): set<nat> {
    set a | a in Ids(|stores|) && (Voted(net, a, iid, c, v) || WontVote(stores, net, a, iid, c))
  }

  /** No value other than `v` was or can ever be chosen below ballot `b`. */
  ghost predicate SafeAt(stores: seq<Store>, net: set<Msg>, iid: nat, b: nat, v: Value) {
    forall c: nat :: c < b ==> |Behind(stores, net, iid, c, v)| >= PaxosQuorum(|stores|)
  }

  // ---- the invariant ----------------------------------------------------------------

  ghost predicate RecordOk(net: set<Msg>, a: nat, iid: nat, rec: Record) {
    && rec.acceptor == a && rec.iid == iid && !rec.isFinal
    && 0 < rec.ballot && rec.valueBallot <= rec.ballot
    && (rec.valueBallot == 0 <==> rec.value == [])
    && (rec.valueBallot > 0 ==>
          Proposed(net, iid, rec.valueBallot, rec.value) && Voted(net, a, iid, rec.valueBallot, rec.value))
  }

  ghost predicate StoresOk(stores: seq<Store>, net: set<Msg>) {
    forall a: nat, iid :: a < |stores| && iid in stores[a] ==> RecordOk(net, a, iid, stores[a][iid])
  }

  ghost predicate VoteOk(stores: seq<Store>, net: set<Msg>, a: nat, iid: nat, b: nat, v: Value) {
    && a < |stores| && 0 < b && Proposed(net, iid, b, v)
    && iid in stores[a] && b <= stores[a][iid].valueBallot
  }

  ghost predicate VotesOk(stores: seq<Store>, net: set<Msg>) {
    forall a, iid, b, v :: Voted(net, a, iid, b, v) ==> VoteOk(stores, net, a, iid, b, v)
  }

  ghost predicate NoVotesBetween(net: set<Msg>, a: nat, iid: nat, lo: nat, hi: nat) {
    forall c, v :: lo < c < hi ==> !Voted(net, a, iid, c, v)
  }

  ghost predicate PromiseOk(stores: seq<Store>, net: set<Msg>, rec: Record) {
    && rec.acceptor < |stores| && rec.ballot <= Promised(stores, rec.acceptor, rec.iid)
    && rec.valueBallot <= rec.ballot
    && (rec.valueBallot == 0 <==> rec.value == [])
    && (rec.valueBallot > 0 ==> Proposed(net, rec.iid, rec.valueBallot, rec.value))
    && NoVotesBetween(net, rec.acceptor, rec.iid, rec.valueBallot, rec.ballot)
  }

  ghost predicate PromisesOk(stores: seq<Store>, net: set<Msg>) {
    forall rec :: PrepareAck(rec) in net ==> PromiseOk(stores, net, rec)
  }

  ghost predicate AckOk(stores: seq<Store>, net: set<Msg>, rec: Record) {
    rec.acceptor < |stores| && !rec.isFinal && rec.valueBallot <= rec.ballot
  }

  ghost predicate AcksOk(stores: seq<Store>, net: set<Msg>) {
    forall rec :: AcceptAck(rec) in net ==> AckOk(stores, net, rec)
  }

  ghost predicate ProposalsSafe(stores: seq<Store>, net: set<Msg>) {
    forall iid, b, v :: Proposed(net, iid, b, v) ==> SafeAt(stores, net, iid, b, v)
  }

  ghost predicate RequestsOk(net: set<Msg>) {
    && (forall iid, b :: Ask(PrepareReq(iid, b)) in net ==> 0 < b)
    && (forall iid, b, v :: Proposed(net, iid, b, v) ==> 1 <= iid && 0 < b && v != [])
  }

  /** One value per ballot. */
  ghost predicate OneValue(net: set<Msg>) {
    forall iid, b, v, w :: Proposed(net, iid, b, v) && Proposed(net, iid, b, w) ==> v == w
  }

  ghost predicate WorldOk(stores: seq<Store>, net: set<Msg>) {
    && StoresOk(stores, net) && VotesOk(stores, net)
    && PromisesOk(stores, net) && AcksOk(stores, net)
    && ProposalsSafe(stores, net) && RequestsOk(net) && OneValue(net)
  }

  // ---- agreement from the invariant ----------------------------------------------------

  /** A safe value is the only one that can have been chosen below its ballot. */
  lemma SafeExcludesOthers(stores: seq<Store>, net: set<Msg>, iid: nat, b: nat, v: Value, c: nat, w: Value)
    requires VotesOk(stores, net) && OneValue(net)
    requires SafeAt(stores, net, iid, b, v)
    requires c < b && Chosen(|stores|, net, iid, c, w)
    ensures w == v
  {
    var n := |stores|;
    var a := MajoritiesMeet(n, Behind(stores, net, iid, c, v), Voters(n, net, iid, c, w));
    assert Voted(net, a, iid, c, w);
    assert Voted(net, a, iid, c, v);
    assert VoteOk(stores, net, a, iid, c, w) && VoteOk(stores, net, a, iid, c, v);
  }

  lemma ChosenWasProposed(stores: seq<Store>, net: set<Msg>, iid: nat, b: nat, v: Value)
    requires VotesOk(stores, net) && Chosen(|stores|, net, iid, b, v)
    ensures Proposed(net, iid, b, v)
  {
    var voters := Voters(|stores|, net, iid, b, v);
    assert |voters| >= 1;
    var a :| a in voters;
    assert VoteOk(stores, net, a, iid, b, v);
  }

  lemma WorldAgrees(stores: seq<Store>, net: set<Msg>, iid: nat, b: nat, v: Value, c: nat, w: Value)
    requires WorldOk(stores, net)
    requires Chosen(|stores|, net, iid, b, v) && Chosen(|stores|, net, iid, c, w)
    ensures v == w
  {
    ChosenWasProposed(stores, net, iid, b, v);
    ChosenWasProposed(stores, net, iid, c, w);
    if c < b {
      SafeExcludesOthers(stores, net, iid, b, v, c, w);
    } else if b < c {
      SafeExcludesOthers(stores, net, iid, c, w, b, v);
    }
  }

  // ---- stability --------------------------------------------------------------------------

  /** Promises and messages only grow, and new votes respect old promises. */
  ghost predicate Extends(stores: seq<Store>, net: set<Msg>, stores': seq<Store>, net': set<Msg>) {
    && |stores'| == |stores| && net <= net'
    && (forall a: nat, iid :: a < |stores| ==> Promised(stores, a, iid) <= Promised(stores', a, iid))
    && (forall a: nat, iid, b, v :: a < |stores| && Voted(net', a, iid, b, v) ==>
          Voted(net, a, iid, b, v) || Promised(stores, a, iid) <= b)
  }

  lemma SafeStaysSafe(stores: seq<Store>, net: set<Msg>, stores': seq<Store>, net': set<Msg>,
                      iid: nat, b: nat, v: Value)
    requires Extends(stores, net, stores', net') && SafeAt(stores, net, iid, b, v)
    ensures SafeAt(stores', net', iid, b, v)
  {
    forall c: nat | c < b
      ensures |Behind(stores', net', iid, c, v)| >= PaxosQuorum(|stores'|)
    {
      var before, after := Behind(stores, net, iid, c, v), Behind(stores', net', iid, c, v);
      forall a | a in before
        ensures a in after
      {
      }
      SubsetSize(before, after);
    }
  }

  lemma ProposalsStaySafe(stores: seq<Store>, net: set<Msg>, stores': seq<Store>, net': set<Msg>)
    requires Extends(stores, net, stores', net') && ProposalsSafe(stores, net)
    requires forall iid, b, v :: Proposed(net', iid, b, v) ==> Proposed(net, iid, b, v)
    ensures ProposalsSafe(stores', net')
  {
    forall iid, b, v | Proposed(net', iid, b, v)
      ensures SafeAt(stores', net', iid, b, v)
    {
      SafeStaysSafe(stores, net, stores', net', iid, b, v);
    }
  }

  /** The stores after acceptor `a` saved the record. */
  function Put(stores: seq<Store>, a: nat, iid: nat, rec: Record): seq<Store>
    requires a < |stores|
  {
    var store: Store := stores[a][iid := rec];
    stores[a := store]
  }

  // ---- acceptor steps: a record that carries no new vote ------------------------------------

  /** The record's vote is the one stored before, and its ballot is at least the old promise. */
  ghost predicate Keeps(stores: seq<Store>, a: nat, iid: nat, rec: Record)
    requires a < |stores|
  {
    && rec.acceptor == a && rec.iid == iid && !rec.isFinal && 0 < rec.ballot
    && if iid in stores[a]
       then rec == stores[a][iid].(ballot := rec.ballot) && stores[a][iid].ballot <= rec.ballot
       else rec.valueBallot == 0 && rec.value == []
  }

  /** Sending the record announces no vote that was not announced before. */
  ghost predicate NoNewVote(net: set<Msg>, m: Msg, rec: Record) {
    m == PrepareAck(rec)
    || (m == AcceptAck(rec) && (rec.valueBallot == rec.ballot ==> m in net))
  }

  lemma KeptRecordExtends(stores: seq<Store>, net: set<Msg>, a: nat, iid: nat, rec: Record, m: Msg)
    requires a < |stores| && Keeps(stores, a, iid, rec) && NoNewVote(net, m, rec)
    ensures Extends(stores, net, Put(stores, a, iid, rec), net + {m})
    ensures forall b: nat, i, c, v :: Voted(net + {m}, b, i, c, v) ==> Voted(net, b, i, c, v)
    ensures forall i, b, v :: Proposed(net + {m}, i, b, v) ==> Proposed(net, i, b, v)
  {
  }

  lemma KeptRecordStores(stores: seq<Store>, net: set<Msg>, a: nat, iid: nat, rec: Record, m: Msg)
    requires a < |stores| && Keeps(stores, a, iid, rec) && StoresOk(stores, net)
    ensures StoresOk(Put(stores, a, iid, rec), net + {m})
  {
    var stores', net' := Put(stores, a, iid, rec), net + {m};
    assert RecordOk(net', a, iid, rec) by {
      if iid in stores[a] {
        assert RecordOk(net, a, iid, stores[a][iid]);
      }
    }
    forall b: nat, i | b < |stores'| && i in stores'[b]
      ensures RecordOk(net', b, i, stores'[b][i])
    {
      if b != a || i != iid {
        assert RecordOk(net, b, i, stores[b][i]);
      }
    }
  }

  lemma KeptRecordVotes(stores: seq<Store>, net: set<Msg>, a: nat, iid: nat, rec: Record, m: Msg)
    requires a < |stores| && Keeps(stores, a, iid, rec) && NoNewVote(net, m, rec)
    requires VotesOk(stores, net)
    ensures VotesOk(Put(stores, a, iid, rec), net + {m})
  {
    var stores', net' := Put(stores, a, iid, rec), net + {m};
    forall b, i, c, v | Voted(net', b, i, c, v)
      ensures VoteOk(stores', net', b, i, c, v)
    {
      assert VoteOk(stores, net, b, i, c, v);
    }
  }

  lemma KeptRecordPromises(stores: seq<Store>, net: set<Msg>, a: nat, iid: nat, rec: Record, m: Msg)
    requires a < |stores| && Keeps(stores, a, iid, rec) && NoNewVote(net, m, rec)
    requires StoresOk(stores, net) && VotesOk(stores, net) && PromisesOk(stores, net)
    ensures PromisesOk(Put(stores, a, iid, rec), net + {m})
  {
    var stores', net' := Put(stores, a, iid, rec), net + {m};
    KeptRecordExtends(stores, net, a, iid, rec, m);
    KeptRecordStores(stores, net, a, iid, rec, m);
    KeptRecordVotes(stores, net, a, iid, rec, m);
    forall r | PrepareAck(r) in net'
      ensures PromiseOk(stores', net', r)
    {
      if PrepareAck(r) in net {
        assert PromiseOk(stores, net, r);
      } else {
        assert r == rec && stores'[a][iid] == rec && RecordOk(net', a, iid, rec);
        forall c: nat, v | Voted(net', a, iid, c, v)
          ensures c <= rec.valueBallot
        {
          assert VoteOk(stores', net', a, iid, c, v);
        }
      }
    }
  }

  lemma KeptRecordKeepsWorld(stores: seq<Store>, net: set<Msg>, a: nat, iid: nat, rec: Record, m: Msg)
    requires a < |stores| && Keeps(stores, a, iid, rec) && NoNewVote(net, m, rec)
    requires WorldOk(stores, net)
    ensures WorldOk(Put(stores, a, iid, rec), net + {m})
  {
    var stores', net' := Put(stores, a, iid, rec), net + {m};
    KeptRecordExtends(stores, net, a, iid, rec, m);
    KeptRecordStores(stores, net, a, iid, rec, m);
    KeptRecordVotes(stores, net, a, iid, rec, m);
    KeptRecordPromises(stores, net, a, iid, rec, m);
    ProposalsStaySafe(stores, net, stores', net');
    assert AckOk(stores', net', rec) by {
      if iid in stores[a] {
        assert RecordOk(net, a, iid, stores[a][iid]);
      }
    }
    assert AcksOk(stores', net') by {
      forall r | AcceptAck(r) in net'
        ensures AckOk(stores', net', r)
      {
        if AcceptAck(r) in net { assert AckOk(stores, net, r); }
      }
    }
  }

  // ---- acceptor steps: a vote -------------------------------------------------------------------

  function Vote(a: nat, iid: nat, b: nat, v: Value): Record {
    Record(a, iid, b, b, false, v)
  }

  lemma VoteExtends(stores: seq<Store>, net: set<Msg>, a: nat, iid: nat, b: nat, v: Value)
    requires a < |stores| && Promised(stores, a, iid) <= b
    ensures var rec := Vote(a, iid, b, v);
      Extends(stores, net, Put(stores, a, iid, rec), net + {AcceptAck(rec)})
  {
  }

  lemma VoteStores(stores: seq<Store>, net: set<Msg>, a: nat, iid: nat, b: nat, v: Value)
    requires a < |stores| && Proposed(net, iid, b, v) && RequestsOk(net) && StoresOk(stores, net)
    ensures var rec := Vote(a, iid, b, v);
      StoresOk(Put(stores, a, iid, rec), net + {AcceptAck(rec)})
  {
    var rec := Vote(a, iid, b, v);
    var stores', net' := Put(stores, a, iid, rec), net + {AcceptAck(rec)};
    assert RecordOk(net', a, iid, rec);
    forall e: nat, i | e < |stores'| && i in stores'[e]
      ensures RecordOk(net', e, i, stores'[e][i])
    {
      if e != a || i != iid {
        assert RecordOk(net, e, i, stores[e][i]);
      }
    }
  }

  lemma VoteVotes(stores: seq<Store>, net: set<Msg>, a: nat, iid: nat, b: nat, v: Value)
    requires a < |stores| && Proposed(net, iid, b, v) && RequestsOk(net)
    requires Promised(stores, a, iid) <= b && StoresOk(stores, net) && VotesOk(stores, net)
    ensures var rec := Vote(a, iid, b, v);
      VotesOk(Put(stores, a, iid, rec), net + {AcceptAck(rec)})
  {
    var rec := Vote(a, iid, b, v);
    var stores', net' := Put(stores, a, iid, rec), net + {AcceptAck(rec)};
    forall e: nat, i: nat, c: nat, w | Voted(net', e, i, c, w)
      ensures VoteOk(stores', net', e, i, c, w)
    {
      if Voted(net, e, i, c, w) {
        assert VoteOk(stores, net, e, i, c, w);
        assert RecordOk(net, e, i, stores[e][i]);
      }
    }
  }

  lemma VotePromises(stores: seq<Store>, net: set<Msg>, a: nat, iid: nat, b: nat, v: Value)
    requires a < |stores| && Promised(stores, a, iid) <= b && PromisesOk(stores, net)
    ensures var rec := Vote(a, iid, b, v);
      PromisesOk(Put(stores, a, iid, rec), net + {AcceptAck(rec)})
  {
    var rec := Vote(a, iid, b, v);
    var stores', net' := Put(stores, a, iid, rec), net + {AcceptAck(rec)};
    forall r | PrepareAck(r) in net'
      ensures PromiseOk(stores', net', r)
    {
      assert PromiseOk(stores, net, r);
      forall c, w | r.valueBallot < c < r.ballot
        ensures !Voted(net', r.acceptor, r.iid, c, w)
      {
        assert !Voted(net, r.acceptor, r.iid, c, w);
      }
    }
  }

  lemma VoteKeepsWorld(stores: seq<Store>, net: set<Msg>, a: nat, iid: nat, b: nat, v: Value)
    requires a < |stores| && Proposed(net, iid, b, v) && Promised(stores, a, iid) <= b
    requires WorldOk(stores, net)
    ensures var rec := Vote(a, iid, b, v);
      WorldOk(Put(stores, a, iid, rec), net + {AcceptAck(rec)})
  {
    var rec := Vote(a, iid, b, v);
    var stores', net' := Put(stores, a, iid, rec), net + {AcceptAck(rec)};
    VoteExtends(stores, net, a, iid, b, v);
    VoteStores(stores, net, a, iid, b, v);
    VoteVotes(stores, net, a, iid, b, v);
    VotePromises(stores, net, a, iid, b, v);
    ProposalsStaySafe(stores, net, stores', net');
    assert AcksOk(stores', net') by {
      forall r | AcceptAck(r) in net'
        ensures AckOk(stores', net', r)
      {
        if AcceptAck(r) in net { assert AckOk(stores, net, r); }
      }
    }
  }

  // ---- every acceptor step --------------------------------------------------------------------------

  ghost predicate StepExtends(stores: seq<Store>, net: set<Msg>, stores': seq<Store>, net': set<Msg>) {
    && WorldOk(stores', net') && Extends(stores, net, stores', net')
    && forall iid, b, v :: Proposed(net', iid, b, v) ==> Proposed(net, iid, b, v)
  }

  lemma PrepareKeepsWorld(stores: seq<Store>, net: set<Msg>, a: nat, iid: nat, b: nat)
    requires a < |stores| && WorldOk(stores, net) && 0 < b
    ensures var rec := AfterPrepare(a, Lookup(stores[a], iid), iid, b);
      StepExtends(stores, net, Put(stores, a, iid, rec), net + {PrepareAck(rec)})
  {
    var rec := AfterPrepare(a, Lookup(stores[a], iid), iid, b);
    if iid in stores[a] {
      assert RecordOk(net, a, iid, stores[a][iid]);
    }
    KeptRecordExtends(stores, net, a, iid, rec, PrepareAck(rec));
    KeptRecordKeepsWorld(stores, net, a, iid, rec, PrepareAck(rec));
  }

  /** Re-sending the stored record, as a refused accept and a repeat reply do. */
  lemma ResendKeepsWorld(stores: seq<Store>, net: set<Msg>, a: nat, iid: nat)
    requires a < |stores| && WorldOk(stores, net) && iid in stores[a]
    ensures StepExtends(stores, net, stores, net + {AcceptAck(stores[a][iid])})
  {
    var rec := stores[a][iid];
    assert RecordOk(net, a, iid, rec);
    assert Put(stores, a, iid, rec) == stores by {
      assert stores[a][iid := rec] == stores[a];
    }
    KeptRecordExtends(stores, net, a, iid, rec, AcceptAck(rec));
    KeptRecordKeepsWorld(stores, net, a, iid, rec, AcceptAck(rec));
  }

  lemma AcceptKeepsWorld(stores: seq<Store>, net: set<Msg>, a: nat, iid: nat, b: nat, v: Value)
    requires a < |stores| && WorldOk(stores, net) && Proposed(net, iid, b, v)
    ensures var rec := AfterAccept(a, Lookup(stores[a], iid), iid, b, v);
      StepExtends(stores, net, Put(stores, a, iid, rec), net + {AcceptAck(rec)})
  {
    var rec := AfterAccept(a, Lookup(stores[a], iid), iid, b, v);
    if Promised(stores, a, iid) <= b {
      assert rec == Vote(a, iid, b, v);
      VoteExtends(stores, net, a, iid, b, v);
      VoteKeepsWorld(stores, net, a, iid, b, v);
    } else {
      assert rec == stores[a][iid];
      assert Put(stores, a, iid, rec) == stores by {
        assert stores[a][iid := rec] == stores[a];
      }
      ResendKeepsWorld(stores, net, a, iid);
    }
  }

  lemma AcceptorStepKeepsWorld(stores: seq<Store>, net: set<Msg>, a: nat, req: Request)
    requires a < |stores| && WorldOk(stores, net) && (req.RepeatReq? || Ask(req) in net)
    ensures var (store, reply) := Serve(a, stores[a], req);
      StepExtends(stores, net, stores[a := store], net + Answers(req, reply))
  {
    match req
    case PrepareReq(iid, b) => PrepareKeepsWorld(stores, net, a, iid, b);
    case AcceptReq(iid, b, v) =>
      assert Proposed(net, iid, b, v);
      AcceptKeepsWorld(stores, net, a, iid, b, v);
    case RepeatReq(iid) =>
      assert stores[a := stores[a]] == stores;
      if iid in stores[a] {
        ResendKeepsWorld(stores, net, a, iid);
      } else {
        assert net + {} == net;
      }
  }

  // ---- requests sent by proposers ---------------------------------------------------------------------

  /** Requests that announce no new proposal. */
  lemma RequestKeepsWorld(stores: seq<Store>, net: set<Msg>, out: set<Msg>)
    requires WorldOk(stores, net)
    requires forall m :: m in out ==> m.Ask? && m.req.PrepareReq? && m.req.ballot > 0
    ensures StepExtends(stores, net, stores, net + out)
  {
    var net' := net + out;
    assert forall a, iid, b, v :: Voted(net', a, iid, b, v) ==> Voted(net, a, iid, b, v);
    QuietNet(stores, net, net');
    ProposalsStaySafe(stores, net, stores, net');
  }

  /** Growing the network by requests alone keeps stores, votes and promises in order. */
  lemma QuietNet(stores: seq<Store>, net: set<Msg>, net': set<Msg>)
    requires StoresOk(stores, net) && VotesOk(stores, net) && PromisesOk(stores, net) && AcksOk(stores, net)
    requires net <= net' && forall m :: m in net' && m !in net ==> m.Ask?
    ensures StoresOk(stores, net') && VotesOk(stores, net') && PromisesOk(stores, net') && AcksOk(stores, net')
    ensures Extends(stores, net, stores, net')
  {
    assert forall a, iid, b, v :: Voted(net', a, iid, b, v) ==> Voted(net, a, iid, b, v);
    forall a: nat, iid | a < |stores| && iid in stores[a]
      ensures RecordOk(net', a, iid, stores[a][iid])
    {
      assert RecordOk(net, a, iid, stores[a][iid]);
    }
    forall a, iid, b, v | Voted(net', a, iid, b, v)
      ensures VoteOk(stores, net', a, iid, b, v)
    {
      assert VoteOk(stores, net, a, iid, b, v);
    }
    forall rec | PrepareAck(rec) in net'
      ensures PromiseOk(stores, net', rec)
    {
      assert PromiseOk(stores, net, rec);
    }
    forall rec | AcceptAck(rec) in net'
      ensures AckOk(stores, net', rec)
    {
      assert AckOk(stores, net, rec);
    }
  }

  /** The only door for new proposals: safe, and alone at its ballot. */
  lemma NewProposalKeepsWorld(stores: seq<Store>, net: set<Msg>, iid: nat, b: nat, v: Value)
    requires WorldOk(stores, net) && 1 <= iid && 0 < b && v != []
    requires SafeAt(stores, net, iid, b, v)
    requires forall w :: !Proposed(net, iid, b, w)
    ensures var net' := net + {Ask(AcceptReq(iid, b, v))};
      WorldOk(stores, net') && Extends(stores, net, stores, net')
  {
    var net' := net + {Ask(AcceptReq(iid, b, v))};
    assert forall i, c, w :: Proposed(net', i, c, w) ==>
        Proposed(net, i, c, w) || (i == iid && c == b && w == v);
    QuietNet(stores, net, net');
    forall i, c, w | Proposed(net', i, c, w)
      ensures SafeAt(stores, net', i, c, w)
    {
      assert SafeAt(stores, net, i, c, w);
      SafeStaysSafe(stores, net, stores, net', i, c, w);
    }
  }
}
