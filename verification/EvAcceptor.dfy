/** The event handlers around an acceptor: who gets which reply (evpaxos/evacceptor.c). */
module EvAcceptors {
  import opened PaxosTypes
  import opened Acceptors

  /** A record written to a connection. */
  datatype Posted = Posted(connection: nat, rec: Record)

  /** `delivery` over `count` open connections, for a request from `sender`. */
  function Posts(delivery: Delivery, sender: nat, count: nat): seq<Posted> {
    match delivery
    case Broadcast(rec) => seq(count, i requires 0 <= i < count => Posted(i, rec))
    case ToSender(rec) => [Posted(sender, rec)]
    case Silence => []
  }

  /** An acceptor over the fixed table that has answered `history` gives the next request exactly
      the answer that is due after it, or exits. */
  lemma TableGivesWhatIsDue(id: nat, table: seq<Record>, history: seq<Request>, req: Request)
    requires Opened(table) && PositiveBallots(history + [req])
    requires (forall j :: 0 <= j < |history| ==> history[j].iid >= 1) && req.iid >= 1
    requires |TableRun(id, table, history).1| == |history|
    ensures match ServeTable(id, TableRun(id, table, history).0, req)
      case None => AsksForForgotten(history, req)
      case Some((_, reply)) => Route(req, reply) == Due(id, history, req)
  {
    TableRefinesMap(id, table, history);
    AnsweredStep(id, TableRun(id, table, history).0, history, req);
    ReplyMeaning(id, history, req);
  }

  class EvAcceptor {
    const state: Acceptor

    ghost predicate Valid() {
      state.Valid()
    }

    constructor (id: nat)
      ensures Valid() && fresh(state) && fresh(state.store) && fresh(state.store.records)
      ensures state.store.acceptorId == id && Opened(state.Table())
    {
      state := new Acceptor(id);
    }

    /** One request from connection `sender`, with `count` open connections. */
    method HandleRequest(req: Request, sender: nat, count: nat) returns (exited: bool, sent: seq<Posted>)
      requires Valid()
      modifies state.store.records
      ensures match ServeTable(state.store.acceptorId, old(state.Table()), req)
        case None => exited && sent == [] && state.Table() == old(state.Table())
        case Some((table, reply)) => !exited && state.Table() == table && sent == Posts(Route(req, reply), sender, count)
    {
      sent := [];
      var rec: Option<Record>;
      match req {
        case PrepareReq(iid, ballot) =>
          exited, rec := state.ReceivePrepare(iid, ballot);
          if !exited {
            sent := [Posted(sender, rec.value)];
          }
        case AcceptReq(iid, ballot, value) =>
          exited, rec := state.ReceiveAccept(iid, ballot, value);
          if !exited {
            if ballot == rec.value.ballot {
              sent := SendToAll(rec.value, count);
            } else {
              sent := [Posted(sender, rec.value)];
            }
          }
        case RepeatReq(iid) =>
          exited, rec := state.ReceiveRepeat(iid);
          if !exited && rec.Some? {
            sent := [Posted(sender, rec.value)];
          }
      }
    }

    /** The loop over all connections of `handle_accept_req`. */
    static method SendToAll(rec: Record, count: nat) returns (sent: seq<Posted>)
      ensures sent == Posts(Broadcast(rec), 0, count)
    {
      sent := [];
      var i := 0;
      while i < count
        invariant 0 <= i <= count && sent == seq(i, j requires 0 <= j < i => Posted(j, rec))
      {
        sent := sent + [Posted(i, rec)];
        i := i + 1;
      }
    }
  }
}
