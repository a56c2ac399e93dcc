/** The protocol: any number of acceptors and up to ten proposers exchanging messages that
    may be lost, duplicated, reordered and overheard. One step is one handler of
    paxos/proposer.c or paxos/acceptor.c. */
module Protocol {
  import opened PaxosTypes
  import opened Majorities
  import opened Acceptors
  import P = Proposers

  /** `values` are the values that clients may submit. */
  datatype Config = Config(acceptors: nat, proposers: nat, values: set<Value>)

  ghost predicate ConfigOk(c: Config) {
    c.acceptors >= 1 && c.proposers <= MAX_N_OF_PROPOSERS
  }

  /** `net` holds every message ever sent: receiving does not remove, and nothing forces a
      message to be received. The last three fields only record history, per proposer. */
  datatype State = State(
    stores: seq<Store>, proposers: seq<P.ProposerState>, net: set<Msg>,
    submitted: seq<multiset<Value>>, adopted: seq<multiset<Value>>, closed: seq<multiset<Value>>)

  datatype Step =
    | ProposerStep(i: nat, e: P.Event)
    | AcceptorStep(a: nat, req: Request)

  ghost function Init(c: Config): State {
    State(
      seq(c.acceptors, _ => map[]),
      seq(c.proposers, i requires 0 <= i < c.proposers => P.NewProposer(i, c.acceptors)),
      {},
      seq(c.proposers, _ => multiset{}), seq(c.proposers, _ => multiset{}), seq(c.proposers, _ => multiset{}))
  }

  ghost predicate Formed(c: Config, s: State) {
    && ConfigOk(c) && |s.stores| == c.acceptors
    && |s.proposers| == |s.submitted| == |s.adopted| == |s.closed| == c.proposers
    && forall i :: 0 <= i < c.proposers ==> ProposerFormed(c, i, s.proposers[i])
  }

  ghost predicate ProposerFormed(c: Config, i: nat, p: P.ProposerState) {
    P.Valid(p) && p.id == i && p.acceptors == c.acceptors
  }

  /** What a step may take from its environment: clients submit allowed values and
      acknowledgements come from the network. */
  ghost predicate FromEnvironment(c: Config, net: set<Msg>, e: P.Event) {
    match e
    case Propose(v) => v in c.values
    case GotPrepareAck(rec, _) => PrepareAck(rec) in net
    case GotAcceptAck(rec, _) => AcceptAck(rec) in net
    case _ => true
  }

  ghost predicate Enabled(c: Config, s: State, step: Step)
    requires Formed(c, s)
  {
    match step
    case ProposerStep(i, e) =>
      i < c.proposers && FromEnvironment(c, s.net, e) && P.EventOk(s.proposers[i], e)
    case AcceptorStep(a, req) =>
      a < c.acceptors && (req.RepeatReq? || Ask(req) in s.net)
  }

  function Outgoing(req: Option<Request>): set<Msg> {
    if req.Some? then {Ask(req.value)} else {}
  }

  function Answer(req: Request, rec: Record): Msg {
    if req.PrepareReq? then PrepareAck(rec) else AcceptAck(rec)
  }

  function Answers(req: Request, reply: Option<Record>): set<Msg> {
    if reply.Some? then {Answer(req, reply.value)} else {}
  }

  ghost function Apply(c: Config, s: State, step: Step): State
    requires Formed(c, s) && Enabled(c, s, step)
  {
    match step
    case ProposerStep(i, e) =>
      var p := s.proposers[i];
      s.(proposers := s.proposers[i := P.Next(p, e)],
         net := s.net + Outgoing(P.Sends(p, e)),
         submitted := s.submitted[i := s.submitted[i] + P.Submits(e)],
         adopted := s.adopted[i := s.adopted[i] + P.Adopts(p, e)],
         closed := s.closed[i := s.closed[i] + P.Closes(p, e)])
    case AcceptorStep(a, req) =>
      var (store, reply) := Serve(a, s.stores[a], req);
      s.(stores := s.stores[a := store], net := s.net + Answers(req, reply))
  }

  lemma ApplyKeepsFormed(c: Config, s: State, step: Step)
    requires Formed(c, s) && Enabled(c, s, step)
    ensures Formed(c, Apply(c, s, step))
  {
    if step.ProposerStep? {
      P.NextKeepsValid(s.proposers[step.i], step.e);
    }
  }

  // ---- runs ---------------------------------------------------------------------

  ghost predicate RunOk(c: Config, steps: seq<Step>)
    requires ConfigOk(c)
    decreases |steps|, 0
  {
    steps == [] || (
      && RunOk(c, steps[..|steps| - 1])
      && Enabled(c, Run(c, steps[..|steps| - 1]), steps[|steps| - 1]))
  }

  ghost function Run(c: Config, steps: seq<Step>): (s: State)
    requires ConfigOk(c) && RunOk(c, steps)
    ensures Formed(c, s)
    decreases |steps|, 1
  {
    if steps == [] then Init(c)
    else
      var s := Run(c, steps[..|steps| - 1]);
      ApplyKeepsFormed(c, s, steps[|steps| - 1]);
      Apply(c, s, steps[|steps| - 1])
  }

  // ---- what is observed -----------------------------------------------------------

  /** Acceptor `a` has accepted `v` for the instance at ballot `b`. */
  ghost predicate Voted(net: set<Msg>, a: nat, iid: nat, b: nat, v: Value) {
    AcceptAck(Record(a, iid, b, b, false, v)) in net
  }

  /** An accept request for `v` at ballot `b` has been sent. */
  ghost predicate Proposed(net: set<Msg>, iid: nat, b: nat, v: Value) {
    Ask(AcceptReq(iid, b, v)) in net
  }

  ghost function Voters(n: nat, net: set<Msg>, iid: nat, b: nat, v: Value): set<nat> {
    set a | a in Ids(n) && Voted(net, a, iid, b, v)
  }

  /** A majority has accepted `v` at the common ballot `b`. */
  ghost predicate Chosen(n: nat, net: set<Msg>, iid: nat, b: nat, v: Value) {
    |Voters(n, net, iid, b, v)| >= PaxosQuorum(n)
  }

  /** The ballot acceptor `a` has promised for the instance, 0 if none. */
  ghost function Promised(stores: seq<Store>, a: nat, iid: nat): nat
    requires a < |stores|
  {
    if iid in stores[a] then stores[a][iid].ballot else 0
  }
}
