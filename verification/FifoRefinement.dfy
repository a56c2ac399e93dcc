/** The system with ordered connections is a special case of the protocol with an unordered
    message set, so agreement holds there too, and there no step is ever blocked by the
    assertion on accept acknowledgements. */
module FifoRefinement {
  import opened PaxosTypes
  import opened Majorities
  import opened Acceptors
  import opened Scenarios
  import A = Agreement
  import F = FifoChannels
  import P = Proposers
  import T = Protocol

  ghost predicate QueuesSent(requests: seq<seq<seq<Request>>>, net: set<Msg>) {
    forall i: nat, a: nat, r :: i < |requests| && a < |requests[i]| && r in requests[i][a] ==> Ask(r) in net
  }

  ghost predicate AcksSent(f: F.State, net: set<Msg>) {
    && (forall rec :: rec in f.promises ==> PrepareAck(rec) in net)
    && (forall rec :: rec in f.accepted ==> AcceptAck(rec) in net)
    && (forall i: nat, rec :: i < |f.refused| && rec in f.refused[i] ==> AcceptAck(rec) in net)
  }

  /** Same stores and proposers, and everything in flight has been sent. */
  ghost predicate Related(f: F.State, s: T.State) {
    f.stores == s.stores && f.proposers == s.proposers && QueuesSent(f.requests, s.net) && AcksSent(f, s.net)
  }

  /** Clients submit only allowed values. */
  ghost predicate Submits(c: T.Config, step: F.Step) {
    step.ProposerStep? && step.e.Propose? ==> step.e.value in c.values
  }

  lemma ProposerStepRefines(c: T.Config, f: F.State, s: T.State, i: nat, e: P.Event) returns (s': T.State)
    requires F.Formed(c.acceptors, c.proposers, f) && F.Enabled(c.acceptors, c.proposers, f, F.ProposerStep(i, e))
    requires Reachable(c, s) && T.Formed(c, s) && Related(f, s) && Submits(c, F.ProposerStep(i, e))
    ensures Reachable(c, s') && T.Formed(c, s')
    ensures Related(F.Apply(c.acceptors, c.proposers, f, F.ProposerStep(i, e)), s')
  {
    var step := T.ProposerStep(i, e);
    ReachStep(c, s, step);
    s' := T.Apply(c, s, step);
    var f' := F.Apply(c.acceptors, c.proposers, f, F.ProposerStep(i, e));
    var out := P.Sends(s.proposers[i], e);
    forall j: nat, a: nat, r | j < |f'.requests| && a < |f'.requests[j]| && r in f'.requests[j][a]
      ensures Ask(r) in s'.net
    {
      assert r in f.requests[j][a] || Some(r) == out;
    }
  }

  lemma ServedQueuesSent(requests: seq<seq<seq<Request>>>, net: set<Msg>, net': set<Msg>, i: nat, a: nat)
    requires QueuesSent(requests, net) && net <= net'
    requires i < |requests| && a < |requests[i]| && requests[i][a] != []
    ensures QueuesSent(requests[i := requests[i][a := requests[i][a][1..]]], net')
  {
    var requests' := requests[i := requests[i][a := requests[i][a][1..]]];
    forall j: nat, b: nat, r | j < |requests'| && b < |requests'[j]| && r in requests'[j][b]
      ensures Ask(r) in net'
    {
      assert r in requests[j][b];
    }
  }

  /** What is on its way after a reply was sent along its route. */
  lemma RoutedAcksSent(f: F.State, f': F.State, net: set<Msg>, i: nat, req: Request, rec: Record)
    requires AcksSent(f, net) && i < |f.refused| && !req.RepeatReq?
    requires match Route(req, Some(rec))
      case Silence => false
      case Broadcast(x) => f'.promises == f.promises && f'.accepted == f.accepted + {x} && f'.refused == f.refused
      case ToSender(x) =>
        && f'.accepted == f.accepted
        && (req.PrepareReq? ==> f'.promises == f.promises + {x} && f'.refused == f.refused)
        && (req.AcceptReq? ==> f'.promises == f.promises && f'.refused == f.refused[i := f.refused[i] + {x}])
    ensures AcksSent(f', net + {T.Answer(req, rec)})
  {
  }

  lemma AcceptorStepRefines(c: T.Config, f: F.State, s: T.State, a: nat, i: nat) returns (s': T.State)
    requires F.Formed(c.acceptors, c.proposers, f) && F.Enabled(c.acceptors, c.proposers, f, F.AcceptorStep(a, i))
    requires Reachable(c, s) && T.Formed(c, s) && Related(f, s)
    requires !f.requests[i][a][0].RepeatReq?
    ensures Reachable(c, s') && T.Formed(c, s')
    ensures Related(F.Apply(c.acceptors, c.proposers, f, F.AcceptorStep(a, i)), s')
  {
    var req := f.requests[i][a][0];
    assert req in f.requests[i][a];
    ReachStep(c, s, T.AcceptorStep(a, req));
    s' := T.Apply(c, s, T.AcceptorStep(a, req));
    var f' := F.Apply(c.acceptors, c.proposers, f, F.AcceptorStep(a, i));
    ServedQueuesSent(f.requests, s.net, s'.net, i, a);
    RoutedAcksSent(f, f', s.net, i, req, Serve(a, s.stores[a], req).1.value);
  }

  lemma DropRefines(c: T.Config, f: F.State, s: T.State, a: nat, i: nat, k: nat)
    requires F.Formed(c.acceptors, c.proposers, f) && F.Enabled(c.acceptors, c.proposers, f, F.Drop(a, i, k))
    requires Related(f, s)
    ensures Related(F.Apply(c.acceptors, c.proposers, f, F.Drop(a, i, k)), s)
  {
    var f' := F.Apply(c.acceptors, c.proposers, f, F.Drop(a, i, k));
    forall j: nat, b: nat, r | j < |f'.requests| && b < |f'.requests[j]| && r in f'.requests[j][b]
      ensures Ask(r) in s.net
    {
      assert r in f.requests[j][b];
    }
  }

  /** Every run over ordered connections is matched by a run of the protocol. */
  lemma {:induction false} FifoRefinesProtocol(c: T.Config, steps: seq<F.Step>) returns (s: T.State)
    requires T.ConfigOk(c) && F.RunOk(c.acceptors, c.proposers, steps)
    requires forall k :: 0 <= k < |steps| ==> Submits(c, steps[k])
    ensures Reachable(c, s) && T.Formed(c, s) && Related(F.Run(c.acceptors, c.proposers, steps), s)
  {
    if steps == [] {
      StartIsReachable(c);
      s := T.Init(c);
    } else {
      var init, last := steps[..|steps| - 1], steps[|steps| - 1];
      var t := FifoRefinesProtocol(c, init);
      var f := F.Run(c.acceptors, c.proposers, init);
      match last {
        case ProposerStep(i, e) => s := ProposerStepRefines(c, f, t, i, e);
        case AcceptorStep(a, i) =>
          F.RunKeepsInv(c.acceptors, c.proposers, init);
          assert F.PairOk(f, i, a);
          s := AcceptorStepRefines(c, f, t, a, i);
        case Drop(a, i, k) =>
          DropRefines(c, f, t, a, i, k);
          s := t;
      }
    }
  }

  ghost function Voters(n: nat, f: F.State, iid: nat, b: nat, v: Value): set<nat> {
    set a | a in Ids(n) && Record(a, iid, b, b, false, v) in f.accepted
  }

  /** Agreement over ordered connections. Unlike in the protocol with an unordered message
      set, no run is cut short by the assertion (`FifoChannels.RefusalsNameRivals`). */
  lemma FifoAgrees(c: T.Config, steps: seq<F.Step>, iid: nat, b0: nat, v0: Value, b1: nat, v1: Value)
    requires T.ConfigOk(c) && [] !in c.values && F.RunOk(c.acceptors, c.proposers, steps)
    requires forall k :: 0 <= k < |steps| ==> Submits(c, steps[k])
    requires var f := F.Run(c.acceptors, c.proposers, steps);
      && |Voters(c.acceptors, f, iid, b0, v0)| >= PaxosQuorum(c.acceptors)
      && |Voters(c.acceptors, f, iid, b1, v1)| >= PaxosQuorum(c.acceptors)
    ensures v0 == v1
  {
    var f := F.Run(c.acceptors, c.proposers, steps);
    var s := FifoRefinesProtocol(c, steps);
    var protocolSteps :| T.RunOk(c, protocolSteps) && T.Run(c, protocolSteps) == s;
    SubsetSize(Voters(c.acceptors, f, iid, b0, v0), T.Voters(c.acceptors, s.net, iid, b0, v0));
    SubsetSize(Voters(c.acceptors, f, iid, b1, v1), T.Voters(c.acceptors, s.net, iid, b1, v1));
    A.AtMostOneChosen(c, protocolSteps, iid, b0, v0, b1, v1);
  }
}
