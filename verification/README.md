# LibPaxos core: model and proofs

LibPaxos is multi-instance Paxos: proposers assign client values to numbered instances,
acceptors promise and accept ballots, and learners deliver the accepted values in instance
order. This project models the network-free core of the library and proves what it is for.

It has two levels that share their definitions.

* **Objects.** `QuorumCounter.Quorum`, `RingBuffer.Carray`, `Acceptors.Storage`,
  `Acceptors.Acceptor`, `EvAcceptors.EvAcceptor`, `ProposerObject.Proposer`,
  `ProposerObject.EvProposer` and `LearnerObject.Learner` are the structs of the library with their handlers as methods; the
  queues of the proposer and the window of the learner are `Carray` objects. Each method says
  that the abstract state moved by one step function of the same role (`Proposers.Next`,
  `Acceptors.ServeTable`, `Learners.Receive`, ...). The handlers of the driver are sequences of
  such steps (`EventRuns.Does`), so they continue a life of the proposer and a run of the
  protocol.
* **Protocol.** `Protocol` is a state machine whose steps are those step functions. Its state
  is the acceptors' stores, the proposers and the set of all messages ever sent, so messages
  may be lost, duplicated, reordered and delivered to anybody. Learners only listen, so they
  are attached afterwards to the messages of a run (`ReplicatedLog`).

Reading order: `Types`, `Majorities`, `Quorum`, `Carray`, `Acceptor`, `EvAcceptor`, `Proposer` and its
lives (`InstanceOrder`, `Ballots`, `Adoption`, `Phases`, `CounterLives`, `Rounds`), `Protocol`, `World`
(the invariant of stores and messages), `Proposing` (what ties a proposer to them), `Agreement`
(theorems over all runs), `Lives` (each proposer of a run lives a life), `LoneProposer`,
`WholeRounds` and `Validity` (exactly when agreement holds), `Learner`, `NewestAcks` (what a
learner keeps and when an instance closes), `Deliverable` (exactly what a learner can be brought
to deliver), `ReplicatedLog`, `Overtaking` (exactly when the proposer's assertion fails),
`FifoChannels`, `FifoRefinement` and `FifoRuns` (ordered connections as a special case of the
protocol), `Guards` (which acknowledgements a learner must ignore), `Traces`, `EventRuns`,
`DriverSteps`, `Stamps`, then the objects, and `Scenarios`, `Failures` and `ThreeAcceptors` for
the runs that break what the code does not promise.

## Where the code differs from textbook Paxos

* A preempted instance keeps its value and its value ballot (paxos/proposer.c:404-411), so an
  accept request may carry a value that no promise of the present quorum mentions.
  `Proposing.QuorumMakesSafe` shows that this is safe.
* `quorum_clear` resets only the first `quorum` flags of an array that was never initialised
  (paxos/quorum.c:31-41). "Reached" stays sound; completeness is lost, exactly for the
  acceptors of `QuorumCounter.Stale`, over every life of a proposer
  (`CounterLives.RoundIsCompleteIff`): a value can be chosen without its proposer ever noticing
  (`ThreeAcceptors.ChosenButNotClosed`).
* A promise's value is looked at only if it is not empty (paxos/proposer.c:165).
  `Validity.AgreementIff` gives the exact consequence.
* Acceptors accept without an earlier promise (paxos/acceptor.c:115-130), and any accept
  acknowledgement with another ballot preempts, even a lower one (paxos/proposer.c:269-277).
* The learner counts only acknowledgements that agree with the one stored last
  (paxos/learner.c:106). `Learners.LastBallotTestIsExhaustive` shows that this loses nothing.
* The learner drops instances from `current + size` on (paxos/learner.c:245) but reports a hole
  only above `current + size` (paxos/learner.c:271), so the first instance beyond the window is
  dropped without a report (`Learners.FirstBeyondWindowIsForgotten`).

## Hypotheses

* Clients submit no empty value (`[] !in c.values`). `Validity.AgreementIff` says, system by
  system, exactly when agreement holds without this.
* Proposer ids are distinct and below 10, and a proposer does not restart: ids are positions
  in the state and proposer state persists. Acceptors do not restart either: the table of
  paxos/storage_mem.c would forget its promises.
* Learners hear acknowledgements whose `value_ballot` equals their `ballot`. The broadcast of
  an acceptance always does (`Acceptors.BroadcastIsTheVote`); a repeat reply does if and only
  if the highest ballot the acceptor was asked for came in an accept request
  (`Acceptors.RepeatReplyIsVoteIff`), and without the hypothesis a learner can deliver a value
  that was never chosen (`Failures.RepeatRepliesBreakDelivery`). For every guard a learner might
  use, `Guards.SoundIff` gives the exact condition on the acknowledgements that pass it. Letting
  only votes through is enough in every system (`Guards.OnlyVotesIsSound`) and necessary exactly
  with one acceptor (`Guards.VotesAreNecessaryIff`). Letting only acknowledgements with a value
  through is exactly enough for delivering chosen values with one acceptor
  (`Guards.ValueGuardIsExact`) and not enough with three
  (`ThreeAcceptors.ValueGuardFailsForThree`).
* The assertion in `proposer_receive_accept_ack` is a condition of taking that step. A refusal
  trips it exactly when a newer prepare request of the same proposer overtook the refused
  request, the accept request of the newer ballot has not arrived, and the proposer is in the
  accept phase of the newer ballot (`Overtaking.AssertionFailsInRunIff`). Over connections that
  keep the order of requests it always holds (`FifoChannels.RefusalsNameRivals`); without, there
  is a run in which it fails (`Failures.ReorderingBreaksAssertion`).
* Instance ids start at 1; instance ids and ballots do not reach the limit of 32 bits; there
  is at least one acceptor.

## Model

| member | source | states |
|---|---|---|
| Majorities.MajoritiesMeet | paxos/paxos.c:85-89 | any two sets of at least `paxos_quorum(n)` acceptors share an acceptor |
| Majorities.HalvesNeedNotMeet | paxos/paxos.c:85-89 | the bound is tight: with an even number of acceptors one acceptor fewer does not force an overlap |
| Majorities.QuorumIsLeast | paxos/paxos.c:85-89 | for every number of acceptors, `paxos_quorum` is the least threshold at which any two quorums overlap |
| QuorumCounter.CounterIsExact | paxos/quorum.c:26-59 | for every history of clear and add over arbitrary memory, the counter is the number of distinct acceptors added since the last clear that the partial clear did not leave marked |
| QuorumCounter.ReachedIsSound | paxos/quorum.c:35-65 | "reached" implies that a majority of distinct acceptors was added since the last clear |
| QuorumCounter.ReachedRoundsMeet | paxos/quorum.c:61-65 | two rounds reported complete share an acceptor |
| QuorumCounter.CountsEveryoneIff | paxos/quorum.c:35-42 | every acknowledging acceptor is counted if and only if none of them is stale |
| QuorumCounter.SecondRoundStalls | paxos/quorum.c:35-59 | a concrete history in which a majority answers and the round is not reported complete |
| QuorumCounter.Quorum.constructor | paxos/quorum.c:26-33 | the counter starts cleared over arbitrary memory |
| QuorumCounter.Quorum.Clear | paxos/quorum.c:35-42 | the first `quorum` flags and the count become zero, the other flags stay |
| QuorumCounter.Quorum.Add | paxos/quorum.c:50-59 | counts and marks an unmarked acceptor and says whether it did |
| QuorumCounter.Quorum.IsReached | paxos/quorum.c:61-65 | compares the count with the quorum |
| RingBuffer.Carray.constructor | paxos/carray.c:37-48 | a new buffer holds the empty sequence |
| RingBuffer.Carray.Grow | paxos/carray.c:51-62 | growing doubles the capacity and is the identity on the sequence, from any head position |
| RingBuffer.Carray.PushBack | paxos/carray.c:86-93 | appends, across wrap-around and growth; the mutual recursion with growth terminates |
| RingBuffer.Carray.PushFront | paxos/carray.c:96-108 | prepends, across wrap-around and growth |
| RingBuffer.Carray.Front | paxos/carray.c:111-114 | the first element, or nothing when empty |
| RingBuffer.Carray.PopFront | paxos/carray.c:117-124 | returns the first element and leaves the tail |
| RingBuffer.Carray.At | paxos/carray.c:132-135 | indexes the sequence; on a full buffer every index selects its residue, as the learner's window needs |
| RingBuffer.Carray.Map | paxos/carray.c:159-180 | collect and reject are the order-preserving filter of the sequence |
| RingBuffer.Carray.Put | paxos/carray.c:132-135 | writing through the pointer of `carray_at` replaces that element, on a full buffer the one at the residue |
| RingBuffer.FilterMembers | paxos/carray.c:159-180 | the filter keeps exactly the matching elements |
| RingBuffer.FilterConcat | paxos/carray.c:159-180 | the filter works piecewise, so it keeps order and multiplicity |
| Acceptors.PromiseIsKept | paxos/acceptor.c:91-130 | over every request sequence ballots and value ballots never decrease, the value ballot never exceeds the ballot, and after a reply with ballot b no value asked for below b is stored |
| Acceptors.RunsKeepStoreOk | paxos/storage_mem.c:95-133 | every stored record names its acceptor and instance and is never final |
| Acceptors.BroadcastIsTheVote | evpaxos/evacceptor.c:66-81 | what is broadcast is exactly the requested vote; a refusal goes to the sender with a higher ballot |
| Acceptors.RepeatReplyIsVoteIff | evpaxos/evacceptor.c:83-90 | a repeat reply carries the highest ballot asked for and is a vote at that ballot if and only if it arrived in an accept request |
| Acceptors.HighestIsMaximum | paxos/acceptor.c:91-130 | the highest ballot asked for is the maximum and was asked for |
| Acceptors.StoreHoldsHighest | paxos/acceptor.c:91-130 | over every request sequence a record is at the highest ballot asked for its instance |
| Acceptors.RefusalMeaning | evpaxos/evacceptor.c:66-81 | an accept request is refused if and only if a higher ballot was asked for before; the refusal carries the highest one and reports a vote at it if and only if an accept request asked for it |
| Acceptors.StoreIsKnown | paxos/acceptor.c:91-130 | over every request sequence a record is the highest ballot asked for and the last accept request that was not below any earlier ballot |
| Acceptors.ReplyMeaning | evpaxos/evacceptor.c:50-90 | for every request after every history, who is told what: prepare requests are always answered to the sender, accept requests broadcast as votes or refused to the sender, repeat requests answered to the sender if and only if the instance was asked for before |
| Acceptors.TableStep | paxos/storage_mem.c:80-133 | one request: the table exits if and only if a later instance took the slot, and otherwise answers as the map |
| Acceptors.TableRefinesMap | paxos/storage_mem.c:80-133 | for every request sequence the 4096-slot table gives the replies of an unbounded map and exits exactly at the first request for an evicted instance |
| Acceptors.CloseIdsAreServed | paxos/storage_mem.c:80-93 | requests whose instance ids are less than 4096 apart never make the process exit |
| Acceptors.EvictedIsNotServed | paxos/storage_mem.c:80-93 | once the instance 4096 later was prepared or accepted, the process exits at the latest when the earlier one is asked for |
| Acceptors.Storage.constructor | paxos/storage_mem.c:36-53 | all slots are marked unused |
| Acceptors.Storage.GetRecord | paxos/storage_mem.c:80-93 | exits on a too old instance, otherwise finds the record or nothing |
| Acceptors.Storage.SaveAccept | paxos/storage_mem.c:95-110 | overwrites the slot with the vote and nothing else |
| Acceptors.Storage.SavePrepare | paxos/storage_mem.c:112-133 | creates an empty record or raises the ballot of the existing one |
| Acceptors.Acceptor.constructor | paxos/acceptor.c:37-48 | a new acceptor has an unused table |
| Acceptors.Acceptor.ReceivePrepare | paxos/acceptor.c:59-68 | moves the table and replies as one prepare step of the model |
| Acceptors.Acceptor.ReceiveAccept | paxos/acceptor.c:70-79 | moves the table and replies as one accept step of the model |
| Acceptors.Acceptor.ReceiveRepeat | paxos/acceptor.c:81-89 | replies with the stored record and changes nothing |
| EvAcceptors.TableGivesWhatIsDue | evpaxos/evacceptor.c:50-90 | an acceptor over the fixed table gives every request the answer due after its history, or exits on an evicted instance |
| EvAcceptors.EvAcceptor.constructor | evpaxos/evacceptor.c:128-154 | a new handler owns a new acceptor |
| EvAcceptors.EvAcceptor.HandleRequest | evpaxos/evacceptor.c:50-90 | moves the table by the request and writes the reply to the sender, to all connections, or to nobody, as routed |
| Proposers.NextKeepsValid | paxos/proposer.c:112-326 | every handler keeps instance ids unique across both queues, ballots at 10k + id, and the counters well formed, whatever acknowledgement arrives |
| Proposers.WithoutIsRemoval | paxos/proposer.c:385-392 | removing by id takes out exactly the instance that was found |
| Proposers.StepConservesValues | paxos/proposer.c:112-278 | for every value, held afterwards plus released equals held before plus submitted plus adopted |
| Proposers.RunConservesValues | paxos/proposer.c:112-278 | over every life of a proposer the multisets balance: queued, held and closed values are the submitted plus the adopted ones |
| Proposers.StepConservesInstances | paxos/proposer.c:126-278 | a step opens only the next instance and closes only the one whose quorum it completes |
| Proposers.RunPartitionsInstances | paxos/proposer.c:126-278 | over every life the instances 1..next are split without overlap into preparing, accepting and closed |
| Proposers.ValuesAreServedInOrder | paxos/proposer.c:165-225 | first come, first served: over every life the values taken for instances, followed by the queue, are the submitted and displaced values in order |
| Proposers.ClosedAsCounts | paxos/proposer.c:261-266 | every instance is closed at most once, so a value is released once per instance that was closed with it |
| InstanceOrder.InstancesStartInOrder | paxos/proposer.c:126-278 | over every life the n-th instance to enter the accept phase first is instance n; tried instances wait in front of the untried ones, which are complete and in order; only tried ones are closed |
| InstanceOrder.RetriesComeFirst | paxos/proposer.c:196-225 | an untried instance is moved to the accept phase only when no tried instance waits in the prepare queue |
| Adoption.ValueIsFirstHighest | paxos/proposer.c:154-225 | over every life an open instance holds the first of the values offered to it with the highest ballot, across preemptions, where counted non-empty promises and, at ballot 0, its own client value are offers; it holds none exactly when nothing was offered |
| Adoption.AdoptsIffHigher | paxos/proposer.c:165-184 | over every life a promise is adopted if and only if it is counted, has a value, and is the first offer or above the ballots of all earlier ones |
| Adoption.PromiseRequeues | paxos/proposer.c:165-184 | over every life a promise changes the queue of client values only by topping earlier offers, and then the best of them goes to its end |
| Phases.AcceptMeaning | paxos/proposer.c:196-239 | an accept event sends a request if and only if the front's count is at least its quorum and it has a value or one is queued; which value is sent and what leaves the queues |
| Phases.StepAnnounces | paxos/proposer.c:126-326 | resends apart, a step sends a prepare request for exactly what is newly open at its ballot and an accept request for exactly what newly is in the accept phase; a resend repeats what is open |
| Phases.PreemptedIsNext | paxos/proposer.c:269-275 | an instance preempted in the accept phase becomes the front of the prepare queue |
| CounterLives.CounterIsReplay | paxos/proposer.c:154-278 | over every life the counter of an open instance is the replay, over its allocated memory, of the acknowledgements and clears that concerned it |
| CounterLives.RoundIsCompleteIff | paxos/quorum.c:35-65 | over every life the round of an open instance is complete if and only if a majority of non-stale acceptors answered since its last clear |
| Rounds.NoFullRoundWaits | paxos/proposer.c:261-266 | over every life no instance in the accept queue has as many acknowledgements as its quorum |
| Rounds.ClosesIffMajority | paxos/proposer.c:253-266 | over every life an acknowledgement at the ballot of an accepting instance closes it if and only if the non-stale acceptors heard since the last clear, its sender included, are a majority |
| Rounds.OnlyAcksClose | paxos/proposer.c:126-326 | an open instance is given up by nothing but an acknowledgement at its ballot in the accept phase |
| Rounds.AcceptStartsIff | paxos/proposer.c:196-239 | over every life an accept event sends a request if and only if a majority counts in the front's prepare round and it was offered a value or one is queued; it carries the first of the highest offers or else the next client value |
| Ballots.BallotCountsPreemptions | paxos/proposer.c:404-420 | over every life an open instance that was preempted j times has ballot 10 (j + 1) + id |
| Ballots.RequestsCountPreemptions | paxos/proposer.c:126-326 | every request of every life carries such a ballot, with the preemptions of its instance up to then, and decodes to its sender |
| Ballots.PreemptionsToOvertake | paxos/proposer.c:404-420 | between two points of a life, an instance at ballot b passes a rival ballot exactly when it was preempted at least floor((rival - b) / 10) + 1 times in between |
| World.SafeExcludesOthers | paxos/acceptor.c:91-130 | if a value is safe at a ballot, no other value is chosen below it |
| World.SafeStaysSafe | paxos/acceptor.c:91-130 | safety of a value is never lost while promises are kept |
| World.AcceptorStepKeepsWorld | paxos/acceptor.c:59-130 | every prepare, accept and repeat keeps the invariant of stores and messages |
| World.NewProposalKeepsWorld | paxos/proposer.c:227-238 | a safe proposal alone at its ballot keeps the invariant |
| World.WorldAgrees | paxos/acceptor.c:91-130 | the invariant implies that two chosen values of one instance are equal |
| Proposing.CountedStaysPreparing | paxos/proposer.c:154-186 | counting a promise keeps at least `count` marked acceptors that promised the ballot and did not vote between value ballot and ballot |
| Proposing.PreemptedIsPreparing | paxos/proposer.c:404-411 | a preempted instance keeps its value and value ballot and is a sound start of the next round |
| Proposing.QuorumMakesSafe | paxos/proposer.c:154-230 | a full counter makes the instance's value safe at its ballot, also a value carried over from an earlier round |
| Proposing.BackedStaysAccepting | paxos/proposer.c:253-259 | every counted accept acknowledgement is a vote for the instance's value at its ballot |
| Proposing.FullMeansChosen | paxos/proposer.c:261-265 | when the accept counter is full the value is chosen |
| Proposing.ProposerStepKeepsOk | paxos/proposer.c:112-326 | every proposer step, timeout resends included, keeps the invariant of stores, messages and proposer |
| Agreement.RunKeepsInv | paxos/proposer.c:112-326 | every reachable state of every system satisfies the invariant |
| Agreement.AtMostOneChosen | paxos/acceptor.c:91-130 | agreement: in every run, per instance, at most one value is accepted by a majority at a common ballot |
| Agreement.ProposalsAreSafeForever | paxos/proposer.c:196-239 | once a value was proposed at ballot b, no other value is chosen below b then or later in the run |
| Agreement.OneValuePerBallot | paxos/proposer.c:196-239 | all accept requests of a run for one instance and ballot carry the same value |
| Agreement.StoreIsServed | paxos/acceptor.c:59-89 | an acceptor's store in a run is the result of the requests it served |
| Agreement.TableAcceptorTakesPart | paxos/storage_mem.c:80-133 | an acceptor over the fixed table behaves in every run as the acceptor of the protocol up to the request at which it exits |
| Lives.ProposersLive | paxos/proposer.c:112-326 | every proposer of a run lives a life with the same state and books, so what holds over all lives holds in every run |
| Lives.ClosedIsChosen | paxos/proposer.c:253-266 | the value with which a proposer closes an instance is chosen for that instance |
| Lives.NoValueIsLost | paxos/proposer.c:112-278 | submissions and adoptions of a value are matched one to one by queued and held occurrences and by different instances closed with it, for each of which it is chosen |
| Lives.RequestsNameSender | paxos/proposer.c:404-420 | every request in the network was sent by the proposer its ballot decodes to |
| Lives.SentHasOwnBallot | paxos/proposer.c:404-420 | whoever sends a request is the proposer its ballot decodes to, and the ballot is 10 (j + 1) + i after j preemptions |
| Lives.DeliveredNamesSender | evpaxos/evlearner.c:61-73 | the ballot of a delivered record decodes to the one proposer that sent the accept request for its instance, ballot and value |
| Validity.ChosenWasSubmitted | paxos/proposer.c:112-230 | only values submitted by clients are chosen |
| LoneProposer.LoneProposerAgrees | paxos/proposer.c:154-277 | a lone proposer never leaves its first ballot, and its chosen values agree, empty ones included |
| WholeRounds.AllAccept | paxos/proposer.c:154-239 | with any number of acceptors that have nothing to report, a new proposer can get its value accepted by all of them |
| Validity.EmptyValueBreaksAgreement | paxos/proposer.c:165-184 | for any number of acceptors and from two proposers on, a run that chooses the empty value and another one for the same instance |
| Validity.AgreementIff | paxos/proposer.c:165-184 | in every system, agreement holds in all reachable states if and only if clients cannot submit both the empty value and another one, or there is at most one proposer |
| Learners.ScanMeaning | paxos/learner.c:97-118 | the counting loop returns the number of agreeing acknowledgements, or more than any quorum when it met a final one |
| Learners.ClosingMeaning | paxos/learner.c:88-129 | the closing decision and the stored acknowledgement it picks |
| Learners.OnlyNewBallotCloses | paxos/learner.c:135-143 | storing one acknowledgement can complete a quorum only at its own ballot |
| Learners.ReceivedKeepsUsed | paxos/learner.c:163-207 | one acknowledgement keeps the slot's closing decision equal to the exhaustive one; a closed slot does not change |
| Learners.SeenIsMaximum | paxos/learner.c:233-234 | the high-water mark is the highest instance heard of |
| Learners.LastBallotTestIsExhaustive | paxos/learner.c:88-143 | after any events an instance is closed if and only if some ballot has a quorum among its stored acknowledgements or a final one is stored |
| NewestAcks.StoredIsNewest | paxos/learner.c:189-206 | for every event sequence an open instance of the window stores for each acceptor the first acknowledgement with the highest ballot among those it took from it, and nothing exactly when it took none |
| NewestAcks.ClosedIffAgreed | paxos/learner.c:88-143 | for every event sequence an instance of the window is closed if and only if at some point a majority of the newest acknowledgements shared a ballot or one was final; it closed at the first such point with one that agreed |
| Learners.ClosedStaysUntilDelivered | paxos/learner.c:163-223 | over any further events the final value of a closed instance is delivered or its slot is unchanged |
| Learners.SlotHoldsInstance | paxos/learner.c:145-175 | a slot is empty or holds the one instance of the window with its residue, so both assertions hold |
| Learners.ReceiveKeepsValid | paxos/learner.c:225-256 | receiving keeps the window, also on a late start |
| Learners.DeliverKeepsValid | paxos/learner.c:209-223 | delivering returns the current instance and moves the window by one |
| Learners.HolesAreExact | paxos/learner.c:268-282 | after draining, a hole is reported if and only if a closed instance waits or an instance above current + size was seen; it starts at the first open instance, covers every waiting one, and ends at the highest one seen or the highest waiting one |
| Learners.DroppedIsReportedIff | paxos/learner.c:240-282 | an instance heard beyond the window is in the reported range if and only if something above current + size was heard |
| Learners.DroppedIsAskedForIff | evpaxos/evlearner.c:42-59 | it is asked for again if and only if a higher instance was heard and it is among the next 10000 |
| Learners.FirstBeyondWindowIsForgotten | paxos/learner.c:240-282 | a learner that drops instance current + size, has nothing waiting and reports no hole |
| Learners.DeliveriesAreConsecutive | paxos/learner.c:209-256 | for every interleaving, deliveries are consecutive instances from 1, or from the first one heard on a late start |
| Learners.DeliveriesAreBacked | paxos/learner.c:88-143 | everything delivered was heard and is final, or a majority of acceptors with ids up to its own was heard for its instance and ballot |
| Deliverable.DeliverableIff | paxos/learner.c:88-143 | for every set of acknowledgements that can be heard, some learner delivers a record if and only if it is final or backed by such a majority |
| ReplicatedLog.BackedIsChosen | evpaxos/evacceptor.c:66-81 | votes heard from a majority at one ballot make the delivered value chosen |
| ReplicatedLog.DeliveredIsChosen | paxos/learner.c:209-223 | everything a learner delivers is the chosen value of its instance |
| ReplicatedLog.LearnersAgree | paxos/learner.c:209-256 | two learners in any mode never deliver different values for one instance |
| ReplicatedLog.LogsArePrefixes | paxos/learner.c:209-256 | in every run the logs of two catch-up learners are prefixes of one another |
| FifoChannels.SentStays | paxos/proposer.c:404-420 | no step lowers the ballot of an instance |
| FifoChannels.SendsNewest | paxos/proposer.c:295-326 | every request carries the proposer's own ballot, at least as high as all earlier ones for the instance |
| FifoChannels.RefusalIsForeign | evpaxos/evacceptor.c:75-80 | a refusal of the oldest queued request does not carry the requester's ballot |
| FifoChannels.RefusalsNameRivals | paxos/proposer.c:253-254 | over ordered, lossy connections every refusal names a rival's ballot and the assertion never fails |
| FifoRefinement.FifoRefinesProtocol | evpaxos/evacceptor.c:66-81 | every run over ordered, lossy connections is matched by a run of the protocol with the same stores and proposers whose message set holds everything in flight |
| FifoRefinement.FifoAgrees | paxos/acceptor.c:91-130 | agreement over ordered connections: at most one value per instance is acknowledged by a majority at a common ballot |
| FifoRuns.ValueIsAcknowledged | evpaxos/evacceptor.c:50-81 | in every system with a proposer, any client value can be acknowledged by a majority over ordered connections |
| Failures.RepeatRepliesBreakDelivery | evpaxos/evacceptor.c:83-90 | a run in which a repeat reply makes a learner deliver a value that is not chosen |
| Overtaking.RefusalIsOwnIff | evpaxos/evacceptor.c:75-80 | a refusal carries a ballot of the requester if and only if a newer request of its own overtook the refused one |
| Overtaking.AssertionFailsIff | paxos/proposer.c:253-254 | over every request history, the reply to an accept request trips the assertion if and only if the proposer is in the accept phase at the highest ballot asked for, above the refused one, and no accept request has asked for it |
| Overtaking.AssertionFailsInRunIff | paxos/proposer.c:253-254 | the same at any two points of any run; the acceptor has then served the proposer's own newer prepare request |
| Guards.SoundIff | paxos/learner.c:88-129 | in every reachable state, for every guard and criterion: all deliveries are good if and only if every record is good that passes the guard together with a majority at its ballot of acceptors with ids up to its own |
| Guards.OnlyVotesIsSound | paxos/learner.c:88-129 | in every system a guard that lets only votes through makes every delivered record chosen |
| Guards.VoteGuardIsExact | paxos/learner.c:105-118 | with one acceptor, for every guard: all deliveries are chosen at the ballot they carry in all reachable states if and only if the guard lets only votes through |
| Guards.VotesAreNecessaryIff | paxos/learner.c:105-118 | letting only votes through is necessary for soundness if and only if there is one acceptor |
| Guards.ValueGuardIsExact | paxos/learner.c:105-118 | with one acceptor, for every guard: all delivered values are chosen in all reachable states if and only if the guard lets only acknowledgements with a value through |
| ThreeAcceptors.ValueGuardFailsForThree | paxos/learner.c:105-118 | with three acceptors a run in which a learner that ignores acknowledgements without a value delivers a value that is not chosen |
| ThreeAcceptors.ChosenButNotClosed | paxos/quorum.c:35-59 | a run in which acceptors 1 and 2 answer both phases and the value is chosen, yet the instance stays in the accept queue whatever they acknowledge at its ballot afterwards |
| Failures.ReorderingBreaksAssertion | paxos/proposer.c:253-254 | a run with reordered requests in which the assertion fails |
| ProposerObject.Proposer.constructor | paxos/proposer.c:70-83 | a new proposer has empty queues |
| ProposerObject.FindInstance | paxos/proposer.c:365-375 | the first instance with the id, or the end |
| ProposerObject.RemoveInstance | paxos/proposer.c:385-392 | a new buffer without the instances of that id |
| ProposerObject.Proposer.Propose | paxos/proposer.c:112-118 | queues the value |
| ProposerObject.Proposer.Prepare | paxos/proposer.c:126-134 | opens the next instance at the first ballot over arbitrary flag memory |
| ProposerObject.Proposer.ReceivePrepareAck | paxos/proposer.c:136-194 | moves the state and sends as the model's step: drop, count, adopt or preempt |
| ProposerObject.Proposer.Accept | paxos/proposer.c:196-239 | moves the front instance to the accept phase when it has a quorum and a value |
| ProposerObject.Proposer.ReceiveAcceptAck | paxos/proposer.c:241-278 | counts, closes or preempts as the model's step |
| ProposerObject.NextTimedOut | paxos/proposer.c:280-293 | the first late instance without a quorum from the given position |
| ProposerObject.Sweep | evpaxos/evproposer.c:171-193 | finds exactly the late instances, in order, and renews only their time stamps |
| DriverSteps.RefreshedTwice | paxos/proposer.c:280-308 | a second sweep at the same time sends nothing |
| DriverSteps.SweepIsResends | evpaxos/evproposer.c:171-193 | a sweep of both queues is the sequence of resend events of the late instances, prepare requests first |
| Stamps.StampIsLast | paxos/proposer.c:295-326 | over every life the time stamp of an open instance is the time at which it was last opened, given a new ballot, or sent again |
| Stamps.SweepSendsIff | paxos/proposer.c:280-293 | over every life a sweep sends an instance again if and only if its round is not complete and the timeout has passed since that time |
| DriverSteps.DrainedMeaning | paxos/proposer.c:196-239 | accepting until nothing is left moves a prefix of the prepare queue in order, loses no value and leaves the front not ready |
| DriverSteps.DrainedIsAccepts | evpaxos/evproposer.c:85-92 | draining is a sequence of accept events that send exactly the drained requests |
| EventRuns.ContinuesLife | evpaxos/evproposer.c:120-193 | the events of a handler prolong the proposer's life, so what holds over all lives holds after every handler |
| EventRuns.ContinuesRun | evpaxos/evproposer.c:120-193 | the events of a handler are protocol steps: they lead to a reachable state in which only that proposer moved and exactly the sent requests are new |
| ProposerObject.EvProposer.constructor | evpaxos/evproposer.c:195-235 | a new driver owns a new proposer |
| ProposerObject.EvProposer.Preexecute | evpaxos/evproposer.c:70-83 | fills the prepare queue up to the window by prepare events: consecutive new ids at the first ballot, without value, and exactly their requests are sent |
| ProposerObject.EvProposer.SendAccepts | evpaxos/evproposer.c:85-92 | sends the accept requests of all ready instances |
| ProposerObject.EvProposer.TryAccept | evpaxos/evproposer.c:85-94 | a number of accept events, then prepare events; afterwards the front does not have both quorum and value and the queue is at least the window |
| ProposerObject.EvProposer.HandleMsg | evpaxos/evproposer.c:120-153 | the event of the message, then accept and prepare events, sending exactly what they send; between messages the front is never ready and the window is full |
| ProposerObject.EvProposer.CheckTimeouts | evpaxos/evproposer.c:171-193 | the resend events of the late instances, sending exactly their requests; only time stamps change |
| LearnerObject.NewWindow | paxos/learner.c:258-266 | a full ring buffer of empty slots |
| LearnerObject.Learner.constructor | paxos/learner.c:284-297 | a new learner has an empty window |
| LearnerObject.Learner.GetInstance | paxos/learner.c:145-152 | an instance id selects its residue in the window |
| LearnerObject.Learner.CountAcks | paxos/learner.c:97-118 | the counting loop |
| LearnerObject.Learner.HasQuorum | paxos/learner.c:88-129 | sets the final value of the slot as the model's closing decision |
| LearnerObject.Learner.UpdateInstance | paxos/learner.c:163-207 | stores or drops the acknowledgement as the model's step |
| LearnerObject.Learner.Notice | paxos/learner.c:228-234 | late start and high-water mark |
| LearnerObject.Learner.ReceiveAccept | paxos/learner.c:225-256 | moves the learner as the model's receive step |
| LearnerObject.Learner.DeliverNext | paxos/learner.c:209-223 | moves the learner and delivers as the model's deliver step |
| LearnerObject.Learner.HasHoles | paxos/learner.c:268-282 | reports the model's hole range |
| LearnerObject.Learner.DeliverAll | evpaxos/evlearner.c:61-73 | delivers until the current instance is open |
| LearnerObject.Learner.CheckHoles | evpaxos/evlearner.c:42-59 | asks for exactly the instances of the reported range, its end excluded, at most 10000 consecutive ones |
| LearnerObject.FlushIsConsecutive | evpaxos/evlearner.c:61-73 | a flush delivers consecutive instances from the current one |

## Left out

- Sockets, reconnects, send buffers and message layout (evpaxos/peers.c, evpaxos/tcp_receiver.c, evpaxos/tcp_sendbuf.c): the network is a message set, or ordered queues in `FifoChannels`.
- The Berkeley DB store (paxos/storage_bdb.c): the unbounded map stands for it.
- Configuration parsing, samples and logging: they carry no property of the protocol.
- 32-bit wrap-around of ballots and instance ids: they are unbounded here.
- Record and value size limits: a value is a byte sequence of any length.
- Wall-clock time: time stamps are integers; the rounding of `timeval_diff` (paxos/proposer.c:423-431) is not modelled and a positive timeout is assumed where it matters.
- The `closed` flag of a proposer instance: its only setter is commented out (paxos/proposer.c:176-180), so the branch that drops closed instances is dead; unit/proposer_unittest.cc:151-154 expects other behaviour, and the model follows the code.
- `storage_save_final_value` (paxos/storage_mem.c:135-150): no handler calls it, so no stored record is final; the learner model still treats final acknowledgements as the code does.
- Aliasing of instance pointers: instances, with their acknowledgement counters, are values in ring buffers, and `Carray.Put` stands for a write through such a pointer; the ring buffers themselves are modelled in place.
- Proposer restarts: a restarted proposer would reuse its first ballot.
- Liveness: the partial clear and the fixed ballot step give no guarantee of progress; only the preemption count is proved.
- ReplicatedLog.BackedIsChosen: assumes that heard acknowledgements have equal ballot and value ballot, which the code does not enforce for repeat replies; the failing run is `Failures.RepeatRepliesBreakDelivery` and the exact guards are in `Guards`.
- ReplicatedLog.DeliveredIsChosen: assumes that heard acknowledgements have equal ballot and value ballot, which the code does not enforce for repeat replies.
- ReplicatedLog.LearnersAgree: assumes that heard acknowledgements have equal ballot and value ballot, which the code does not enforce for repeat replies.
- ReplicatedLog.LogsArePrefixes: assumes that heard acknowledgements have equal ballot and value ballot, which the code does not enforce for repeat replies.
- Lives.DeliveredNamesSender: assumes that heard acknowledgements have equal ballot and value ballot, which the code does not enforce for repeat replies.
- carray_first_match and carray_count_match (paxos/carray.c:138-156): no caller in the modelled files.
