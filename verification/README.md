# DRTRM in Dafny

A model of the hard parts of DRTRM, the distributed run-time resource manager under `src/`, and of the RCCE
message-passing library under `RCCE_V2.0/` that it runs on, with proofs of what they promise. `dafny verify
dfyconfig.toml` checks everything.

| files | what they model |
|---|---|
| `Paxos`, `PaxosInvariant`, `PaxosSteps`, `PaxosRuns`, `ElectionWinner`, `PaxosSentinel`, `PaxosExact`, `PaxosCounts`, `PaxosReach`, `PaxosHandlers`, `PaxosCore` | the Paxos election that replaces a failed controller: the handlers, the protocol over a network that delays and reorders messages freely, agreement and exactly when it fails, who is elected, and whom each message reaches; `PaxosCore` is the program's form, a class whose methods overwrite the records |
| `CoreList`, `Ownership`, `OwnershipSteps`, `OwnershipRuns`, `OwnershipFrame`, `OwnershipTidy`, `OwnershipMarks`, `OwnershipOnce`, `OwnershipRing`, `OwnershipLosses`, `OwnershipWitness`, `OfferBook`, `OwnershipCore` | the offer protocol by which cores pass between controllers, managers and new applications, over the nodes' core lists; that no core has two owners, and exactly which steps lose one; which offer a requester accepts; `OwnershipCore` is the program's form, a class whose handlers walk and change the list |
| `DirectoryOps`, `DirectoryCore` | a controller's directory of its cores under ADD, REM and FINISH messages in either order; splitting a message among controllers |
| `GreedyOffer`, `GreedyStep` | which cores a giver offers, how many, and that the protocol allows it |
| `MpbBlocks`, `MpbLaws`, `MpbAllocator` | the coalescing allocator of the message-passing buffer, on values and as a circular list of block objects |
| `Schedule`, `Handshake` | chunked send and receive with two flags, byte by byte, any interleaving |
| `Barrier` | the gather/release barrier, any number of members and rounds |
| `SignalCodec`, `SignalRing`, `SignalFifo`, `SignalOverflow` | one- and two-line signals and the locked ring that carries them, with senders that keep to its room and with senders that do not |
| `Quicksort`, `Ranks` | the fat-pivot quicksort, in place, and the ranks that cores get by it |
| `BitReversal`, `Fourier`, `Fft`, `Inverse`, `Transpose`, `Decimation`, `SixStep`, `SixStepWorkers` | the in-place radix-2 FFT over exact reals and its inverse, the blocked transpose by several workers, the transform of a whole matrix of samples that is made of both, by any one of several workers, and exactly when its rows come out right |
| `Mesh` | hop distance, counting the cores of a region, tiling the grid with clusters |
| `Power` | voltage and frequency sequencing |
| `Arithmetic`, `Wrappers` | multiplication and division by a variable, sizes of sets; a value that may be missing |

Concurrency is modelled as a state machine: `Enabled` and `Next` give the steps, a run is any sequence of enabled steps,
and the main results are about every run. Code that changes things in place is also modelled in that form (classes,
arrays, loops) and proved equal to functions the laws are about.

## Where the code and its intent differ

- The election's value -1 doubles as "nothing accepted" (`src/paxos_signal_handlers.c:237`, `:299-300`). A vote for -1 is
  therefore not reported to later proposers (`VoteIsReportedIff`), and an uninitialised `max_score` or `index`
  (`:279-295`) can make the scan pick -1 (`ScanCanFail`). The majority is that of a fixed `CLUSTER_SIZE` of 6
  (`src/include/my_rtrm.h:5`), so 4 whatever the cluster, and with eight members two disjoint majorities elect two
  controllers (`Split`). `AgreementIff` says exactly when elections agree, from the pairs of values that the two variables
  may hold when a scan begins, another one at every call if need be, whatever scores first answers can carry: in a
  cluster with enough members to decide, all runs announce one controller if and only if the members are fewer than twice
  the fixed majority and in every pair either `index` is not -1, or `max_score` is below -1, or it is negative and no score
  reported is negative. The last case needs its proviso because `score` is itself uninitialised in the answer to a second
  ballot (`:203`, `:247`). In every other case there is a run that announces two different
  controllers (`Disagreement`, `Split`). `WinnerIsValid` asks only that whenever a value is picked afresh `max_score`
  starts at -1 or more and some score beats it.
- A manager's ADD message adds `nodes_cnt`, the length of the whole message, to the agent's local count
  (`src/signal_handlers.c:2493`), where REM subtracts the number of local cores. The counts match the cores again exactly
  when all the cores of the message were local (`HandOverMatches`, `FreshMatches`); `ShortMessage` has a directory where
  they do not.
- No core is ever free at two nodes, whatever the order of signals (`OneOwner`), but a core can be lost. Over every run in
  which each node takes offers and answers out of its ring in the order in which they were put there, `LostInRun` says when:
  a step leaves a core nowhere if and only if it is an ADD or REM that finds the core free first at its controller, a
  FINISH for a core the controller does not have down as that agent's, or a refusal to a controller that does not have the
  core down as the requester's any more. All other steps lose nothing: INIT_AGENT never comes to a node that has a
  list (`AgentUnlisted`), a reject always finds the core (`RejectReturns`), and at a manager an acceptance never meets a free
  entry (`AcceptanceKeeps`) and a refusal always finds its mark (`ManagerRefused`), because a manager never has a core on
  its list twice (`NextTight`). That rests on the order of the ring: when a node reads an offer it has read every
  acceptance of the offered cores (`ReadsInOrder`). An answer is in the giver's ring before its sender reads another
  signal (`src/common_core.c:555`, `:1025`), and a new agent gets its cores only when the sender has read its SIG_ACK
  (`src/signal_handlers.c:2210-2227`, `:871-898`).
- Each of those losses has a run over the rings from the start, under the guards by which managers offer
  (`src/resource_negotiation.c:42-45`, `:132`, `src/signal_handlers.c:1664`, `:1743`). A manager is slow to read that its
  offer was accepted, and its REM comes when the next owner has given the core back (`LateReportLoses`). A manager's ADD
  waits behind an unanswered signal until the next owner has ended (`LateOwnerLoses`), or comes just before that owner's
  FINISH, which then does not find the core (`FinishLoses`), or after the controller has offered the core again, so that
  the refusal does not find its mark (`RefusalLoses`). A manager offers a core it has accepted only after work has been
  appointed to it (`src/resource_negotiation.c:135-139`); in these runs the offer comes after that.
- The allocator's request loop ends if and only if some line is free (`AnsweredIff`): half of 32, padded, is 32
  (`NoLineNoExit`). One request for the whole region leaves no line free (`FullRegion`).
- The senders do not check whether the ring has room (`src/scc_signals.c:399-420`). Appending is harmless if and only if
  it leaves a line over (`HarmlessIffRoom`). Without the check the reader overlooks packets exactly when the lines waiting
  are a positive multiple of the ring's (`OverlooksIff`), and sending any one-line message as often as the ring has lines
  does it (`FullLooksEmpty`).
- `FFT1D` computes the transform when one worker has all the rows (`Fft1D`). With several, each works on arrays of its own
  (`src/apps.c:456-468`) and the transpositions read rows that the others computed in theirs: a worker's rows are
  right for all samples if and only if it is the only one (`RightIffAlone`); a single non-zero sample shows it
  (`ImpulseWrong`). The samples are the 2^(M/2) times 2^(M/2) of the matrix, half of 2^M if M is odd (`src/apps.c:729-730`).
- A worker transposes all its rows exactly when the number of blocks divides the number of rows (`ShareComplete`).

## Model

| member | source | states |
|---|---|---|
| PaxosRuns.Agreement | src/paxos_signal_handlers.c:477-545 | over every run two LEARN messages about the failed controller carry the same core, if no proposal is -1 and majorities meet |
| PaxosRuns.QuorumsMeetIff | src/libfunctions.c:352-354 | any two sets of replies large enough to decide share a core if and only if fewer than eight cores, twice the fixed majority, belong to the cluster |
| PaxosCounts.CountsAreFaithful | src/paxos_signal_handlers.c:382-390 | over every run, whatever is proposed, `cores_promised` and `cores_accepted` equal the number of replies to the core that have arrived and the number of distinct cores that sent them |
| PaxosCounts.DeliveryEnabled | src/paxos_signal_handlers.c:266-277 | a handler never meets a sender outside the cluster or a table that was not allocated |
| PaxosCounts.StepSound | src/paxos_signal_handlers.c:125-545 | every step of every handler keeps one answer and one vote for each pair of cores, on its way or counted, and the counters equal to what has arrived |
| PaxosReach.LearnReachesAll | src/paxos_signal_handlers.c:493-508 | over every run a core has announced if and only if four votes have come to it, and then it has sent LEARN, with one value, to every core of the mesh except the failed one, itself among them, and no other LEARN |
| PaxosReach.RequestsReachMembers | src/paxos_signal_handlers.c:313-334 | over every run a proposer has sent PREPARE_REQUEST, and from the fourth answer on ACCEPT_REQUEST with one value, to exactly the cores that answer to the failed controller |
| PaxosReach.DeliverReach | src/paxos_signal_handlers.c:200-545 | every handler keeps what has been sent to whom, and the fourth answer and the fourth vote the points at which requests and announcements go out |
| PaxosReach.NothingAfterLearn | src/paxos_signal_handlers.c:547-591 | over every run a core that has read LEARN takes no further step in the election |
| PaxosHandlers.Invitations | src/paxos_signal_handlers.c:125-194 | a proposer clears its score table and invites each member once, in order of the cores |
| PaxosHandlers.AnswerHandled | src/paxos_signal_handlers.c:266-446 | an answer is filed and counted, a higher reported ballot adopted with its value, and the fourth makes the proposer ask every member, in order, to accept one value, picked only if none was adopted |
| PaxosHandlers.VoteHandled | src/paxos_signal_handlers.c:477-508 | a vote is counted, and the fourth makes the proposer tell itself and then, in order, every other core but the failed one |
| PaxosRuns.StepKeepsInv | src/paxos_signal_handlers.c:125-545 | every step of every handler keeps the full Paxos invariant |
| PaxosRuns.StepHistory | src/paxos_signal_handlers.c:313-334 | a proposal once made is never revised |
| PaxosSteps.PromisedInv | src/paxos_signal_handlers.c:200-264 | answering a PREPARE_REQUEST keeps the invariant: a reply reports the highest vote its sender has or ever will have below the ballot |
| PaxosSteps.AcceptsInv | src/paxos_signal_handlers.c:449-475 | voting, or refusing a lower ballot, keeps the invariant |
| PaxosSteps.CountedInv | src/paxos_signal_handlers.c:388-398 | filing a reply and adopting the highest replied value keeps the invariant |
| PaxosSteps.AskedInv | src/paxos_signal_handlers.c:313-334 | sending ACCEPT_REQUEST on a majority of promises keeps the invariant |
| PaxosSteps.AskedSafe | src/paxos_signal_handlers.c:402-416 | the value sent is safe: every lower ballot either carries it or can no longer gather a majority |
| PaxosSteps.TalliedInv | src/paxos_signal_handlers.c:486-493 | counting a vote keeps the invariant |
| PaxosSteps.AnnouncedInv | src/paxos_signal_handlers.c:493-508 | announcing the winner on a majority of votes keeps the invariant |
| PaxosSteps.SuspectedInv | src/paxos_signal_handlers.c:147-194 | starting a proposal with a ballot from the locked counter keeps the invariant |
| ElectionWinner.WinnerIsValid | src/paxos_signal_handlers.c:279-334 | in runs where a fresh pick is never misled, every learned core belongs to the cluster and answered a prepare, and all learned cores agree |
| ElectionWinner.FreshWinnerIsBest | src/paxos_signal_handlers.c:285-311 | when no vote was reported, the core picked has answered and no core that answered has a greater preference score |
| ElectionWinner.PickExact | src/paxos_signal_handlers.c:285-295 | the scan returns the first core of greatest score if some score beats the starting `max_score`, and the starting `index` otherwise |
| ElectionWinner.ScanCanFail | src/paxos_signal_handlers.c:271-295 | with an unlucky starting value the scan elects core -1; with -1 it elects the best |
| ElectionWinner.IntendedStartIsSane | src/paxos_signal_handlers.c:279-295 | a starting value of -1 and real scores never mislead the pick |
| ElectionWinner.VoteIsReportedIff | src/paxos_signal_handlers.c:219-258 | a vote is reported to the next proposer if and only if its value is not -1 |
| ElectionWinner.WinnerStep | src/paxos_signal_handlers.c:285-334 | every sane step keeps "every proposal is a core that answered" |
| PaxosExact.AgreementIff | src/paxos_signal_handlers.c:279-334 | in every cluster with at least four members, all runs, whichever of the given pairs a scan starts from each time and whatever scores `leader_preference` can return, announce one core if and only if the members are fewer than eight and no pair can make a scan come out at -1 |
| PaxosExact.PickClean | src/paxos_signal_handlers.c:285-295 | a scan from a harmless pair over a score table with an answer in it never comes out at -1 |
| PaxosExact.RunClean | src/paxos_signal_handlers.c:200-416 | over every run whose scans start from harmless pairs no proposal, vote or reply carries -1 |
| PaxosSentinel.Disagreement | src/paxos_signal_handlers.c:219-304 | from any other values, in every cluster with enough members to decide, there is a run with two LEARN messages that differ, one of them for core -1 |
| PaxosSentinel.Split | src/libfunctions.c:352-354 | with twice the fixed majority of members there is a run with two LEARN messages that differ, whatever the variables hold and whatever the score of first answers |
| PaxosSentinel.Round | src/paxos_signal_handlers.c:125-545 | from any reachable state in which some majority has accepted nothing but -1, an undisturbed proposer goes through all its messages with that majority and announces what its scan comes to; everyone else is left alone |
| PaxosCore.Core.constructor | src/include/structs.h:302-313 | a core starts with empty acceptor and proposer records |
| PaxosCore.Core.Init | src/paxos_signal_handlers.c:125-194 | draws one ballot from the counter, clears the score table and asks every core of the cluster once, in order |
| PaxosCore.Core.PrepareRequest | src/paxos_signal_handlers.c:200-264 | refuses a lower ballot, promises a higher one and answers with the accepted pair or with none, exactly as the protocol's acceptor |
| PaxosCore.Core.PrepareAcceptNoPrevious | src/paxos_signal_handlers.c:266-367 | records the score, counts the promise, and on a majority sends the best core, or the adopted value, to the whole cluster once |
| PaxosCore.Core.PrepareAccept | src/paxos_signal_handlers.c:372-446 | adopts the value of the highest replied ballot and on a majority sends it to the whole cluster once |
| PaxosCore.Core.SendAcceptRequests | src/paxos_signal_handlers.c:313-334 | one ACCEPT_REQUEST for every core of the cluster, in order |
| PaxosCore.Core.AcceptRequested | src/paxos_signal_handlers.c:449-475 | votes unless a higher ballot was promised |
| PaxosCore.Core.AcceptedBy | src/paxos_signal_handlers.c:477-545 | counts the vote and at the fourth announces the value once, to itself and every other core of the mesh but the failed one |
| PaxosCore.Core.Learned | src/paxos_signal_handlers.c:547-591 | the receiver of LEARN leaves the program |
| OwnershipRuns.OneOwner | src/signal_handlers.c:2002-2149 | over every run, with signals in any order, a core is free for at most one node, by one entry of its list, and for none while it is offered, on its way to a new agent, or on its way back |
| OwnershipSteps.NextInv | src/signal_handlers.c:2002-2280 | every step of the offer protocol keeps the number of rights to a core, counted over lists, offers and messages, at most one |
| OwnershipSteps.MakeOfferKeeps | src/resource_negotiation.c:118-173 | marking entries offered moves their cores from the giver to the offer |
| OwnershipSteps.NotItsOwn | src/resource_negotiation.c:55-132 | a manager never offers its own core, because the walk begins after the head of the list |
| OwnershipSteps.ChooseInitKeeps | src/common_core.c:377-566 | accepting one offer for a new application and refusing the rest moves the accepted cores to the new agent, or to the INIT_AGENT message for it |
| OwnershipSteps.ChooseSelfKeeps | src/common_core.c:876-944 | accepting one offer for a running application moves its cores to the manager's list |
| OwnershipSteps.AnswerKeeps | src/signal_handlers.c:2033-2149 | a refusal or a reject brings the cores back to the giver, an acceptance takes nothing from anyone else |
| OwnershipSteps.StartAgentKeeps | src/signal_handlers.c:2233-2286 | the new agent's list takes over exactly the cores of the INIT_AGENT message |
| OwnershipSteps.EndKeeps | src/common_core.c:1214-1324 | an ended application's cores go into FINISH; the manager waits until none is offered to anybody |
| OwnershipSteps.TakeFinishKeeps | src/signal_handlers.c:3424-3431 | FINISH frees a core only in exchange for the message that carries it |
| OwnershipSteps.DirectoryKeeps | src/signal_handlers.c:2466-2502 | ADD and REM messages never free a core, in whatever order they come |
| OwnershipFrame.OtherOffers | src/common_core.c:545-566 | a step leaves every offer but its own alone, except that a requester's decision refuses the others of that kind that it holds |
| OwnershipFrame.OwnOffer | src/signal_handlers.c:1876-2149 | the offer a step is about keeps its cores and goes from sent to held, accepted or refused until the answer is read, and is then gone |
| OwnershipFrame.OtherLists | src/signal_handlers.c:2002-2280 | a step changes the list of one node only |
| OwnershipFrame.Reports | src/signal_handlers.c:2088-2149 | exactly which ADD and REM messages each step sends, how often for each core and with which names, and which it uses up |
| OwnershipFrame.DirectoryMarks | src/signal_handlers.c:2466-2480 | a directory message changes the first entry of its core only: ADD names the new manager, REM the new one if the core was free and nobody if the old one was named |
| OwnershipLosses.LostInRun | src/signal_handlers.c:2002-2149 | over every run in which each node reads offers and answers in ring order, a step leaves a core nowhere that was somewhere if and only if it is an ADD, a REM, a FINISH or a refusal to a controller, each under a condition on the state before it |
| OwnershipLosses.LostExactly | src/signal_handlers.c:2002-2149 | the same for one step from any state with the invariants of such runs |
| OwnershipLosses.DirectoryLoses | src/signal_handlers.c:2719-2729 | a directory message takes a core away from where it is if and only if the core is free at its controller |
| OwnershipLosses.FinishReturns | src/signal_handlers.c:3424-3431 | a core given back is free again if and only if the controller still has it down as the ended agent's |
| OwnershipLosses.ManagerRefused | src/signal_handlers.c:2033-2041 | a refusal to a manager always gives every core of the offer back |
| OwnershipLosses.RefusalReturns | src/signal_handlers.c:2033-2041 | at any giver, so at a controller, a refused core is free again if and only if its first entry after the head is still marked for the requester |
| OwnershipLosses.RejectReturns | src/signal_handlers.c:3681-3690 | a reject always gives every core of the offer back |
| OwnershipLosses.AcceptanceKeeps | src/signal_handlers.c:2127-2149 | an acceptance that reaches a manager loses no core |
| OwnershipLosses.NothingLost | src/common_core.c:545-566 | offering, accepting, starting an agent and ending lose no core |
| OwnershipRing.ReadsInOrder | src/scc_signals.c:399-584 | a node that takes its ring's first signal, and that is an offer, has read the answers to all its own accepted offers that share a core with it |
| OwnershipRing.NextOrdered | src/scc_signals.c:399-584 | every step keeps each unread offer behind the acceptances it shares a core with, and every unread acceptance in the ring |
| OwnershipRing.AnyOrder | src/scc_signals.c:399-584 | a run over the rings is a run in which signals may come in any order, so what holds of those holds of it |
| OwnershipOnce.NextTight | src/signal_handlers.c:2002-2280 | every step of a node that has read the answers first keeps a manager's list free of repetition, and every mark on it that of an open offer of the core |
| OwnershipOnce.AcceptedNotFree | src/signal_handlers.c:2127-2149 | the entry an acceptance takes off a manager's list is never a free one |
| OwnershipOnce.RefusalHits | src/signal_handlers.c:2033-2041 | the first entry after the head that a refusal to a manager meets is down as the requester's |
| OwnershipMarks.NextCovered | src/signal_handlers.c:2002-2280 | every step keeps as many marks for a core on a manager's list as offers of it are open, and a controller's offered cores on its list |
| OwnershipMarks.RejectHits | src/signal_handlers.c:3681-3690 | the core of an open offer is behind the head of the giver's list |
| OwnershipTidy.AgentUnlisted | src/signal_handlers.c:2231-2239 | INIT_AGENT comes to no controller and to no node that has a list, so replacing the list drops nothing |
| OwnershipTidy.NextTidy | src/signal_handlers.c:2002-2280 | every step keeps the controllers' own cores at the heads of their lists and nowhere else, and no core twice in an offer |
| OwnershipTidy.HeadNotGivenBack | src/signal_handlers.c:3424-3431 | FINISH never names a core that heads a controller's list, which its walk passes over |
| OwnershipWitness.LateReportLoses | src/signal_handlers.c:2719-2729 | a run from the start in which a manager's REM comes after the new owner's FINISH and loses the core |
| OwnershipWitness.LateOwnerLoses | src/signal_handlers.c:2466-2480 | a run from the start in which an earlier owner's ADD comes after the next owner's FINISH and loses the core |
| OwnershipWitness.FinishLoses | src/signal_handlers.c:3424-3431 | a run from the start in which that ADD comes just before the FINISH, which leaves the core with the earlier owner |
| OwnershipWitness.RefusalLoses | src/signal_handlers.c:2033-2041 | a run from the start in which an earlier owner's ADD comes between the controller's offer and its refusal, which then frees nothing |
| CoreList.FreeMarked | src/resource_negotiation.c:118-173 | marking entries takes exactly the marked cores from the free ones |
| CoreList.BackFrees | src/signal_handlers.c:3681-3690 | of the cores given back, those become free whose first entry the walk finds and may change |
| CoreList.DropFrees | src/signal_handlers.c:2127-2149 | unlinking the first entries of given cores makes a core unfree exactly when it is given and its first entry is the free one |
| CoreList.FreeFresh | src/signal_handlers.c:2270-2280 | the entries appended free exactly the cores given, but not the node's own |
| CoreList.HeadStays | src/signal_handlers.c:2127-2145 | taking accepted cores off the list leaves its head alone unless the head is one of them |
| OfferBook.BestFirst | src/signal_handlers.c:1876-1957 | whatever the order in which offers come, the first of the list is one of them and as good as any: for a new application a controller's before a manager's, then the most cores, then the smallest loss |
| OfferBook.FirstAccepted | src/signal_handlers.c:1876-1957 | exactly which offer is accepted, for every order in which they come: among equally good ones the earliest, but among controllers' offers for a new application the latest |
| OfferBook.InsertedOrdered | src/signal_handlers.c:1891-1946 | the walk for a new offer keeps the list in the order of preference |
| OfferBook.Insert | src/signal_handlers.c:1891-1946 | the three walks find the place the order prescribes |
| OfferBook.ChooseAgent | src/common_core.c:379-397 | the agent is the first core, if low-voltage, otherwise the first of those with the fewest hops to all the others |
| OwnershipCore.Node.RepOffers | src/signal_handlers.c:2024-2180 | the loops over the offered cores do to the list what the protocol's answer does; a manager reports the cores given away and their new owner, and ends when nothing is offered any more |
| OwnershipCore.Node.Reject | src/signal_handlers.c:3681-3698 | likewise for a reject |
| OwnershipCore.Node.TakeBack | src/signal_handlers.c:2034-2041 | the nested walks change the first entry of each core, and only if it may be changed |
| OwnershipCore.Node.GiveAway | src/signal_handlers.c:2088-2149 | each accepted core's first entry is unlinked, and the message to the controller lists them in order |
| OwnershipCore.Node.InitAgent | src/signal_handlers.c:2231-2311 | the list becomes that of the new application, the agent first, and is reported in order |
| OwnershipCore.Node.TakeBid | src/signal_handlers.c:1876-1957 | an offer goes to its place in the list of its kind |
| OwnershipCore.Node.ChooseForInit | src/common_core.c:377-566 | every giver is answered, the first on the list with 1 and the others with 0; the agent is the first core offered, if low-voltage, otherwise the most central; the cores go to the agent or onto this node's list, as in the protocol |
| OwnershipCore.Node.ChooseForSelf | src/common_core.c:875-944 | every giver is answered, the first on the list with 1 unless the application has ended and the others with 0; the accepted cores are appended |
| OwnershipCore.Node.GiveBack | src/common_core.c:1220-1324 | with a core still offered nothing is given back; otherwise the whole list goes into FINISH in order |
| DirectoryOps.EitherOrder | src/signal_handlers.c:2466-2502 | when the old manager has the cores, ADD then REM and REM then ADD give the same map and the same list of counts |
| DirectoryOps.AddLeaves | src/signal_handlers.c:2466-2502 | after ADD all the cores named are the agent's, its count has grown by the number given, the controller's own has fallen by the number that were free, and every other count stays |
| DirectoryOps.AddPlaces | src/signal_handlers.c:2483-2502 | whoever is on the controller's list keeps the place, and an agent that ADD brings comes last |
| DirectoryOps.RemLeaves | src/signal_handlers.c:2714-2752 | after REM a core that was free is the new owner's, one of the old owner's is on its way, any other stays; the old owner's count falls by the length of the message, and every other count stays |
| DirectoryOps.FinishLeaves | src/signal_handlers.c:3424-3444 | after FINISH exactly the named cores of the ended agent are free, but for the first of the controller's list; the controller's count has grown by their number, and the agent is off the list |
| DirectoryOps.HandOverMatches | src/signal_handlers.c:2722-2759 | after both messages counts agree with the cores again if and only if the count added is the number of local cores |
| DirectoryOps.FreshMatches | src/signal_handlers.c:2471-2502 | the same for cores that were free, which also leave the controller's own count |
| DirectoryOps.FinishMatches | src/signal_handlers.c:3424-3444 | after FINISH counts agree if and only if the message named all the agent's cores and none heads the controller's list |
| DirectoryOps.ShortMessage | src/signal_handlers.c:2493 | a directory whose counts go wrong when one of two cores of a message is local, for cores of an agent and for free ones |
| DirectoryOps.CreditDebit | src/signal_handlers.c:2567-2600 | crediting one agent and debiting another commute, down to the order of the list |
| DirectoryCore.Directory.constructor | src/signal_handlers.c:1285-1300 | a directory that starts with every core free and only the controller listed has matching counts |
| DirectoryCore.Directory.AddCores | src/signal_handlers.c:2466-2502 | the loop over the cores and the walk along the list do what the directory law's ADD does |
| DirectoryCore.Directory.RemCores | src/signal_handlers.c:2714-2752 | likewise for REM, with the entry unlinked when its count reaches zero |
| DirectoryCore.Directory.FinishApp | src/signal_handlers.c:3424-3444 | likewise for FINISH |
| DirectoryCore.SplitMessage | src/signal_handlers.c:2414-2436 | every controller that has a core in the message gets exactly one part, with exactly its cores in order |
| DirectoryCore.PartLast | src/signal_handlers.c:2414-2436 | a core further on in the message comes further on in its controller's part, as often as it is there |
| GreedyOffer.OfferCores | src/resource_negotiation.c:28-181 | terminates and marks exactly the chosen cores for the requester; each was free, in the region and not one the giver keeps; it stops when a further core gains nothing or none is left; a manager with no other free core offers nothing |
| GreedyOffer.KNearest | src/resource_negotiation.c:54-123 | the cores marked are nearer than every free core of the region left over, or as near and before it on the list; low-voltage cores apart, of which a controller gives a new application, before all others, the first on its list |
| GreedyOffer.OnlyFree | src/resource_negotiation.c:54-173 | only free cores of the region are marked, never the giver's own core, nor a manager's second entry, nor a core about to start work; nothing else changes |
| GreedyOffer.ControllerGoesOn | src/resource_negotiation.c:54-123 | while a free core is left a controller goes on up to the receiver's second core, and from there on if and only if the next one makes the application faster |
| GreedyOffer.ManagerGoesOn | src/resource_negotiation.c:126-174 | while a free core is left a manager goes on if and only if its own loss is below 1000 for the receiver's first core, below 100 for its second, and below the receiver's weighted gain for any other |
| GreedyStep.ChoiceIsStep | src/resource_negotiation.c:28-181 | whatever a giver chooses is an offer that the protocol of cores lets it make, and the marks it leaves are those of the protocol's step |
| GreedyOffer.PickController | src/resource_negotiation.c:60-116 | one walk of a controller: the first low-voltage core for a new application, otherwise the first of the nearest candidates, or nothing without gain |
| GreedyOffer.PickManager | src/resource_negotiation.c:127-168 | one walk of a manager: the first of the nearest candidates that are not about to start work, or nothing without gain |
| GreedyOffer.Count | src/resource_negotiation.c:35-40 | how many cores of the list are inside the region and how many are offered already |
| GreedyOffer.TradeProfitable | src/resource_negotiation.c:126-174 | a manager that gives cores to an application with at least two gives them only when the receiver's weighted gain exceeds its own loss |
| MpbLaws.AlwaysValid | RCCE_V2.0/src/RCCE_malloc.c:117-209 | after any sequence of malloc and free the list tiles the region, blocks before the tail are wholly free or wholly used, and no two free blocks touch |
| MpbLaws.MallocKeeps | RCCE_V2.0/src/RCCE_malloc.c:117-154 | malloc keeps that, adds exactly the allocation it returns, line-aligned, or changes nothing |
| MpbLaws.FreeKeeps | RCCE_V2.0/src/RCCE_malloc.c:167-209 | free keeps that and removes exactly the allocation at the address |
| MpbLaws.LiveAllocations | RCCE_V2.0/src/RCCE_malloc.c:117-154 | live allocations are inside the region, aligned and disjoint |
| MpbLaws.RefusedIffNoGap | RCCE_V2.0/src/RCCE_malloc.c:123-146 | a valid request is refused if and only if the region has no gap of that length |
| MpbLaws.WhichGap | RCCE_V2.0/src/RCCE_malloc.c:121-146 | a request gets the start of the free end of the region, if that is long enough, and otherwise the lowest gap of its length; lengths that are zero or no whole lines get nothing |
| MpbLaws.Canonical | RCCE_V2.0/src/RCCE_malloc.c:171-209 | two valid lists of one region with the same live allocations are equal |
| MpbLaws.MallocThenFree | RCCE_V2.0/src/RCCE_malloc.c:123-209 | freeing what malloc returned restores the list |
| MpbLaws.FreeUnknown | RCCE_V2.0/src/RCCE_malloc.c:171-184 | free changes nothing if and only if the address is not that of a live allocation |
| MpbLaws.FreesCommute | RCCE_V2.0/src/RCCE_malloc.c:171-209 | the order of two frees does not matter |
| MpbBlocks.NoLineNoExit | RCCE_V2.0/src/RCCE_malloc.c:227-230 | with no free line every request of the halving loop is refused and none falls below one line |
| MpbBlocks.AnsweredIff | RCCE_V2.0/src/RCCE_malloc.c:227-230 | the request loop ends, after however many rounds, if and only if some line is free |
| MpbBlocks.RequestEnds | RCCE_V2.0/src/RCCE_malloc.c:225-231 | with a free line the loop ends within as many rounds as the request has lines, with the largest of the halved requests that is granted |
| MpbBlocks.GrantedHalf | RCCE_V2.0/src/RCCE_malloc.c:225-231 | that is the first of the halved requests for which there is room, all before it having been refused |
| MpbBlocks.HalvedLines | RCCE_V2.0/src/RCCE_malloc.c:227-230 | the k-th halved request of m lines is m / 2^k lines, rounded up |
| MpbBlocks.FullRegion | RCCE_V2.0/src/RCCE_malloc.c:123-137 | a request for the whole of any region is granted and leaves a list on which every later request of the loop is refused |
| MpbBlocks.NotGranted | RCCE_V2.0/src/RCCE_malloc.c:227-230 | a refused request leaves the list alone and the halving goes on to the same answer |
| MpbBlocks.Pad32 | RCCE_V2.0/include/RCCE_lib.h:25 | the least multiple of 32 that is not smaller |
| MpbAllocator.Allocator.constructor | RCCE_V2.0/src/RCCE_malloc.c:58-66 | one block, linked to itself, that is all of the region |
| MpbAllocator.Allocator.Malloc | RCCE_V2.0/src/RCCE_malloc.c:117-154 | the splices on the circular list do what malloc does on the list of blocks, and return the same address |
| MpbAllocator.Allocator.Search | RCCE_V2.0/src/RCCE_malloc.c:140-146 | the walk round the circle finds the first block with room, or reports that there is none before the tail |
| MpbAllocator.Allocator.TakeTail | RCCE_V2.0/src/RCCE_malloc.c:123-137 | the tail is used and what is left of it becomes the new tail, even if empty |
| MpbAllocator.Allocator.Split | RCCE_V2.0/src/RCCE_malloc.c:148-153 | a block is cut in two and linked in |
| MpbAllocator.Allocator.Free | RCCE_V2.0/src/RCCE_malloc.c:167-209 | the pointer surgery of free does what free does on the list of blocks |
| MpbAllocator.Allocator.Coalesce | RCCE_V2.0/src/RCCE_malloc.c:185-209 | the freed block is merged with whichever neighbours are free, the tail included |
| MpbAllocator.Allocator.MallocRequest | RCCE_V2.0/src/RCCE_malloc.c:216-232 | the loop, for any number of rounds, does to the list of blocks what the request law says, and returns the same address and length |
| Schedule.SendRounds | RCCE_V2.0/src/RCCE_send.c:55-89 | the loop and the two tails cut a message into full chunks, whole lines and one padded line |
| Schedule.RoundsSpelled | RCCE_V2.0/src/RCCE_send.c:55-89 | how many rounds there are, and of each where it begins, how much goes through the buffer and how much of that is message |
| Schedule.RoundsTile | RCCE_V2.0/src/RCCE_recv.c:60-112 | the rounds follow each other through the whole message and each fits the buffer, for every size and every line-multiple chunk |
| Handshake.Transfer | RCCE_V2.0/src/RCCE_send.c:55-101 | every interleaving is finite, and one that cannot go on has delivered the message exactly, with both sides returned and both flags unset, in two steps for each byte of the message rounded up to whole lines and six for each round |
| Handshake.NextInv | RCCE_V2.0/src/RCCE_recv.c:60-127 | every step of either side keeps the two in step and the buffer and the received bytes right |
| Handshake.NeverOverwritten | RCCE_V2.0/src/RCCE_recv.c:74-80 | while the receiver copies the sender has no step, and each byte it takes is the message's |
| Handshake.SomeStep | RCCE_V2.0/src/RCCE_send.c:59-63 | some step is possible until both have finished |
| Handshake.LeftFalls | RCCE_V2.0/src/RCCE_send.c:55-101 | every step, of either side, brings the transfer exactly one step closer to its end |
| Handshake.AllWork | RCCE_V2.0/src/RCCE_send.c:55-101 | the rounds of a message of any size put its bytes, rounded up to whole lines, through the buffer |
| Handshake.AnyMessage | RCCE_V2.0/src/RCCE_send.c:112-118 | a transfer of any message can start whenever both flags are unset |
| Barrier.BarrierHolds | RCCE_V2.0/src/RCCE_synch.c:76-127 | over every run of any number of barriers nobody has left a barrier that somebody has not entered |
| Barrier.NextInv | RCCE_V2.0/src/RCCE_synch.c:91-127 | every read and write of a flag keeps the invariant, also while the root is still releasing and fast members have entered the next barrier |
| Barrier.ScanInv | RCCE_V2.0/src/RCCE_synch.c:104-115 | the root's count equals the number of members it looked at only if all of them have arrived |
| Barrier.ReleaseInv | RCCE_V2.0/src/RCCE_synch.c:117-119 | a release is written only for members that have entered |
| Barrier.BarrierOpens | RCCE_V2.0/src/RCCE_synch.c:101-123 | once everyone has entered, a bounded number of steps in any order lets everyone out |
| SignalFifo.RingIsFifo | src/scc_signals.c:399-584 | over every run the messages handled are a prefix of the messages enqueued, whole and from the right sender, and all of them when the ring is empty |
| SignalFifo.HandleInv | src/scc_signals.c:575-584 | the message handled is the oldest in the ring |
| SignalFifo.NextInv | src/scc_signals.c:399-482 | every word stored or fetched by any party keeps the invariant |
| SignalFifo.StoreFree | src/scc_signals.c:405-416 | a word stored by a sender never lands on a packet still in the ring |
| SignalFifo.EmptyMeansEmpty | src/scc_signals.c:448-452 | the two indices are equal if and only if no packet is in the ring |
| SignalOverflow.HarmlessIffRoom | src/scc_signals.c:399-420 | appending a message moves the bottom index onto the top one or overwrites a word of a packet in the ring if and only if it does not leave a line over |
| SignalOverflow.OverlooksIff | src/scc_signals.c:448-452 | over every run, room or not, in which the reader is in step with what was sent, it finds nothing while packets wait if and only if their lines are a positive multiple of the ring's |
| SignalOverflow.LooksEmptyIff | src/scc_signals.c:448-452 | over every run whatever, the indices are equal if and only if the lines stored less those taken off are a multiple of the ring's |
| SignalOverflow.FullLooksEmpty | src/scc_signals.c:399-452 | a run from the start that sends any one-line message as often as the ring has lines, after which the reader finds nothing and has handled nothing |
| SignalCodec.RoundTrip | src/scc_signals.c:203-290 | the handler reads back the signal, the sender, the extra words and the cores that were laid out |
| SignalCodec.LinesAgree | src/signal_handlers.c:2389-2414 | the handler takes as many lines as the sender wrote |
| SignalCodec.LayoutWords | src/scc_signals.c:55-290 | which word is where: signal, number, count, extra words, cores, and what fills the lines |
| SignalCodec.LinesNeeded | src/scc_signals.c:203-290 | a second line is used if and only if the words do not fit the first; how many extra words each signal has, from a manager and from a controller |
| SignalCodec.SenderFound | src/scc_signals.c:19-22 | the sender is recovered from a numbered or an unnumbered identifier |
| SignalCodec.FillList | src/scc_signals.c:55-61 | the loops over the local array lay a list out as the codec law says, with the remains of the array behind it |
| SignalRing.Store | src/scc_signals.c:399-416 | word i from line n on goes to word (8 n + i) modulo the ring, and nothing else is written |
| SignalRing.NewGet | src/signal_handlers.c:60-66 | the second line is fetched from the words modulo the ring to which the store loop put it |
| SignalRing.AddrDistinct | src/scc_signals.c:405-416 | different words of a ringful have different places |
| Quicksort.QSort | RCCE_V2.0/src/RCCE_qsort.c:82-130 | terminates and leaves the stretch a sorted permutation and the rest of the array untouched, for every length and every total preorder |
| Quicksort.Divide | RCCE_V2.0/src/RCCE_qsort.c:94-127 | smaller, equal and larger keys, with at least one equal, whichever way the pivot is kept |
| Quicksort.Partition | RCCE_V2.0/src/RCCE_qsort.c:107-123 | the four-pointer loop leaves equal keys at both ends and smaller and larger keys between them |
| Quicksort.ScanUp | RCCE_V2.0/src/RCCE_qsort.c:111-114 | stops at a larger key, having parked the equal ones on the left |
| Quicksort.ScanDown | RCCE_V2.0/src/RCCE_qsort.c:115-118 | stops at a smaller key, having parked the equal ones on the right |
| Quicksort.Gather | RCCE_V2.0/src/RCCE_qsort.c:124-126 | the two block exchanges bring the equal keys to the middle |
| Quicksort.VecSwap | RCCE_V2.0/src/RCCE_qsort.c:56-72 | exchanges two stretches key by key |
| Quicksort.InsertionSort | RCCE_V2.0/src/RCCE_qsort.c:89-94 | sorts a short stretch |
| Quicksort.SetPivot | RCCE_V2.0/src/RCCE_qsort.c:68-70 | the pivot is copied, or swapped to the front and kept there |
| Quicksort.Med3IsMedian | RCCE_V2.0/src/RCCE_qsort.c:76-80 | the key returned lies between the other two |
| Quicksort.Ninther | RCCE_V2.0/src/RCCE_qsort.c:99-104 | a sampled pivot lies in the stretch |
| Quicksort.Assembled | RCCE_V2.0/src/RCCE_qsort.c:124-129 | sorting both sides of a split sorts the whole |
| Quicksort.IdsSortOneWay | RCCE_V2.0/src/RCCE_qsort.c:30-37 | sorting core identifiers has one possible outcome, which is the rising one (`Ranks.IdsRise`) |
| Quicksort.SortedUnique | RCCE_V2.0/src/RCCE_qsort.c:82-130 | the sorted permutation is unique when the comparison tells the keys apart |
| Ranks.GiveRank | RCCE_V2.0/src/RCCE_admin.c:255-261 | the identifiers of the participants rise after sorting and are the same ones; the rank of a core that takes part is one less than the number of participants whose identifier is at most its own, and -1 for any other core |
| Ranks.SortIds | RCCE_V2.0/src/RCCE_admin.c:256 | sorting with id_compare leaves the identifiers in rising order, a permutation of themselves, and those beyond the participants alone |
| Ranks.IdsRise | RCCE_V2.0/src/RCCE_qsort.c:30-37 | a list is sorted by id_compare if and only if its numbers rise; id_compare is a total order |
| Fft.SingleFft1D | src/apps.c:771-803 | turns 2^m numbers into their discrete Fourier transform over the principal root of the table, or over its conjugate if the direction is -1, and touches nothing outside them |
| Inverse.ThereAndBack | src/apps.c:771-803 | the transform in one direction and then in the other leaves every sample as many times as large as there are samples, for every number of samples 2^m |
| Inverse.RootsCancel | src/apps.c:776-803 | the powers of any 2^m-th root of unity other than one add up to zero |
| Fft.CrossEntries | src/apps.c:785-799 | one butterfly of a stage makes two entries of the transforms of that stage from two of the stage before |
| Fft.CrossStages | src/apps.c:776-803 | after stage q every place holds its entry of the transform of the 2^q samples behind its block |
| Fft.Reverse | src/apps.c:822-835 | permutes the numbers by bit reversal, each pair swapped once |
| Fft.ReversedTwice | src/apps.c:822-835 | reversing twice restores the numbers |
| Fft.CrossOne | src/apps.c:786-797 | the butterfly's arithmetic on interleaved parts |
| Fft.Twiddle | src/apps.c:786-787 | the table entry for stage and butterfly, turned by the direction |
| Fourier.Butterfly | src/apps.c:785-799 | entries j and j + L of a transform of 2 L samples from entry j of the transforms of the even and the odd ones |
| Fourier.SumSplit | src/apps.c:776-803 | a sum over all samples from the sums over even and odd ones at the squared argument |
| BitReversal.ReverseBit | src/apps.c:837-847 | the loop computes the reversal of the low m bits |
| BitReversal.RevBits | src/apps.c:837-847 | bit i of the result is bit m - 1 - i of the argument |
| BitReversal.Involution | src/apps.c:822-847 | reversing twice gives the index back |
| Transpose.MatrixTranspose | src/apps.c:648-719 | a worker's nested loops copy exactly the cells of its share, transposed, and leave other rows and the padding alone |
| Transpose.ShareComplete | src/apps.c:648-653 | a worker's share is all its rows if and only if the number of blocks divides the number of rows |
| Transpose.BlocksLeast | src/apps.c:648-652 | the number of blocks is the least that holds two words for each of the rows |
| Transpose.SharesDisjoint | src/apps.c:654-719 | different workers write different cells |
| Transpose.AnyOrder | src/apps.c:654-719 | the result depends only on which cells are written, not on the order |
| Transpose.WorkersTranspose | src/apps.c:654-719 | all the workers' writes in any interleaving make the exact transpose and leave the padding alone |
| SixStep.Fft1D | src/apps.c:724-757 | what any worker of any number leaves in its `scratch`, if the number of blocks divides its number of rows; with one worker row l ends with entries n l to n l + n - 1 of the discrete Fourier transform of all n * n samples of `x`, forwards or backwards |
| SixStepWorkers.RightIffAlone | src/apps.c:724-757 | a worker's rows are their part of the transform for all samples if and only if it is the only worker |
| SixStepWorkers.RightIffAll | src/apps.c:732-751 | they are if and only if the worker has all the rows |
| SixStepWorkers.ImpulseWrong | src/apps.c:732-751 | with a first sample of one and all others zero, the transform is one everywhere and a worker that has not all the rows leaves a zero |
| SixStepWorkers.OthersUntouched | src/apps.c:741-751 | what a worker copies from another worker's row is the samples as they were |
| SixStep.SixStepsTransform | src/apps.c:732-751 | transposing, transforming and twisting rows, transposing, transforming rows and transposing again yields exactly the transform of the n * n samples |
| SixStep.MiddleRow | src/apps.c:732-742 | before the second round row k holds the twisted entries k of the transforms of the columns |
| SixStep.FftTwiddleRows | src/apps.c:735-739 | the first round transforms every row of the worker and twists row j by the powers of the j-th power of the larger root; other rows stay |
| SixStep.FftRows | src/apps.c:744-748 | the second round transforms every row of the worker; other rows stay |
| SixStep.TwiddleCol | src/apps.c:805-820 | number i of row j times the i-th power of the j-th power of the root of order n * n, turned by the direction |
| SixStep.TransposeShare | src/apps.c:732-733 | a worker's transposition makes its rows h of one matrix from entries h of the rows of the other; other rows stay |
| SixStep.AllRowsSteps | src/apps.c:732-751 | a worker with all the rows goes through exactly the six steps |
| Decimation.SquareTransform | src/apps.c:724-757 | entry n l + k of the transform of n * n samples is entry l of the transform of the twisted entries k of the transforms of the columns |
| Decimation.ColumnSum | src/apps.c:732-739 | a sum over all samples from the sums over the columns at the n-th power of the argument |
| Decimation.SumTwisted | src/apps.c:811-817 | twisting by powers of y moves the transform from u to u y |
| Decimation.SquareRoots | src/apps.c:811-812 | the roots of orders n and n * n of one family: the n-th power of the one is the other, whose n-th power is one |
| Mesh.RegionCount | src/noc_functions.c:201-237 | the number of cores at most r hops from the centre, for every grid, numbering, centre and radius |
| Mesh.CountRows | src/noc_functions.c:208-236 | the two loops count the cells of the clipped diamond |
| Mesh.RegionIsDiamond | src/noc_functions.c:201-237 | cores in the region and cells of the diamond are equally many under any one-to-one numbering |
| Mesh.DistanceIsMetric | src/noc_functions.c:102-114 | hop distance is symmetric and satisfies the triangle inequality |
| Mesh.ClustersTile | src/noc_functions.c:240-265 | every cell of the grid is in the cluster of exactly one controller |
| Mesh.GetClusterInfo | src/noc_functions.c:240-265 | corner and size of a cluster in numbers: the first n mod k parts in each direction are one longer, and a part starts behind all before it |
| Power.ClockNeverOutrunsVoltage | RCCE_V2.0/src/RCCE_power_management.c:472-614 | over every sequence of calls the tiles' clock is within the cap of the present level and of the one being approached |
| Power.StepInv | RCCE_V2.0/src/RCCE_power_management.c:484-560 | every call keeps that, although a direct divider change is not remembered |
| Power.RequestTakesEffect | RCCE_V2.0/src/RCCE_power_management.c:484-560 | a request that is waited for leaves the tiles at the divider asked for, or at 16 or 2 if it is above or below those, and the domain at level 4 for a divider of 2, 1 for 3 and 0 for any other |
| Power.DividerTakesEffect | RCCE_V2.0/src/RCCE_power_management.c:591-614 | setting the divider gives the tiles the one asked for, brought between 2 and 16, unless a request is pending or the level is below 4 for a divider of 2 or below 1 for 3 |
| Power.LevelSuffices | RCCE_V2.0/src/RCCE_power_management.c:55-63 | a level chosen from the truncated clock admits the exact one, and so does every higher level |
| Power.VoltageLevel | RCCE_V2.0/src/RCCE_power_management.c:368-377 | the search stops at the first level that admits the clock, inside the table |
| Power.Domain.ISetPower | RCCE_V2.0/src/RCCE_power_management.c:472-512 | refused while a request is pending; otherwise the request handed out, in numbers, and the tiles slowed at once when the divider does not fall |
| Power.Domain.WaitPower | RCCE_V2.0/src/RCCE_power_management.c:532-567 | refused without a pending request or with a used one; otherwise the new level, and the tiles sped up only after it is reached |
| Power.Domain.SetFrequencyDivider | RCCE_V2.0/src/RCCE_power_management.c:591-614 | all four tiles get the divider brought between 2 and 16, unless a change is in flight or the level does not admit it, with the error for each |

## Left out

- The Paxos branch for a failed manager, over `coworkers`: that list is never filled in the files modelled.
- A second proposal by the same core, failure detectors and their timers: suspicion is a step any core may take once.
- `leader_preference`: a core's score is any non-negative number, or one of a given set; the function only lists states.
- The election's integers are unbounded: a `max_score` that no integer of its width beats is not treated apart.
- `sig_LEARN_handler` after its `exit(0)`, rollback and `find_app_info`.
- Variables read before they are assigned are parameters (`Junk` in the election, `junk` in padding and signal lines).
- Logging, statistics, file parsing, process and semaphore creation, real time.
- Ownership: which cores a giver offers is left open, so that every choice of `GreedyOffer` is among its steps (`ChoiceIsStep`); so are the states that decide when a step is taken, which only adds runs; the rings of `OwnershipRing` hold offers and answers, and other signals come at any time.
- `OwnershipCore` keeps of a node's states only those that decide when an ended application gives its cores back; interaction lists and the appointing of work are not modelled.
- `offer_cores_updated` and the FFT variants of the offer loop; `Speedup` and the latency tables are arbitrary functions; gains are exact reals.
- `get_reg_idags`, whose upper half is centred on the grid place of another core (`src/noc_functions.c:163`).
- The SCC-hardware paths; put, get and flag writes are atomic words or bytes.
- The nonblocking receive, `RCCE_recv_test`, and the simplified (non-GORY) running-pointer allocator.
- `RCCE_shmalloc.c` is the same allocator with byte granularity: `line` is 1 instead of 32; its text is not modelled a second time.
- Sort keys of several words: swapping a key is one step.
- `FFT1D` with shares that the blocks do not divide; `Transpose` covers the transpositions of any number of workers on shared arrays.
- Floating-point rounding in the FFT and in the voltage table.
- The RPC queue behind `RC_set_voltage`; other signals than lists of cores, apart from fitting one line.
- The signal counter `R` and message lengths are unbounded integers.
