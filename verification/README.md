# A verified model of go-lachesis

This project models the consensus core of go-lachesis and five of its self-contained algorithms in Dafny, and proves what they promise.

**The event graph and the vector clock.** Validators emit events that point at parents. `Dag` is the graph as plain reachability, forks included.
`VectorSpec`, `VectorFill`, `VectorIndex` and `VectorClock` are the vector clock: branches, HighestBefore, LowestAfter, the pruned walk, flushing and dropping, and the cache.
The main results: every stored vector is exact after every sequence of calls, forkless cause by vectors is forkless cause by reachability, and a cached answer never goes stale.
`ForklessCause` has the fork safety theorem that the rest stands on.

**Frames, elections and blocks.** `Frames`, `FrameCalc` and `Heads` are frames and roots. `ElectionSafety` says what the graph alone elects and proves agreement; `ElectionChoice` proves that an honest election never runs out of candidates;
`Election` is the code that remembers votes. `Blocks`, `ConsensusTime` and `EpochLog` are confirmation, block building and consensus time within an epoch; `Epochs` and `History` are runs over many epochs and the tables that last over them.
`PosetNode` is the node: it accepts events, elects, builds blocks, hands them to the application and seals epochs, for any sequence of calls.

**What the system is for.** `NodeAgreement` holds the theorems about any two nodes that started from one genesis, in whatever epochs they are now and whatever events each of them has:
they started every epoch both reached with the same validators and the same application state, and one chain is a prefix of the other; a node that knows more is never behind; the order of arrival does not matter;
they give every event the same verdict; and block times increase over all epochs exactly when no time left 64 bits, which a bound on the validators' clocks rules out.
`Genesis` discharges what those theorems ask for: its nodes start from the genesis data and take any sequences of events, through any number of sealed epochs. `Feeds` says exactly which events each epoch takes in.
The last theorem is about two such nodes: given the same events of an epoch in any two orders that have parents first, they end with the same chain and the same state of the application.

**Self-contained algorithms.** `NonceHeap`, `NonceMap`, `TxLists` and `TxPool` (transaction lists and fair truncation), `WeightedSelect` (weighted random selection), `WeightedShuffle` (weighted permutation),
`GasPower` (token bucket), `TopicKeys`, `TopicIndex`, `TopicSearch` and `LogFilter` (log search by topic).

## How the model is set up

- An event hash is one big number, so that numeric order is byte order; its first eight bytes carry epoch and Lamport time. An id determines its event.
- A validator is named by its index in the sorted group, a group by the sequence of its stakes. `Sane` says that doubling the whole stake fits 64 bits; `QuorumIsTwoThirds` shows that the quorum means more than two thirds exactly then.
- Tables are maps, and an LRU cache is a map that may lose entries at any time. Consensus time, gas power and tree weights keep the 64-bit conversions of the code.
- The application is any deterministic state machine: it says which events may enter a block, hears of every confirmed event with its depth in the order of the walk, says what state and hash a block leads to and whether it ends the epoch, and who validates the next one. Both uses of a hash function (over the application's answers, and of the previous-epoch record) are arbitrary functions.
- `Faithful`, `Stored`, `RootsOk`, `Descends` and similar predicates fold a definition behind a trigger that is opened by name (`Folds`) where it is needed. They say no less than what they fold.
- `FewForkers` says that validators that forked hold at most a third of the stake. Theorems that need it say so; everything else holds for any number of forks.

## Model

| member | source | states |
|---|---|---|
| Stakes.QuorumIsTwoThirds | inter/pos/validators.go:189-191 | the threshold means more than two thirds of the stake if and only if doubling the total does not wrap |
| Stakes.HalfTheWordWraps | inter/pos/validators.go:189-191 | with a single stake of 2^63 the threshold is one |
| Stakes.QuorumsIntersect | inter/pos/validators.go:189-191 | two quorums share validators that hold more than a third of the stake |
| Stakes.StakeCounter.constructor | inter/pos/stake.go:56-63 | a new counter has counted nobody |
| Stakes.StakeCounter.CountByIdx | inter/pos/stake.go:72-80 | counts a validator once, says whether it was new, and keeps the sum equal to the stake of the counted |
| Stakes.StakeCounter.Reached | inter/pos/stake.go:83-85 | true exactly when the counted validators are a quorum |
| EventChecks.CalcGasPowerUsed | eventcheck/basiccheck/basic_check.go:73-86 | the gas of transactions, parents beyond the free ones, extra data and the event itself, modulo 2^64 |
| EventChecks.EveryPartCosts | eventcheck/basiccheck/basic_check.go:73-86 | a further parent beyond the free ones, transaction or byte of extra data adds its own cost, and a bare event costs the event gas |
| EventChecks.UsedIsCost | eventcheck/basiccheck/basic_check.go:73-97 | the used gas of a checked event is its cost exactly when the cost fits 64 bits, and then its transactions use at most the limit |
| EventChecks.CostMayWrap | eventcheck/basiccheck/basic_check.go:73-86 | otherwise it need not be: two transactions of 2^63 gas add up to none |
| EventChecks.TxCheck | eventcheck/basiccheck/basic_check.go:44-62 | no error exactly for a transaction with no negative value, enough gas for its data and at least the minimal price |
| EventChecks.Validate | eventcheck/basiccheck/basic_check.go:88-151 | accepts exactly the events whose fields, used gas and transactions are right, and reports the first failure: a field, the gas, or the first bad transaction |
| EventChecks.BasicCheck | eventcheck/basiccheck/basic_check.go:99-141 | version, limits and initialisation: an error is the first check in the order of the code that fails, and there is none exactly if all pass |
| EventChecks.ParentsCheck | eventcheck/parentscheck/parents_check.go:32-79 | no error exactly if Lamport time, parents, self-parent, sequence number and time fit; each error exactly when it is the first to fail |
| EventChecks.PassedIsLinked | eventcheck/parentscheck/parents_check.go:32-79 | an event that passes both checks satisfies all that the vector clock and consensus assume of an event |
| Sequences.SizeOfMembers | eventcheck/parentscheck/parents_check.go:46-49 | comparing the size of the parent set with the length of the list detects exactly the repeated parents |
| Dag.NoForkIsChain | vector/index.go:144-180 | the events of a creator that an event sees are one self-parent chain unless it sees a fork |
| Dag.WalkSkipsNothing | vector/traversal.go:13-37 | a walk that stops at visited events of a set closed under ancestors misses no ancestor |
| ForklessCause.ForkSafety | vector/forkless_cause.go:22-80 | two conflicting events of one creator are both forkless-caused, by whatever events, only if forked validators hold more than a third |
| ForklessCause.EqualSeqForkSafety | vector/forkless_cause.go:22-80 | the same for two different events with one sequence number |
| ForklessCause.CausedByQuorum | vector/forkless_cause.go:22-80 | forkless cause is exactly some quorum of relays without a fork in sight |
| ForklessCause.CausedStable | vector/forkless_cause.go:26-35 | adding events never changes whether an old event is forkless-caused by another |
| Vectors.Put | vector/vector.go:66-74 | setting an entry grows the vector with zeros and changes no other entry |
| VectorSpec.BranchIsChain | vector/index.go:144-180 | of two events of one branch the one with the higher number sees the other |
| VectorSpec.ForkIsOverlap | vector/index.go:262-279 | a fork seen shows as overlapping spans on two branches of its creator |
| VectorSpec.OverlapIsFork | vector/index.go:262-279 | overlapping spans on two branches of a creator prove a fork |
| VectorSpec.VouchingIsWitness | vector/forkless_cause.go:60-79 | a branch whose highest entry is not below the lowest one belongs to a witness |
| VectorSpec.WitnessVouches | vector/forkless_cause.go:60-79 | every witness has a branch that shows it |
| VectorFill.SetForkDetected | vector/index.go:182-191 | marks all branches of the creator and no other |
| VectorFill.MergeParent | vector/index.go:224-255 | merging a parent's vectors gives the spans of what both see and marks what either saw forking |
| VectorFill.DetectForks | vector/index.go:256-281 | marks exactly the forks that no single parent saw; the result is the exact HighestBefore |
| VectorFill.LowerAncestors | vector/index.go:283-301 | exactly the ancestors without an entry for the branch get the new number |
| VectorFill.Walk | vector/traversal.go:13-37 | the pruned walk ends with nothing left on its frontier, having changed exactly the vectors it visited |
| VectorFill.WalkIsComplete | vector/index.go:283-301 | stopping at non-zero entries skips no ancestor |
| VectorIndex.NewInitialBranches | vector/branches_info.go:27-44 | one branch for each validator |
| VectorIndex.FillGlobalBranchID | vector/index.go:144-180 | the branches stay self-parent runs without repeated numbers; a new branch opens exactly when no branch is continued |
| VectorIndex.FillHighest | vector/index.go:219-281 | HighestBefore of the new event is exact: spans, claimed times and fork markers |
| VectorIndex.FillEventVectors | vector/index.go:194-309 | all stored vectors of all events are exact after the event is added |
| VectorQuery.Causes | vector/forkless_cause.go:37-80 | the answer by vectors is forkless cause by reachability, for any forks and any numbering of branches |
| VectorQuery.NoCheaters | vector/forkless_cause.go:84-103 | keeps, in order, exactly the candidates whose creators the self-parent has not seen forking |
| VectorQuery.HonestKeepsAll | vector/forkless_cause.go:84-103 | nothing is dropped exactly when no candidate's creator was seen forking |
| VectorQuery.AllBranches | vector/index.go:317-347 | per validator: the marker if a fork is seen, else the highest number seen with its claimed time |
| VectorClock.Index.constructor | vector/index.go:80-92 | an empty clock is exact |
| VectorClock.Index.InitBranchesInfo | vector/branches_info.go:16-25 | loading the branches lazily changes nothing |
| VectorClock.Index.Add | vector/index.go:115-123 | adds exactly the event, keeps all vectors exact, and leaves a known event alone |
| VectorClock.Index.Flush | vector/index.go:126-133 | what was added is stored |
| VectorClock.Index.DropNotFlushed | vector/index.go:136-142 | back to what was stored; the answers cached meanwhile stay right |
| VectorClock.Index.ForklessCause | vector/forkless_cause.go:26-35 | the cached answer is the right answer, whatever was added, dropped or evicted since |
| VectorClock.Index.Evict | vector/index.go:108-112 | losing a cached answer is harmless |
| VectorClock.Index.NoCheaters | vector/forkless_cause.go:84-103 | the filter on the live tables |
| VectorClock.Index.HighestBeforeAllBranches | vector/index.go:312-347 | the merged vector on the live tables |
| VectorClock.Index.MedianTime | vector/median_time.go:19-83 | the median on the live tables |
| Median.MedianIsUnique | vector/median_time.go:61-76 | the median depends on the multiset of weighted times only, not on ties or branch numbers |
| Median.EntriesStable | vector/median_time.go:19-50 | the weighted times an event's median is taken of do not depend on what else a node knows |
| Median.MedianIsBounded | vector/median_time.go:61-76 | with at least two units of counted stake, if entries outside an interval hold less than half of it rounded down, the median lies inside |
| Median.MedianWithin | vector/median_time.go:19-83 | validators with less than half of the unforked stake cannot move an event's median time out of the interval of the others' last claimed times, silent ones counting with the genesis time |
| Median.WeightedMedian | vector/median_time.go:52-83 | computes the median, and the sanity check after the loop cannot fail |
| Median.MedianTime | vector/median_time.go:19-83 | the median of the claimed times of the last events seen, cheaters left out, unseen validators at genesis time |
| Sorting.Sort | vector/median_time.go:52-55 | an ordered permutation |
| Frames.FrameCountsRoots | poset/poset.go:235-286 | along an accepted self-parent chain the frame is the number of roots so far |
| Frames.RootsHaveNoGaps | poset/poset.go:235-286 | below a root of any frame there is a root of every lower frame |
| Frames.EmptyFrameIsTheEnd | poset/poset.go:179-196 | above a frame without roots there is none, so stopping there misses no root |
| Frames.RootsOfOneSlotConflict | poset/poset.go:257-268 | two roots of one validator on one frame are not on one self-parent chain |
| FrameCalc.ForklessCausedByQuorumOn | poset/poset.go:218-230 | true exactly if a quorum of the roots of the frame causes the event, although counting stops early |
| FrameCalc.SelfParentFrame | poset/poset.go:245-254 | the frame of the self-parent |
| FrameCalc.CalcFrameIdx | poset/poset.go:235-286 | checking accepts exactly the events with the right frame and root flag, and confirms the flag exactly of an event without parents or of a right root; assigning gives frame and flag of the rule |
| Heads.HeadCaused | poset/poset.go:70-88 | what causes a new event does not depend on its own hash |
| Heads.HeadEntries | poset/poset.go:70-88 | nor does its median time |
| Heads.PreparedIsHighest | poset/poset.go:273-285 | the assigned frame is the highest that passes the check, under any hash |
| Heads.PreparedPasses | poset/poset.go:70-88 | the assigned frame and root flag always pass the check, under whatever hash the finished event gets |
| RootStore.Store.constructor | poset/frame_decide.go:139-140 | an epoch starts without roots |
| RootStore.Store.AddRoot | poset/store_roots.go:22-43 | table and cached list both gain the root; they still agree exactly unless the root was listed before and its frame is cached, when the list holds it twice |
| RootStore.Store.GetFrameRoots | poset/store_roots.go:53-94 | lists exactly the roots of the frame, each once, from cache or table |
| RootStore.Store.Evict | poset/store_roots.go:53-66 | losing a cached list is harmless |
| ElectionSafety.UnanimityLasts | poset/election/election_math.go:87-103 | if all roots of a frame vote alike on a candidate, all later roots do |
| ElectionSafety.HalfVotesYes | poset/election/election_math.go:92-96 | after the first round a root votes "yes" exactly if at least half of the stake that causes it does |
| ElectionSafety.UnanimousDecides | poset/election/election_math.go:98-103 | a root behind which all roots vote alike decides |
| ElectionSafety.SecondRoundElects | poset/election/sort_roots.go:10-25 | a root two frames up, behind which all voters see one candidate and none before it, elects that candidate's root |
| ElectionSafety.DecisionsAgree | poset/election/election_math.go:98-103 | two roots never decide a candidate differently |
| ElectionSafety.AtroposIsUnique | poset/election/sort_roots.go:10-25 | the graph elects at most one Atropos for a frame |
| ElectionSafety.AtroposStable | poset/election/sort_roots.go:10-25 | more events never change an election |
| ElectionSafety.NodesAgree | poset/election/election_math.go:96-103 | two nodes with different events, and together at most a third of the stake forking, never elect different Atropoi |
| ElectionChoice.PopularCandidate | poset/election/sort_roots.go:10-25 | by double counting: if every voter votes for a quorum, some candidate has the votes of more than two thirds of the voting stake |
| ElectionChoice.SomeoneIsElected | poset/election/sort_roots.go:10-25 | an honest election never decides "no" on every candidate |
| Election.CountVotes | poset/election/election_math.go:49-103 | vote, subject and decision of a later round are those the graph prescribes, and none is missed; fails only under a fork of more than a third |
| Election.CastVotes | poset/election/election_math.go:36-111 | votes on every open candidate, and records every decision |
| Election.OpenElectsNobody | poset/election/election_math.go:12-115 | if all roots have voted and the election is open, the graph elects nobody for the frame |
| Election.ElectionGrows | poset/election/election_math.go:105-110 | remembered votes and decisions stay right when events are added |
| Election.Election.constructor | poset/election/election.go:65-81 | an open election |
| Election.Election.Reset | poset/election/election.go:84-89 | an open election on the new frame |
| Election.Election.NotDecidedRoots | poset/election/election.go:92-104 | exactly the candidates without a decision, each once, in validator order |
| Election.Election.ChooseAtropos | poset/election/sort_roots.go:10-25 | an elected Atropos is the one of the graph; an honest election does not fail; otherwise the first undecided candidate has only "no" before it |
| Election.Election.ObservedRoots | poset/election/election.go:107-116 | exactly the roots of the frame that cause the event |
| Election.Election.ObservedRootsMap | poset/election/election.go:119-129 | one causing root for every validator that has one |
| Election.Election.ProcessRoot | poset/election/election_math.go:12-115 | elects only what the graph elects, misses no decision, and fails only under a fork of more than a third |
| Blocks.ConfirmEvents | poset/frame_decide.go:13-29 | marks exactly the unconfirmed ancestors of the Atropos with the frame, and calls back once for each, in the order of the walk |
| Blocks.WalkOrderStable | poset/traversal.go:14-37 | the order of the walk depends on the unconfirmed ancestors only, not on what else a node knows |
| Blocks.DepthFirst | poset/traversal.go:14-37 | an event is walked before all below it, and all that its last parent leads to before what the others lead to |
| Blocks.DepthCounts | poset/frame_decide.go:59-65 | the depth of an event is the number of later events of its creator that the Atropos sees, and the largest 31-bit number for a cheater |
| Blocks.HearsInOrder | poset/frame_decide.go:76-78 | the application hears every notice, one after the other |
| Blocks.WalkConfirmsAll | poset/traversal.go:14-37 | stopping at confirmed events misses none that is unconfirmed |
| Blocks.ConfirmedStaysClosed | poset/frame_decide.go:13-29 | what is confirmed stays closed under ancestors |
| Blocks.FareOrdering | poset/event_ordering.go:62-85 | a permutation ordered by Lamport time, then hash |
| Blocks.BlockOrder | poset/event_ordering.go:62-85 | in a block events stand by Lamport time, and those of one Lamport time by hash |
| Blocks.AncestorsComeFirst | poset/event_ordering.go:62-85 | in a block every ancestor stands before its descendants |
| Blocks.ListCheaters | poset/frame_decide.go:39-45 | exactly the validators that the Atropos has seen forking, in validator order |
| Blocks.Gather | poset/frame_decide.go:47-79 | the allowed events of non-cheaters among the confirmed, the span of Lamport times, the application told of each event with its depth, and the inconsistency check never fires |
| Blocks.BuildBlock | poset/frame_decide.go:31-91 | the block, cheaters, time parameters and notices to the application that the graph and the confirmed set determine |
| Blocks.FrameResultUnique | poset/frame_decide.go:31-91 | block contents, cheaters, times, and the confirmed events with their depths and order are a function of graph, confirmed set and Atropos |
| ConsensusTime.TimeIsIdeal | poset/event_ordering.go:22-59 | whatever wraps on the way, the computed time is the intended one modulo 2^64 |
| ConsensusTime.FrameTimeIncreases | poset/event_ordering.go:22-59 | a frame's time is later than the one before if and only if the intended time fits 64 bits |
| ConsensusTime.LastTimeWraps | poset/event_ordering.go:22-59 | after the last time that 64 bits hold a frame gets time zero |
| ConsensusTime.TimeIsBounded | poset/event_ordering.go:22-59 | a new time is at most the Atropos median or the time before plus the Lamport span |
| ConsensusTime.TimeFollowsMedian | poset/event_ordering.go:22-59 | a new time is within one Lamport span below the Atropos median, and exactly the time before plus the span if the median is less than that ahead |
| ConsensusTime.EventTimeInFrame | poset/frame_info.go:53-55 | event times lie after the frame before and not after the frame, in Lamport order |
| ConsensusTime.OffsetsInOrder | poset/frame_info.go:31-50 | offsets that are negative by at most the bias are stored as numbers in the same order |
| ConsensusTime.OffsetRoundTrip | poset/frame_info.go:31-50 | the time offset survives being stored with a bias added, negative ones included |
| EpochLog.ConfirmedOnce | poset/frame_decide.go:13-29 | no event is confirmed by two frames |
| EpochLog.AncestorsConfirmedFirst | poset/frame_decide.go:13-29 | an ancestor is confirmed no later than its descendant |
| EpochLog.InOneBlock | poset/frame_decide.go:47-79 | a confirmed event is in the block of the frame that confirmed it exactly if its creator is no cheater and the application allows it at its depth, and in no other block |
| EpochLog.BlockTimesIncrease | poset/event_ordering.go:22-59 | block times strictly increase from frame to frame, stay within the bound and follow the Atropos medians to one Lamport span |
| EpochLog.TimeRespectsCausality | poset/frame_info.go:53-65 | over all frames of an epoch, an event's time is strictly above that of each ancestor |
| EpochLog.SameAtropoiSameBlocks | poset/frame_decide.go:31-91 | the same Atropoi give the same blocks, cheaters, times and notices, whatever the order in which events were added |
| EpochLog.NodesBuildSameChain | poset/frame_decide.go:95-118 | two nodes build the same block for every frame both decided, and tell the application of the same events in the same order |
| Epochs.EpochsAgree | poset/frame_decide.go:31-118 | two nodes that start an epoch alike build the same blocks, with numbers and links, the same cheaters, times and notices, as far as both go |
| Epochs.SealsAgree | poset/frame_decide.go:120-148 | the application ends the epoch with the same frame at both, and they start the next one alike: validators, previous-epoch record, application state and block number |
| Epochs.OngoingIsShorter | poset/frame_decide.go:114-118 | a node that has not sealed an epoch has decided fewer of its frames than one that has |
| Epochs.StartsAgree | poset/frame_decide.go:120-148 | by induction, every epoch that both nodes reach starts alike, after the same blocks |
| Epochs.OneChain | poset/frame_decide.go:95-148 | the chain of the node behind is a prefix of the other's, over any number of epochs |
| Epochs.MoreEventsMoreFrames | poset/poset.go:131-160 | a node that decides all it can and knows what another knows of the last epoch it reached is not behind |
| Epochs.StandingsAgree | poset/frame_decide.go:104-112 | after as many epochs and frames the application has the same state and hash at both nodes |
| Epochs.ChainIsLinked | poset/frame_decide.go:89-91 | over all epochs the blocks are numbered one after the other and each names the Atropos before it |
| Epochs.InRangeIsRising | poset/event_ordering.go:22-59 | over all epochs, block times strictly increase if and only if no intended time left 64 bits |
| Epochs.RunFits | poset/event_ordering.go:22-59 | no time leaves 64 bits if genesis and median times stay below it by one Lamport range for each block |
| History.HistoryAdd | poset/poset.go:121-127 | adding an event keeps the tables in step with the decided frames |
| History.HistoryDecide | poset/frame_decide.go:95-118 | so does deciding a frame; the log gains one numbered and linked block |
| History.HistorySeal | poset/frame_decide.go:120-148 | so does sealing an epoch; its genesis is the time of the last block |
| History.DescentDecide | poset/frame_decide.go:104-118 | the application stands where the confirmed events and the blocks put it, and the epoch counts as sealed exactly from the frame it ended with |
| History.DescentSeal | poset/frame_decide.go:120-148 | what the node takes over at a seal is what the next epoch of its run starts from, and the sealed epochs stay a run |
| History.HistoryIsCausal | poset/frame_info.go:58-65 | if no time left 64 bits, a confirmed event's time is above those of its ancestors and of all events of earlier epochs |
| PosetNode.LookupTime | poset/event_ordering.go:12-19 | the time after the last decided frame |
| PosetNode.ConfirmFrame | poset/frame_decide.go:31-91 | confirms, tells the application of each event, builds the next block of the chain and records its times |
| PosetNode.ApplyFrame | poset/frame_decide.go:95-112 | the application hears of every confirmed event and then gets the block, once, and its state and hash move on by its answer |
| PosetNode.AddIfRight | poset/poset.go:104-127 | stores an event exactly if frame, root flag and median time are right, and else names which is wrong first |
| PosetNode.CheckAndSaveEvent | poset/poset.go:91-128 | stores exactly the acceptable events, leaves nothing of the others, and reports the first failure: previous-epoch hash, cheaters, root flag, frame, median time |
| PosetNode.Complete | poset/poset.go:70-88 | the filled-in fields make the event acceptable under every hash unless a parent is a known cheater, no higher frame would be, and nothing of the draft stays |
| PosetNode.NextEpoch | poset/frame_decide.go:120-148 | the record of the previous epoch (number, time, last Atropos, application hash), the next validators, and an empty clock, root table and election |
| PosetNode.Poset.constructor | poset/apply_genesis.go:58-95 | a node at genesis is sound |
| PosetNode.Poset.DecideFrame | poset/frame_decide.go:95-112 | one record and one block more, and the election moves on |
| PosetNode.Poset.OnFrameDecided | poset/frame_decide.go:95-118 | one record and one block more, the application moves on, and the epoch is sealed exactly if it says so |
| PosetNode.Poset.SealEpoch | poset/frame_decide.go:120-148 | an empty graph, the next validators and the previous-epoch record; the tables and the chain stay |
| PosetNode.Poset.ProcessKnownRoots | poset/poset.go:179-196 | all known roots have voted, or the frame is elected |
| PosetNode.Poset.ProcessRoot | poset/poset.go:162-175 | one root's votes, as the node sees them |
| PosetNode.Poset.HandleElection | poset/poset.go:131-160 | decides as many frames as the known roots allow; genesis and blocks stay; a seal files the epoch with its graph and leaves a fresh empty one, and without a seal the graph stays; an honest graph never makes it fail |
| PosetNode.Poset.SaveEvent | poset/poset.go:91-128 | graph, roots, election and tables still agree after an event |
| PosetNode.Poset.ProcessEvent | poset/poset.go:201-215 | rejects exactly the irrelevant, unauthorised and unacceptable events and changes nothing then; accepts the others, adds only them and never takes back a block; says for both cases, a seal or none, what becomes of the graph, of the epochs and of the node's objects |
| PosetNode.Poset.Prepare | poset/poset.go:70-88 | the finished event is acceptable under every hash unless a parent is a known cheater, its frame is the highest acceptable, and nothing of the draft stays |
| PosetNode.Poset.GetConsensusTime | poset/frame_info.go:58-65 | every confirmed event of any epoch has a time, no other has |
| NodeAgreement.NodeRuns | poset/poset.go:201-215 | whatever a node went through is a run of epochs: elected frames, determined blocks, seals where the application said so; its blocks are numbered and linked over all epochs |
| NodeAgreement.RunsAgree | poset/poset.go:201-215 | two nodes from one genesis, in whatever epochs, started every shared epoch alike, and one chain is a prefix of the other |
| NodeAgreement.NothingLeftToDecide | poset/poset.go:131-160 | between calls, what a node knows does not decide the next frame |
| NodeAgreement.FavourIsDecided | poset/poset.go:131-160 | once a node has a root two frames up behind which the voters are of one mind, the frame is decided |
| NodeAgreement.MoreEventsLongerChain | poset/poset.go:131-160 | a node that knows, of the last epoch it reached, all that another knows of it has at least the other's chain |
| NodeAgreement.SameEventsSameChain | poset/poset.go:201-215 | nodes with the same events of the last shared epoch, in whatever order they came, are in the same epoch with the same frames, chain and application state |
| NodeAgreement.VerdictIsStable | poset/poset.go:91-128 | whether an event is acceptable does not depend on what else a node knows |
| NodeAgreement.SameVerdict | poset/poset.go:91-128 | two nodes in one epoch accept the same events |
| NodeAgreement.TimesIncreaseInRange | poset/event_ordering.go:22-59 | a node's block times strictly increase over all epochs if and only if no time left 64 bits |
| NodeAgreement.ClocksKeepTimes | poset/event_ordering.go:22-59 | no time leaves 64 bits as long as genesis and all median times keep a distance of one Lamport range for each block |
| NodeAgreement.BlockTimesOfNode | poset/event_ordering.go:22-59 | under that bound block times strictly increase over all epochs |
| NodeAgreement.EventTimesOfNode | poset/frame_info.go:58-65 | under that bound a confirmed event is later than its ancestors and than every event of an earlier epoch |
| Feeds.TakesAll | poset/poset.go:91-128 | given in parents-first order, every event of a graph that obeys the rules is taken in |
| Feeds.TakesOnlyLawful | poset/poset.go:91-128 | whatever an epoch is given, all it takes in obeys the rules: previous-epoch hash, parents, frame and median time |
| Feeds.FirstEventNamesEpoch | poset/poset.go:92-97 | with hashes that tell records apart, the first event of a validator is welcome after one past only |
| Genesis.Give | gossip/consensus_callbacks.go:23-47 | a welcome event is in the graph afterwards, or in the graph of the epoch it sealed; any other changes nothing; only forks of more than a third can end the node |
| Genesis.Replay | poset/poset.go:201-215 | the feed falls into one stretch for each epoch, whose graph is exactly what was welcome of it and obeys the rules; blocks are numbered from one over all epochs |
| Genesis.DescendantsMeet | poset/apply_genesis.go:58-95 | two nodes from one genesis satisfy what the agreement theorems ask for, if forkers are few in each shared epoch |
| Genesis.TwoNodes | poset/poset.go:201-215 | two nodes from one genesis, given any two sequences of events, have one chain as far as both got; with the same events of the last shared epoch they have the same chain, frames and application state |
| Genesis.AnyOrder | poset/poset.go:201-215 | two nodes given the same lawful events of an epoch, each in its own parents-first order, both live and end with the same chain, frames and application state |
| NonceHeap.Up | evmcore/tx_list.go:30-48 | sifting up restores the heap and loses nothing |
| NonceHeap.Down | evmcore/tx_list.go:30-48 | sifting down restores the heap, or reports that nothing moved |
| NonceHeap.Push | evmcore/tx_list.go:73-79 | a heap with one element more |
| NonceHeap.Pop | evmcore/tx_list.go:88-92 | takes out the least element |
| NonceHeap.Remove | evmcore/tx_list.go:159-164 | takes out the element at a position |
| NonceHeap.Init | evmcore/tx_list.go:112-121 | makes a heap of the same elements |
| NonceMap.FlatIsUnique | evmcore/tx_list.go:203-216 | the list in nonce order is unique |
| NonceMap.SplitIsPrefix | evmcore/tx_list.go:93-96 | dropping the lowest transactions drops a prefix of the cached list |
| NonceMap.SortedMap.constructor | evmcore/tx_list.go:59-64 | an empty map |
| NonceMap.SortedMap.Put | evmcore/tx_list.go:73-79 | inserts or overwrites; heap and cache still agree with the map |
| NonceMap.SortedMap.Forward | evmcore/tx_list.go:84-98 | removes and returns, in order, exactly what is below the threshold; the shifted cache is right |
| NonceMap.SortedMap.Filter | evmcore/tx_list.go:102-123 | removes and returns, once each, exactly what the filter takes |
| NonceMap.SortedMap.Cap | evmcore/tx_list.go:127-148 | keeps the lowest nonces, returns the others highest first; the shifted cache is right |
| NonceMap.SortedMap.Remove | evmcore/tx_list.go:152-169 | removes exactly the nonce |
| NonceMap.SortedMap.Ready | evmcore/tx_list.go:178-193 | takes the longest run of consecutive nonces from the lowest, if that is not above the start |
| NonceMap.SortedMap.Flatten | evmcore/tx_list.go:203-216 | the transactions in nonce order, from the cache or sorted |
| TxLists.TxList.constructor | evmcore/tx_list.go:232-238 | an empty list |
| TxLists.TxList.Add | evmcore/tx_list.go:251-272 | replaces a transaction only if outbid by the price bump; the caps bound everything |
| TxLists.TxList.Forward | evmcore/tx_list.go:277-279 | keeps a gapless list gapless |
| TxLists.TxList.Filter | evmcore/tx_list.go:290-314 | removes and returns, once each, exactly what is too dear and, if strict, what follows; the early exit skips nothing; a gapless strict list stays gapless |
| TxLists.TxList.Remove | evmcore/tx_list.go:325-336 | removes a transaction and, if strict, what follows, which it returns once each |
| TxLists.TxList.Cap | evmcore/tx_list.go:318-320 | keeps the lowest nonces and a gapless list gapless |
| TxLists.LowestNonce | evmcore/tx_list.go:304-310 | the least nonce of a list |
| TxPool.CutAll | evmcore/tx_pool.go:1256-1275 | one transaction less for each offender, and the running total is right |
| TxPool.CutDown | evmcore/tx_pool.go:1255-1276 | cuts all offenders in step until there is room or they are at the floor |
| TxPool.Finish | evmcore/tx_pool.go:1281-1304 | down to the limit or to the guaranteed length |
| TxPool.TruncatePending | evmcore/tx_pool.go:1224-1306 | ends within the limit or with every remote list at the guaranteed length; spares local accounts, cuts to one common length that no uncut remote list exceeds, and cuts no round more than needed |
| WeightedSelect.Insert | gossip/randselect.go:90-114 | takes a free index, disturbs no other, and never overflows |
| WeightedSelect.SetNodeWeight | gossip/randselect.go:118-139 | changes the weight of one index and every sum above it |
| WeightedSelect.ChooseNode | gossip/randselect.go:142-153 | returns without panic the item whose share the number falls into |
| WeightedSelect.FindBranch | gossip/randselect.go:143-151 | the branch into whose share the number falls, and the rest of the number there |
| WeightedSelect.HitsOne | gossip/randselect.go:142-153 | a number falls into one share only |
| WeightedSelect.Proportional | gossip/randselect.go:142-153 | each item is chosen by exactly as many numbers below the sum as its weight |
| WeightedSelect.Raised | gossip/randselect.go:46-52 | a new root level changes no index |
| WeightedSelect.Selection.constructor | gossip/randselect.go:21-23 | an empty set |
| WeightedSelect.Selection.SetWeight | gossip/randselect.go:37-56 | updates, adds or removes one item; stored indexes keep naming the right leaf |
| WeightedSelect.Selection.Choose | gossip/randselect.go:62-77 | ends, although weights may change from draw to draw; returns nothing only if every item weighed nothing at some draw, and else an item that weighed something at the last one; if weights do not change meanwhile, an item is chosen exactly when one weighs something, and with stored weights up to date it is the one whose share the first random number falls into |
| WeightedSelect.Selection.Draw | gossip/randselect.go:67-75 | draws the item whose share the first number falls into, and accepts it exactly if it weighs no less than stored or the second number is below its weight |
| WeightedShuffle.Tree.constructor | utils/weighted_shuffle.go:99-103 | a tree of unset nodes |
| WeightedShuffle.Tree.Build | utils/weighted_shuffle.go:34-52 | the sum comes out modulo 2^64, and below 2^64 every node of the subtree holds the weights below it |
| WeightedShuffle.FirstModulus | utils/weighted_shuffle.go:67-71 | the first draw divides by zero exactly if the sum of the weights is a multiple of 2^64, and its modulus is the sum exactly if that is below 2^64 |
| WeightedShuffle.TwoHalvesDivideByZero | utils/weighted_shuffle.go:67-71 | two weights of 2^63 make the first draw divide by zero |
| WeightedShuffle.Tree.Retrieve | utils/weighted_shuffle.go:67-85 | draws a position that is left and takes out its weight; the modulus is never zero |
| WeightedShuffle.PickGoes | utils/weighted_shuffle.go:67-85 | a draw stays, goes left or goes right as the number says |
| WeightedShuffle.DrawIsProportional | utils/weighted_shuffle.go:67-85 | over all numbers at each node, a position that is left is drawn with the chance of its share of the remaining weight |
| WeightedShuffle.Tree.Rand64 | utils/weighted_shuffle.go:54-65 | the next word of the stream |
| WeightedShuffle.TreeWeighsAll | utils/weighted_shuffle.go:34-52 | the tree weighs what the remaining positions weigh |
| WeightedShuffle.WeightedPermutation | utils/weighted_shuffle.go:90-111 | distinct positions in range, drawn one after the other from what is left |
| WeightedShuffle.DrawnIsPrefix | utils/weighted_shuffle.go:87-111 | a shorter permutation is a prefix of a longer one |
| WeightedShuffle.EveryoneOnce | gossip/emitter.go:235-251 | over one cycle of rounds every validator holds the turn exactly once |
| GasPower.CalcGasPower | eventcheck/gaspowercheck/gas_power_check.go:110-144 | never above the maximum; unless a sum wraps, exactly what was left plus what the time refilled, up to the maximum |
| GasPower.OneEventMaySpend | eventcheck/gaspowercheck/gas_power_check.go:130-141 | below the maximum and without wraps, an event may spend all that was left and refilled but a fraction |
| GasPower.BucketHoldsPeriod | eventcheck/gaspowercheck/gas_power_check.go:84 | the maximum is what the rate refills in the whole seconds of the longest period |
| GasPower.StartupIsEnough | eventcheck/gaspowercheck/gas_power_check.go:86-89 | the startup gas is what the rate refills in the whole seconds of the startup period, or the least if that is more |
| GasPower.ShareIsFair | eventcheck/gaspowercheck/gas_power_check.go:79-82 | a validator's rate is its share of the allocation rounded down by less than one |
| GasPower.StartsWithStartup | eventcheck/gaspowercheck/gas_power_check.go:116-128 | the first event of an epoch starts with what the last epoch left and refunded, but at least the startup gas, or with startup gas and refund, and counts time from there |
| GasPower.Validate | eventcheck/gaspowercheck/gas_power_check.go:147-158 | accepts exactly the events where left and used add up; under the basic limits the sum cannot wrap |
| GasPower.ElapsedIsSpan | eventcheck/gaspowercheck/gas_power_check.go:131-141 | if the median time never goes back, the time that counts is from the first event of the run to the last |
| GasPower.TokenBucket | eventcheck/gaspowercheck/gas_power_check.go:95-158 | any run of accepted events uses at most one full bucket and the rate times the time that passed, wraps included |
| GasPower.RatesWithinAllocation | eventcheck/gaspowercheck/gas_power_check.go:63-92 | the rates of all validators together are at most the allocation |
| TopicKeys.IdRoundTrip | topicsdb/key.go:24-47 | an id tells block, transaction and log index |
| TopicKeys.TopicKeyParts | topicsdb/key.go:49-92 | a prefix of topic and position selects exactly their keys, and a key tells its id |
| TopicKeys.KeysByBlock | topicsdb/key.go:24-33 | numbers are written so that the keys of one topic at one position are listed by block |
| TopicKeys.OtherKeyParts | topicsdb/key.go:59-102 | an id selects exactly its keys, and a key tells its position |
| TopicIndex.Index.constructor | topicsdb/topicsdb.go:33-43 | an empty index |
| TopicIndex.Index.Push | topicsdb/topicsdb.go:59-94 | the tables hold exactly the pushed records; too many topics are refused |
| TopicSearch.CountHits | topicsdb/search_sync.go:16-49 | counts for every record its hits, repeated alternatives included |
| TopicSearch.Fetch | topicsdb/record.go:84-116 | rebuilds the record as it was pushed |
| TopicSearch.FetchSync | topicsdb/search_sync.go:10-71 | each record with a hit, and with hits or wildcards for all conditions, once; too many topics are refused |
| LogFilter.FilterLogs | gossip/filters/filter.go:220-253 | keeps, in order, exactly what meets range, addresses and topics |
| LogFilter.KeptIsFound | gossip/filters/filter.go:133-142 | the index misses nothing that the filter keeps, if some position is no wildcard |
| LogFilter.EmptyFindsNothing | gossip/filters/filter.go:125-129 | a query of wildcards has no hit in the index, so it must not use it |
| LogFilter.IndexedLogs | gossip/filters/filter.go:133-207 | exactly the pushed records that the filter keeps, each once, and so the records that a scan of all of them keeps, however they are listed |

## Left out

- Hashing, signatures, RLP, key-value stores, LRU policy, metrics, logging and goroutines: foreign code or plumbing; tables are maps and caches may lose entries.
- Prepare and ProcessEvent start after the event checks, which `EventChecks` has: the check of signatures is not part of consensus.
- EventChecks.TxCheck: takes the gas that the data of a transaction costs as given; it is computed in the EVM code.
- PosetNode.Poset.ProcessEvent: is not called with a known event; gossip/consensus_callbacks.go:26-28 drops those first. What a second listing of a root would do is in the contract of `RootStore.Store.AddRoot`.
- Node restart from the stored checkpoint: the tables are the state, and restoring them is reading them.
- Liveness of elections under message loss: what is proved is that a node decides everything its events decide.
- The vectors of the clock are values in maps: sharing of byte slices and the little-endian layout are not modelled.
- Blocks.Gather: the callback runs over the list of walked events after the walk, not during it, and the walk does not read what the callback writes.
- PosetNode.Poset.OnFrameDecided: the application's answer is a function of its state, so an application that fails or answers differently on a repeated call is not covered.
- The tree of weighted selection is a value that the methods replace, not nodes updated in place; a sum of weights beyond 63 bits is not modelled.
- WeightedShuffle.WeightedPermutation: asks for weights whose sum is below 2^64; `FirstModulus` shows what the first draw does otherwise.
- WeightedShuffle.Tree.Rand64: the words that the code takes from repeated SHA-256 are an arbitrary stream.
- Transaction pool besides truncation (promotion, price heap, journal, nonces of the pending state, counters): the price heap's stale counter is not exact, and the rest adds only bookkeeping.
- TxPool.TruncatePending: does not model the global lookup table and the pending nonces that the same loop updates.
- Builders of found log records are values in a map, and the asynchronous search is not modelled; the synchronous one defines its result.
- The scan of unindexed queries over block ranges and the light-client fallback: fetching is I/O, and its filter is the one modelled.
- Event serialisation, bit arrays, peer-to-peer, RPC and the EVM.
