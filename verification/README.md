# NanoDB in Dafny

A Dafny 4.11 model of three parts of NanoDB, a distributed vector database, with proofs of what they are for:

- the Raft control plane (`cluster/raft_node.hpp`, `raft_log.hpp`, `raft_state.hpp`)
- the replicated topology and the data plane (`cluster/coordinator_main.cpp`, `hash_ring.hpp`, `shard_service_impl.hpp`)
- the HNSW index and its quantizer (`include/index/hnsw.hpp`, `quantizer.hpp`)

`dafny verify dfyconfig.toml` checks the whole project.

## How it is built

Objects that the source changes in place are classes whose methods are proved to compute a function on values; the theorems are about those functions, over every run.

| files | contents |
|---|---|
| `RaftLog`, `LogFile` | the log object, compaction as a refinement of the log that is never compacted, the file format |
| `CommitRule`, `RaftNode` | the commit rule, and every block of a node that holds its mutex |
| `RaftCluster`, `RaftInvariants` | nodes, messages and a history of reigns; election safety and log matching |
| `LeaderCompleteness`, `StateMachineSafety` | the theorems that need requests handled in order |
| `CommitsInRuns` | in every run each commit decision is the one of the Raft paper |
| `KnownLeader` | whom a node takes for the leader |
| `CatchUp`, `Electable` | what a leader can always do for a follower, and a cluster for a leader |
| `ReorderingRun` | a run without that order in which they fail, and when a request is harmless |
| `Alignment`, `ClusterAlignment` | what a node has applied across snapshots and restarts, and that the cluster keeps what this asks of it |
| `CompactingNode`, `CompactingCluster` | a node with a compacted log beside the same node with its full log; state machine safety of clusters that compact and send snapshots |
| `SnapshotTransfer`, `NodeStatus` | sending and installing snapshots; the node as its coordinator sees it |
| `Topology`, `TopologyReplay`, `TopologyRuns`, `Coordinator` | the replicated topology, replay against snapshots, all coordinators together, the coordinator object |
| `Primaries` | how many primaries a shard has after any list of commands |
| `LateSnapshotRun`, `TopologyRestart` | a run that loses a shard; what a restarted coordinator shows |
| `Fencing`, `Failover`, `Migration`, `HashRing`, `Merge` | epochs, quorum writes and promotion, key moves, routing, the top-k merge |
| `HnswSearch`, `HnswGraph`, `HnswIndex`, `Quantizer` | beam search, links, the index object, scalar quantization |
| `FiniteSets` | the counting arguments that several of these share |

A cluster run (`RaftCluster.Run`) is any finite sequence of time-outs, votes, wins, proposals, sends, replies and crashes over a network that loses, repeats and reorders messages. `InOrderRun` adds that a follower handles the requests of one leader in the order they were sent; message loss stays possible. A crash keeps term, vote and log. These runs have full logs; so that they can stand for compacted ones, a leader may also send just the beginning of its log, and a node may come back with the committed commands of a beginning applied. `CompactingCluster.CompactingRun` is a cluster that compacts, sends snapshots and restarts from them: each of its runs is such a run on full logs.

## Where the code departs from the obvious rule

- AppendEntries truncates whenever it carries entries, so leader completeness and state machine safety need requests handled in order. `RequestKeepsConfirmed` says exactly which accepted request keeps what was confirmed, and `ReorderedRequestsLoseCommit` is a run of three nodes in which a committed entry is lost and two nodes apply different commands.
- A batch below a snapshot keeps a compacted log faithful exactly under `BatchFits` (`TruncateRefines`).
- The sender of AppendEntries takes the lock twice; the request it builds is the right one exactly if no compaction in between passed the next index (`RequestIsFullLogs`).
- InstallSnapshot keeps what follows the snapshot without comparing terms; it does what section 7 of the Raft paper says, and keeps log matching, exactly under that comparison (`InstallIsPapers`, `InstallKeepsMatching`, `InstallBreaksMatching`). State machine safety of clusters that compact holds for runs whose installs meet it (`CompactingSafety`).
- A request without entries does not cut a longer log, so a follower that is brought up to date may keep entries of its own behind the leader's (`FollowerCatchesUp` says exactly when).
- The reply to a snapshot moves a peer's next index only if the peer was not known at the snapshot yet. After late refusals it may be known there with a lower next index; it is then sent the snapshot again and again (`SnapshotUnblocks`).
- Empty commands are skipped on apply; a stretch of the log yields one command per index exactly if none is empty (`AppliesEachIndex`).
- Snapshot plus suffix does not always equal full replay, even if no removed shard is added again. A snapshot that is behind what the coordinator has applied retires replicas which the existence check of `add_shard` then still counts, so a shard added in between is lost: `LateSnapshotLosesShard` is a run of two coordinators in which this happens. `CatchUpIsReplay` gives the exact condition on the list, the snapshot and the reported commands, `ForwardCatchUpIsSafe` shows that snapshots which are not behind always meet it, and `TopologyIsReplay` holds for every run whose calls meet it.
- The same check ignores a removed shard that is added again (`CommandIsStep`, `ReAddDiverges`).
- A restarted coordinator counts its node's snapshot as applied and replays over its configuration file, which stores no epochs. `RestartExactly` says for each shard when this gives what snapshot plus suffix gives, `SavedConfigRestart` what that means when the configuration was saved from the snapshot's own view, and `RestartForgetsEpoch` is a restart that goes wrong. Such a coordinator stamps 0, and a replica that has seen any epoch refuses its writes (`RestartedStampsZero`).
- A set_primary that names no member leaves a shard without a primary (`PromotionExactly`).
- Two chains of virtual nodes that meet once stay together from there on (`MeetingChainsMerge`).
- A removed shard is retired even after moves have failed. `RemoveShard` says which keys outlive the removal, in terms of what the calls did, and by `FailedMoveIsLost` every key that the shard holds alone and that cannot be read is lost.
- The promotion by highest count needs N - floor(N/2) answers and nested contents; with fewer answers, or with a tie between contents that are not nested, confirmed writes can be lost (`FewerAnswersMayLose`, `TieMayLose`).
- Deleting an id inside the file that was never inserted makes the element count wrong (`DeleteVector`); inserts need a fresh id and a level below 4.
- Neighbour selection pops the farthest first, so a new node is linked to the farthest 16 of the beam (`PopFarthest`, `Insert`).
- A node whose id has no lock gets no links of its own. This happens to ids beyond the locks for which the file has room already (`LocklessExactly`, `LocklessNodeIsMute`); as the entry point such a node hides the whole index (`MuteEntryCutsSearch`), and one insert at a new top level brings that about (`LocklessInsertHidesIndex`).
- A file cut inside the snapshot keeps index and term without the data (`PrefixDecodes`), opening writes that back (`OpenFile`), and a coordinator that meets the empty text skips it (`ApplySnapshot`).
- A search merge with k = 0 returns one result if there is any (`Merge.Dedupe`).

## Model

| member | source | states |
|---|---|---|
| `RaftLogs.RaftLog.TruncateAndAppend` | cluster/raft_log.hpp:171-183 | the loop over incoming entries leaves the kept entries and those above the snapshot |
| `RaftLogs.RaftLog.Append` | cluster/raft_log.hpp:185-188 | one entry is added at the end |
| `RaftLogs.RaftLog.Compact` | cluster/raft_log.hpp:199-210 | entries up to the index go, later ones stay, the snapshot fields are replaced |
| `RaftLogs.RepresentsObservations` | cluster/raft_log.hpp:117-158 | last index, last term, and all terms and commands above the snapshot are those of the full log |
| `RaftLogs.TruncateRefines` | cluster/raft_log.hpp:171-183 | a batch, also one overlapping the snapshot, gives what it gives on the full log exactly under a condition on the batch |
| `RaftLogs.CompactRefines` | cluster/raft_log.hpp:199-210 | compacting does not change the full log that is represented |
| `RaftLogs.CompactionRefines` | cluster/raft_log.hpp:117-210 | any sequence of append, truncate-and-append and compact represents what the same sequence without compaction gives |
| `LogFile.PersistFile` | cluster/raft_log.hpp:220-252 | the writes, in order, make up the file |
| `LogFile.OpenFile` | cluster/raft_log.hpp:59-112 | the cursor and its loop read the file as specified; a missing file and one cut in the header or the snapshot are written anew, others left |
| `LogFile.ReopenIsStable` | cluster/raft_log.hpp:59-112 | opening again gives the same log and leaves the file alone |
| `LogFile.RoundTrip` | cluster/raft_log.hpp:59-112 | reopening what was persisted restores the log, for lengths below 2^32 |
| `LogFile.NodeLogSurvives` | cluster/raft_node.hpp:59-74 | so a node that reopens its file has its log again |
| `LogFile.KeptIs` | cluster/raft_log.hpp:220-252 | of each string as many bytes are written as its length has modulo 2^32 |
| `LogFile.HeaderBytes` | cluster/raft_log.hpp:220-252 | which byte of magic, index, term, length and data lies where |
| `LogFile.RecordBytes` | cluster/raft_log.hpp:220-252 | the same for a record |
| `LogFile.PrefixDecodes` | cluster/raft_log.hpp:78-109 | what every byte prefix decodes to: same snapshot and the whole entries, or less if the cut is earlier |
| `LogFile.BareRecordsOpen` | cluster/raft_log.hpp:97-111 | a file without header opens as its entries exactly if it does not begin with the magic |
| `CommitRule.CandidateIsHighestMajorityIndex` | cluster/raft_node.hpp:44-49 | the element picked after sorting is the highest index that a majority has reached |
| `CommitRule.CommitShortcutIsThePaperRule` | cluster/raft_node.hpp:38-55 | testing that one index gives the largest index the paper's rule allows, or the old one if there is none |
| `RaftNodes.PersistentState.Set` | cluster/raft_state.hpp:39-43 | term and vote are stored together |
| `RaftNodes.RaftNode.constructor` | cluster/raft_node.hpp:59-74 | a (re)started node keeps term, vote and log and begins at its snapshot |
| `RaftNodes.RaftNode.StepDown` | cluster/raft_node.hpp:279-282 | new term, no vote, follower |
| `RaftNodes.RaftNode.ApplyCommittedEntries` | cluster/raft_node.hpp:284-292 | the loop adds the non-empty commands up to the commit index |
| `RaftNodes.RaftNode.AdvanceCommitIndex` | cluster/raft_node.hpp:294-302 | commit index and applied list after the commit rule |
| `RaftNodes.RaftNode.ProposeCommand` | cluster/raft_node.hpp:87-94 | a leader appends and may commit at once; others refuse |
| `RaftNodes.RaftNode.HandleRequestVote` | cluster/raft_node.hpp:109-126 | who is granted a vote, and the state after |
| `RaftNodes.RaftNode.HandleAppendEntries` | cluster/raft_node.hpp:128-165 | the consistency check, the truncation, the commit index and the reply |
| `RaftNodes.RaftNode.HandleInstallSnapshot` | cluster/raft_node.hpp:168-202 | trimming of the applied list, volatile state and log |
| `RaftNodes.RaftNode.CompactLog` | cluster/raft_node.hpp:208-221 | when compaction is refused, and its effect |
| `RaftNodes.RaftNode.BeginElection` | cluster/raft_node.hpp:335-345 | the vote for itself and the request |
| `RaftNodes.RaftNode.EndElection` | cluster/raft_node.hpp:374-387 | when a candidate becomes leader, and what it tracks |
| `RaftNodes.RaftNode.ChooseMessage` | cluster/raft_node.hpp:420-433 | a node that leads the term sends a snapshot exactly if the peer's next index is not above it, with index, term and data of its own; one that does not lead it sends nothing |
| `RaftNodes.RaftNode.PrepareAppend` | cluster/raft_node.hpp:438-454 | the request built in the second locked block, if the node still leads the term |
| `RaftNodes.RaftNode.FinishAppend` | cluster/raft_node.hpp:463-474 | what a reply does to the tracked indices and the commit index; a refusal lowers that peer's next index by one, and nothing else |
| `RaftNodes.RaftNode.FinishSnapshot` | cluster/raft_node.hpp:495-503 | what a snapshot reply does to the tracked indices |
| `RaftInvariants.ElectionSafety` | cluster/raft_node.hpp:333-388 | over a whole run with crashes a term has at most one leader, and a leader never shortens its log in its term |
| `RaftInvariants.LogMatching` | cluster/raft_node.hpp:138-157 | between any two nodes at any two times, the same term at an index means the same entries up to it, whatever the network does |
| `RaftInvariants.BuiltIsCovered` | cluster/raft_node.hpp:439-454 | every request carries the leader's log from its previous index to the end |
| `LeaderCompleteness.UpToDateContains` | cluster/raft_node.hpp:116-117 | a log at least as up to date holds what the other holds of a leader's entries, unless a reign in between began without them |
| `LeaderCompleteness.LaterLeadersHold` | cluster/raft_node.hpp:109-126 | what a majority confirmed to a leader is in the log of every later leader from its election on |
| `StateMachineSafety.AdvanceMeansQuorum` | cluster/raft_node.hpp:294-302 | a raised commit index stands for a majority that matches it and an entry of the leader's own term |
| `StateMachineSafety.LeaderCompletenessHolds` | cluster/raft_node.hpp:333-388 | what a leader has committed by any time is in the log of every leader of a later term at any time |
| `StateMachineSafety.StateMachineSafetyHolds` | cluster/raft_node.hpp:128-165 | of any two nodes at any two times the logs agree up to the lower commit index, and one applied list begins the other |
| `CommitsInRuns.CommitsByPapersRule` | cluster/raft_node.hpp:294-302 | in every run, whenever a leader decides what is committed, the result is the largest index of its term that a majority has reached, or the old one if there is none |
| `KnownLeader.NamesOnlyLeaders` | cluster/raft_node.hpp:128-165 | at every time of every run a node names as leader only somebody who has won an election in a term no later than its own; a leader names itself, a candidate nobody |
| `CatchUp.RefusalStepsBack` | cluster/raft_node.hpp:463-474 | a refusal in the leader's term lowers the next index of that peer by one if it is above 1, and changes nothing else |
| `CatchUp.EndsAtLastAgreement` | cluster/raft_node.hpp:413-474 | repeating request, answer and reply from any next index ends where the two logs last agree before it |
| `CatchUp.FollowerCatchesUp` | cluster/raft_node.hpp:413-474 | after at most as many exchanges as the next index a request is accepted; the follower's log then begins with the leader's, exactly when it equals it, and the follower knows what the leader has committed |
| `CatchUp.EveryoneCatchesUp` | cluster/raft_node.hpp:413-474 | this holds between the leaders and the nodes of no higher term of every run |
| `CatchUp.HigherTermEndsReign` | cluster/raft_node.hpp:463-503 | with a follower of a higher term nothing is accepted and the leader steps down to that term |
| `CatchUp.WinnerBegins` | cluster/raft_node.hpp:374-387 | a new leader begins for every peer behind the end of its log, with no match |
| `CatchUp.SnapshotUnblocks` | cluster/raft_node.hpp:495-503 | after a snapshot the leader goes on with requests exactly if it did not know the peer at the snapshot before |
| `CatchUp.SnapshotThenRequest` | cluster/raft_node.hpp:168-202 | snapshot and request in turn leave a follower behind the snapshot with the leader's log, exactly when |
| `Electable.GrantedExactly` | cluster/raft_node.hpp:109-126 | a request of a new term is granted exactly if its log is not behind |
| `Electable.AnswersCarryTheTerm` | cluster/raft_node.hpp:109-165 | every answer carries the answering node's term, and a request of an older term is denied and changes nothing |
| `Electable.VoteIsIdempotent` | cluster/raft_node.hpp:109-126 | a vote request that comes again gets the same answer and changes nothing |
| `Electable.SomeoneCanWin` | cluster/raft_node.hpp:109-126 | in every cluster there is a node to which everyone grants the vote once its term has reached the others' |
| `Electable.WinnerServesAll` | cluster/raft_node.hpp:374-387 | at any time of any run a node with all votes leads, and each voter can then be given its log |
| `ReorderingRun.RequestKeepsConfirmed` | cluster/raft_node.hpp:155-157 | an accepted request keeps the first k entries exactly if it carries none or covers all k |
| `ReorderingRun.ReorderedRequestsLoseCommit` | cluster/raft_node.hpp:155-157 | a run in which a later leader lacks a committed entry and two nodes have applied different commands |
| `Alignment.AppliesEachIndex` | cluster/raft_node.hpp:284-292 | applying adds one command per index, each the right one, exactly if none is empty |
| `Alignment.AppendAligns` | cluster/raft_node.hpp:128-165 | a request that is right about what is committed, if it is accepted at all, keeps the applied list aligned |
| `Alignment.SnapshotAligns` | cluster/raft_node.hpp:168-202 | so does any snapshot, behind or ahead of what was applied |
| `Alignment.CompactAligns` | cluster/raft_node.hpp:208-221 | so does compaction, which succeeds exactly between the snapshot and the commit index |
| `Alignment.HandleStaysValid` | cluster/raft_node.hpp:374-387 | a leader tracks exactly its peers, whatever it handles |
| `Alignment.RunStaysAligned` | cluster/raft_node.hpp:59-74 | in every reachable state last applied is the commit index and the applied list is the committed commands above the snapshot up to it |
| `ClusterAlignment.CommittedListExists` | cluster/raft_node.hpp:294-302 | the longest list that any leader has committed |
| `ClusterAlignment.RunStepIsNodeStep` | cluster/raft_node.hpp:128-165 | every step of an in-order run that is an event of its node meets what the runs of one node assume, with that list |
| `ClusterAlignment.NodesStayAligned` | cluster/raft_node.hpp:284-302 | at every time of such a run each node has applied exactly the commands of that list up to its commit index |
| `CompactingNode.AppendSim` | cluster/raft_node.hpp:128-165 | a request that agrees with the snapshot does to a compacted node what it does to the same node with its full log, and both answer alike |
| `CompactingNode.SnapshotSim` | cluster/raft_node.hpp:168-202 | an install that does what the paper says is, on the full log, an AppendEntries request that cuts nothing off, with the same answer |
| `CompactingNode.CompactSim` | cluster/raft_node.hpp:208-221 | compaction changes nothing about the node with the full log |
| `CompactingCluster.ActSim` | cluster/raft_node.hpp:87-503 | whatever a node of a compacting cluster does is a step of the cluster with full logs that keeps its invariants |
| `CompactingCluster.Shadow` | cluster/raft_node.hpp:87-503 | so every run with compaction, snapshots and restarts goes on beside one with full logs |
| `CompactingCluster.CompactingSafety` | cluster/raft_node.hpp:128-221 | two nodes that have committed an index, at any two times of such a run, and still hold it, hold the same entry and have applied its command |
| `CompactingCluster.SnapshotsAreGiven` | cluster/raft_log.hpp:199-210 | the data of every snapshot that a node holds or is sent was given to some node for that index when it compacted |
| `CompactingCluster.NodesStayValid` | cluster/raft_node.hpp:374-387 | in such a run a leader always tracks exactly its peers |
| `SnapshotTransfer.RequestIsFullLogs` | cluster/raft_node.hpp:420-454 | a request built from a compacted log is the full log's exactly if the next index is above the snapshot |
| `SnapshotTransfer.ChoiceIsRight` | cluster/raft_node.hpp:420-433 | the first locked block sends a snapshot exactly if the next entry is compacted, one that ends with the full log's entry at its index, and otherwise leads to the full log's request |
| `SnapshotTransfer.CompactedCommandsAreSentEmpty` | cluster/raft_node.hpp:447-452 | otherwise the entries inside the snapshot go out with its term and no command |
| `SnapshotTransfer.InstallRefines` | cluster/raft_log.hpp:199-210 | the log after InstallSnapshot stands for the leader's prefix followed by the follower's suffix |
| `SnapshotTransfer.InstallIsPapers` | cluster/raft_node.hpp:168-202 | it is what section 7 of the Raft paper asks for exactly if nothing follows or the terms agree |
| `SnapshotTransfer.InstallKeepsMatching` | cluster/raft_log.hpp:199-210 | log matching with the old log survives exactly under the same condition |
| `SnapshotTransfer.InstallBreaksMatching` | cluster/raft_log.hpp:199-210 | for every index a follower and a leader whose logs match, after whose install the follower no longer matches its old log |
| `NodeStatus.CompactCommutes` | cluster/raft_node.hpp:208-221 | the status after compacting the node is the compacted status of the coordinators' runs |
| `NodeStatus.InstallCommutes` | cluster/raft_node.hpp:168-202 | the same for installing a snapshot |
| `NodeStatus.LearnCommutes` | cluster/raft_node.hpp:284-292 | the same for applying up to a higher commit index |
| `Coordinators.Coordinator.Serialize` | cluster/coordinator_main.cpp:194-209 | the snapshot holds the active replicas in order |
| `TopologyReplay.ActiveExactly` | cluster/coordinator_main.cpp:194-209 | which holds each active replica as often as the list, and no other |
| `Coordinators.Coordinator.ApplySnapshot` | cluster/coordinator_main.cpp:211-235 | old replicas are retired, the snapshot's added, the ring rebuilt; an empty or unreadable text changes nothing |
| `Coordinators.Coordinator.ApplyCommand` | cluster/coordinator_main.cpp:261-316 | each command does to the list what the specification says and keeps the ring built on the active shards |
| `Coordinators.CommandDoes` | cluster/coordinator_main.cpp:261-316 | each command replica by replica: one per member with its id, address, mark and the command's epoch; all of a shard switched off; the named one primary and no other |
| `Primaries.AtMostOnePrimary` | cluster/coordinator_main.cpp:261-316 | after any list of commands a shard that is added with distinct replicas and at most one mark has at most one primary |
| `Primaries.ExactlyOnePrimary` | cluster/coordinator_main.cpp:261-316 | and exactly one, as long as it is there, if each add_shard marks one and each set_primary names a member |
| `Primaries.PromotionExactly` | cluster/coordinator_main.cpp:303-311 | a set_primary leaves one primary exactly if it names a member, else none |
| `Primaries.CoordinatorsShowOnePrimary` | cluster/coordinator_main.cpp:245-333 | so no coordinator shows two primaries of a shard at any time of a run |
| `Coordinators.Coordinator.ApplyPending` | cluster/coordinator_main.cpp:245-333 | one call: snapshot catch-up, commands with their log index as epoch, compaction trigger |
| `TopologyReplay.CommandIsStep` | cluster/coordinator_main.cpp:274 | a command does what the reference does exactly if it does not add a shard known only from retired replicas |
| `TopologyReplay.CatchUpShowsAllButMissed` | cluster/coordinator_main.cpp:245-318 | after any call the coordinator shows full replay without the missed shards |
| `TopologyReplay.CatchUpIsReplay` | cluster/coordinator_main.cpp:245-318 | snapshot plus suffix is full replay exactly if no reported add_shard of a missed shard stands to the end |
| `TopologyReplay.ForwardCatchUpIsSafe` | cluster/coordinator_main.cpp:251-255 | a snapshot that is not behind what was applied always meets that condition |
| `LateSnapshotRun.LateSnapshotLosesShard` | cluster/coordinator_main.cpp:245-333 | a run in which a coordinator that has applied everything lacks a shard although none was removed |
| `TopologyReplay.ReAddDiverges` | cluster/coordinator_main.cpp:274 | two coordinators disagree about a shard that is removed and added again |
| `TopologyRestart.RestartExactly` | cluster/coordinator_main.cpp:594-600 | a restarted coordinator shows a shard as snapshot plus suffix has it exactly if the suffix removes it for good, or configuration and snapshot agree on it, or a set_primary overrides their difference |
| `TopologyRestart.SavedConfigRestart` | cluster/coordinator_main.cpp:182-192 | with the configuration saved from the snapshot's view a shard that stays comes out right exactly if it had no epoch or a set_primary follows |
| `TopologyRestart.RestartForgetsEpoch` | cluster/coordinator_main.cpp:637 | a restart after which the epoch is 0 |
| `TopologyReplay.EpochIsCommandIndex` | cluster/coordinator_main.cpp:262-263 | in the reference each epoch is the log index of the last command that set it |
| `TopologyRuns.TopologyIsReplay` | cluster/coordinator_main.cpp:245-333 | for every interleaving of committing, applying, compacting and receiving snapshots by all coordinators, active replicas, primaries, epochs and ring are those of full replay, and epochs are log indices |
| `TopologyRuns.SnapshotIsReplay` | cluster/coordinator_main.cpp:194-209 | every snapshot in circulation is the replay of the commands it stands for |
| `Fencing.EpochGate.CheckAndAdvance` | cluster/shard_service_impl.hpp:152-161 | accepted exactly if not below the mark, which then moves to it |
| `Fencing.RunGate` | cluster/shard_service_impl.hpp:152-161 | the same over any sequence of requests |
| `Fencing.AcceptedIffNotStale` | cluster/shard_service_impl.hpp:152-161 | a request is accepted exactly if no earlier one had a higher epoch |
| `Fencing.StampIsApplied` | cluster/coordinator_main.cpp:359-368 | in any run the epoch a coordinator stamps on a write is at most the number of commands it has applied |
| `Fencing.StaleCoordinatorIsRefused` | cluster/shard_service_impl.hpp:152-161 | in any run, once a write stamped by the command at index e was seen, every later write of a coordinator that has not applied it is refused |
| `Fencing.RestartedStampsZero` | cluster/shard_service_impl.hpp:152-161 | a write of a restarted coordinator is accepted exactly if the replica has seen no epoch, until a set_primary |
| `Fencing.PromotionStamps` | cluster/coordinator_main.cpp:303-311 | a coordinator that has applied a set_primary stamps its index until the next one or the removal of the shard |
| `Failover.QuorumWrite` | cluster/coordinator_main.cpp:353-385 | a write succeeds exactly if more than half of the replicas acknowledge, among them the one that is marked primary last |
| `Failover.ConfirmedJoinsHistory` | cluster/coordinator_main.cpp:353-385 | a write that succeeds is one that the histories below call confirmed |
| `Failover.CountIsSize` | cluster/coordinator_main.cpp:526-533 | with ids written once the element count is the number of ids held |
| `Failover.ChooseCandidate` | cluster/coordinator_main.cpp:520-534 | the first of the answering non-primary replicas with the highest count, or none |
| `Failover.FailoverKeepsConfirmed` | cluster/coordinator_main.cpp:520-534 | with N - floor(N/2) answers and nested contents it holds every write ever confirmed |
| `Failover.FewerAnswersMayLose` | cluster/coordinator_main.cpp:520-534 | with fewer answers, whoever they come from, a confirmed write may be on none of them |
| `Failover.TieMayLose` | cluster/coordinator_main.cpp:520-534 | without nesting two replicas tie and each lacks a confirmed write |
| `HashRings.ChainedVnodePoint` | cluster/hash_ring.hpp:23-29 | the loop iterates the hash once more than the index |
| `HashRings.VnodesAreChained` | cluster/hash_ring.hpp:23-29 | the first point is the hash of the shard's hash, and each other one the hash of the one before |
| `HashRings.MeetingChainsMerge` | cluster/hash_ring.hpp:23-29 | chains that meet once stay together |
| `HashRings.HashRing.Build` | cluster/hash_ring.hpp:36-45 | the sorted list holds exactly the virtual nodes of the ids, in whatever order they come |
| `HashRings.HashRing.Route` | cluster/hash_ring.hpp:49-58 | the binary search with wraparound finds the owner: the least pair at or after the hash, else the least of all |
| `HashRings.OwnerIsUnique` | cluster/hash_ring.hpp:49-58 | there is one such pair, also when points collide |
| `HashRings.MinimalDisruption` | cluster/hash_ring.hpp:36-58 | adding a shard moves a key only to that shard |
| `HashRings.RemovalMovesOnlyItsKeys` | cluster/hash_ring.hpp:36-58 | removing a shard moves only keys it owned |
| `Migration.DataPlane.MigrateOneKey` | cluster/coordinator_main.cpp:424-441 | insert before delete: no prefix of the writes loses a key, whatever the RPCs do, and exactly where the key is afterwards |
| `Migration.DataPlane.MigrateToNew` | cluster/coordinator_main.cpp:952-974 | live keys are the same at every step; which keys the new shard has gained and each source has lost, exactly, and how many moves are counted as done and failed, in terms of what the calls did; so if all sources are reached and all calls succeed nothing fails and each key is on the shard the new ring assigns |
| `Migration.DataPlane.MigrateFromLeaving` | cluster/coordinator_main.cpp:1043-1061 | the same for removal, before the shard is retired: what each shard holds and both counters, exactly |
| `Migration.SpreadIsPlaced` | cluster/hash_ring.hpp:36-58 | by minimal disruption the keys that were not moved are already in place |
| `Migration.DataPlane.RemoveShard` | cluster/coordinator_main.cpp:1043-1070 | after the whole removal a key is live exactly if another shard held it or its move arrived: the shard was listed, the new owner has replicas, the key was read and stored |
| `Migration.CleanRetirement` | cluster/coordinator_main.cpp:1063-1069 | after a migration without failures retiring loses nothing |
| `Migration.FailedMoveIsLost` | cluster/coordinator_main.cpp:1053-1069 | whenever the read of the only copy of a key fails, the completed removal loses it |
| `Merge.SortByDistance` | cluster/coordinator_main.cpp:769-771 | a sorted permutation, ties in any order |
| `Merge.Dedupe` | cluster/coordinator_main.cpp:777-786 | the first hit of each id, cut at k |
| `Merge.MergeIsExact` | cluster/coordinator_main.cpp:760-786 | if each shard reports its exact k best, the result is the k best distinct ids over all shards |
| `Merge.MergeResults` | cluster/coordinator_main.cpp:760-786 | the whole handler computes that, for k of at least 1 |
| `HnswSearch.Round` | include/index/hnsw.hpp:324-347 | one round keeps the search invariant and either visits a new node or uses up a candidate |
| `HnswSearch.SearchLayer` | include/index/hnsw.hpp:308-349 | the search ends with the ef nearest live nodes of those visited, having expanded every visited node nearer than its farthest result |
| `HnswSearch.FoundInReach` | include/index/hnsw.hpp:308-349 | it finds min(ef, live nodes in reach) nodes, and exactly those in reach if there are at most ef |
| `HnswSearch.NothingNearerMissed` | include/index/hnsw.hpp:324-333 | however many are in reach, none is missed that can be reached through nodes nearer than a result |
| `HnswSearch.ReachableExists` | include/index/hnsw.hpp:308-349 | the set of reachable nodes exists |
| `HnswGraph.FullListReplacesFarthest` | include/index/hnsw.hpp:362-377 | a full list gives up its first farthest entry exactly if the newcomer is nearer and that entry is farther than -1 |
| `HnswGraph.LinkByMetric` | include/index/hnsw.hpp:351-381 | the same with the metric and the limits of 32 links in layer 0 and 16 above written out |
| `HnswGraph.LinkKeepsOk` | include/index/hnsw.hpp:351-381 | add_link keeps the graph invariant |
| `HnswGraph.ConnectLists` | include/index/hnsw.hpp:146-149 | connecting a node changes only the layer's lists, and which of them how |
| `HnswIndex.DescendLayer` | include/index/hnsw.hpp:121-132 | the greedy descent ends, at a node none of whose neighbours in the layer is closer |
| `HnswIndex.PopFarthest` | include/index/hnsw.hpp:140-144 | the farthest up to the limit, farthest first |
| `HnswIndex.Index.AddLink` | include/index/hnsw.hpp:351-381 | the scan and the replacement compute the specified list |
| `HnswIndex.Index.Insert` | include/index/hnsw.hpp:79-167 | keeps the invariant; in each layer the search that found the neighbours, which of them were chosen, the lists after linking, entry point, top layer, count and file size |
| `HnswIndex.SearchesByMetric` | include/index/hnsw.hpp:121-152 | in each layer the beam holds the 200 visited live nodes nearest to the vector by the metric, and its 16 farthest are chosen |
| `HnswIndex.NewNodeIsLinked` | include/index/hnsw.hpp:134-152 | in each layer the new node lists min(16, live nodes in reach) of them, and each that has a lock has taken it in |
| `HnswIndex.LocklessNodeIsMute` | include/index/hnsw.hpp:351-353 | a node without a lock has no links of its own |
| `HnswIndex.LocklessExactly` | include/index/hnsw.hpp:84-97 | which ids are left without a lock |
| `HnswIndex.GrowthLocksAhead` | include/index/hnsw.hpp:84-97 | when the file grows for an id beyond the locks, that id and the 9999 after it get one |
| `HnswIndex.MuteEntryCutsSearch` | include/index/hnsw.hpp:173-212 | with such a node as entry point no search returns another |
| `HnswIndex.LocklessInsertHidesIndex` | include/index/hnsw.hpp:79-212 | after one insert of such an id above the top layer no search returns anything else |
| `HnswIndex.Index.DeleteVector` | include/index/hnsw.hpp:226-236 | marks the slot; the count stays the number of live nodes exactly if the id was inserted, is marked already or lies outside the file |
| `HnswIndex.Index.Search` | include/index/hnsw.hpp:173-212 | min(k, live nodes in reach) of the nearest visited with their distances, in ascending order of the metric to the query, the true k nearest if at most max(100, k) live nodes are in reach, and none missed that is reached through nodes nearer than a result |
| `HnswIndex.RunOps` | include/index/hnsw.hpp:79-236 | after any sequence of fresh inserts and of deletes of inserted ids or of ids outside the file, each insert fitting the file as it is when its turn comes and grows once, the graph invariant and the count hold |
| `Quantizer.ScalarQuantizer.Train` | include/index/quantizer.hpp:36-49 | the nested loops find the least and greatest component in each dimension |
| `Quantizer.ScalarQuantizer.Quantize` | include/index/quantizer.hpp:54-62 | each component's code, or the error if untrained |
| `Quantizer.ScalarQuantizer.Dequantize` | include/index/quantizer.hpp:73-80 | each recovered component, or the error if untrained |
| `Quantizer.ScalarQuantizer.TrainingVectorRecovered` | include/index/quantizer.hpp:36-80 | every component of every training vector is recovered within a 254th of its range, or within the range if that is at most 1e-9 |
| `Quantizer.CodeIs` | include/index/quantizer.hpp:54-62 | which code each value gets: the ends of the scale outside the range, inside it the place on the scale cut toward zero |
| `Quantizer.FlatCode` | include/index/quantizer.hpp:57-58 | with a range of at most 1e-9 every value gets the lowest code |
| `Quantizer.CodesKeepOrder` | include/index/quantizer.hpp:54-62 | codes keep the order of the values |
| `Quantizer.CodeSurvives` | include/index/quantizer.hpp:54-80 | of all signed bytes exactly those from -127 on come back from dequantizing and quantizing |
| `Quantizer.DistanceFits` | include/index/quantizer.hpp:85-92 | no sum or partial sum of the integer distance overflows 32 bits exactly up to 33286 dimensions |
| `Quantizer.DistanceIsScaled` | include/index/quantizer.hpp:85-92 | with equal ranges the integer distance is the squared distance of the recovered vectors in units of a squared step |
| `Quantizer.QuantizeDistance` | include/index/quantizer.hpp:85-92 | the loop sums the squared differences |

## Left out

- gRPC, HTTP, JSON, timers and threads: a command is a value, messages are a set, time-outs and the outcome of each RPC are free choices.
- The wait loop of `propose` and the heartbeat timing: they matter for liveness only.
- CompactingCluster.CompactingSafety: is for runs in which no compaction between the two locked blocks of a send passes the next index of the request, whose requests of one leader are handled in order, whose installs meet the paper's comparison and whose commands are not empty; the members named above say what goes wrong otherwise.
- Unsigned wrap-around of terms, indices and counts: they are unbounded, except in the file format.
- Torn writes other than a prefix of the last write, and the file of `PersistentState`, whose write is taken as one step.
- Restarts within `TopologyRuns`: every coordinator of a run starts from the common configuration at log index 0; what one restart does is in `TopologyRestart`.
- Retrying, and the counters of failed pings before a promotion: which replicas answer is a free choice.
- `HashRings`: the hash functions are parameters; load balance is not stated.
- `Migration`: one rebalance at a time, on the view of the primaries; writes by clients during it are refused by the source and not modelled.
- Mapping of external to local ids, metadata, metrics, the text of the configuration file.
- Floating-point rounding and the distance kernels: distances are an arbitrary function to the reals.
- Locks and concurrent inserts of the index, and remapping of the file: the index is used by one thread.
- HnswIndex.Index.Insert: requires the node to fit the file after it grows once, since the source writes past the end otherwise.
- HnswIndex.Index.Search: the second check for deleted results is left out, since the search returns none.
