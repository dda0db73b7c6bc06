# myetcd, modelled and proved in Dafny

A small distributed key-value store: Raft nodes replicate a log of commands, a storage engine keeps
a map of keys that must survive restarts through a segmented write-ahead log, and leases, watches
and range queries sit on top. This project models the three parts of it that are hardest to get
right and proves what they are for.

**Raft** (`Raft*.dfy`, `StateMachine.dfy`). `RaftNode.Node` is the node with its fields, loops and
handlers; every handler is proved to do what a function of `RaftSteps` says, both to the node and to
the messages it sends. `RaftCluster` puts any number of such nodes on a network that only grows, so
that messages may be lost, reordered and delivered any number of times, at any time; candidates may
retry within a term, and a node that stops is one that is never scheduled again. An inductive
invariant (`RaftCluster.Inv`) is proved step by step, and the five guarantees of Figure 3 of the
extended Raft paper (Ongaro and Ousterhout, sections 5.2 to 5.4) follow for every run.

Three places in `internal/raft/raft.go` depart from the protocol. `RaftTypes.Rules` names each one;
a flag that is false is the code, a flag that is true the protocol, and `AS_WRITTEN`, all three false,
is the code itself. Nothing is assumed repaired where the code is safe as it is: the guarantees are
proved for every run under every combination of departures that the size of the cluster makes harmless
(`RaftCluster.Sound`), and `RaftNecessity.CommitsAlikeExactlyWhen` shows that these are all: for any
rules and any cluster, no run commits different entries at one index if and only if the rules are
sound. In a larger cluster each departure alone is enough, whatever the other two flags are:

- lines 406-419 append all entries of a message, even those already stored. That is harmless in a
  cluster of one node; in any other a redelivered message makes two nodes commit different entries
  (`AppendingAllDiverges`);
- lines 891-896 commit entries of any term. That is harmless in clusters of at most two nodes, where
  only an entry on all nodes is counted a majority; in any other Figure 8 of the paper happens
  (`CommittingAnyTermDiverges`);
- line 861 counts votes with an integer that a retransmitted vote raises again. That is harmless in
  clusters of at most three nodes; in any other two nodes lead one term (`ElectionsSafeExactlyWhen`)
  and commit different entries (`CountingTwiceDiverges`).

So the code itself elects one leader a term exactly in clusters of at most three nodes, and commits
alike exactly if it is alone. In larger clusters its single steps still are the protocol's exactly when
they meet a guard that can be read off the node and the message (`RaftCodeRuns.ActExactlyWhen`), and a
run of the code whose steps all meet it is a run of the protocol, with all its guarantees
(`GuardedRunIsSound`).

Whether anything happens at all is proved too. A candidate that times out asks again without raising its
term (lines 246-249), so a cluster whose nodes are all candidates of one term never has a leader again
(`RaftSplitVotes.SplitIsForever`), and every cluster can come to that at its start
(`EveryClusterCanSplit`). That is the only way to get stuck: from any other state of a sound run of two or
more nodes the code's own steps can elect a leader, bring every log into step with its log and have every
node apply a new command (`RaftProgress.ServesExactlyWhen`).

A fourth departure, two goroutines that take entries off `applyCh` (lines 224-230 and 586-599), is modelled
with one consumer; with two, the state machine sees every entry exactly when the main loop takes none
(`SeenExactlyWhen`). Two oddities are harmless and kept as they are: a candidate does not step down
on an equal-term AppendEntries, and a response that carries a newer term does not clear `votedFor`.

**Durability** (`Crc*.dfy`, `ShiftRegister.dfy`, `Wal*.dfy`, `SegmentNames.dfy`, `Engine*.dfy`,
`Recovery.dfy`). The log is modelled down to its bytes: length prefixes, frames, checksums, segment
files with printed names, a directory that lists files by name, and the choice of the segment a
record goes to. The engine is modelled as a map and the commands it logs. The results meet in
`Recovery.DiskRecoversExactlyWhen`: what a restart rebuilds from the files agrees with memory, key by
key, exactly where the account of unlogged changes is settled and memory holds the last value logged.
What the engine tells its watchers is modelled too: a client that follows every event holds the map
itself, up to the keys that left memory unannounced (`EngineEvents.MirrorsExactlyWhen`).

Found on the way: a term that falls right after a restart reorders the log (`TermFallAfterRestart`);
index numbers repeat after a restart unless the last segment is empty
(`RestartKeepsIndexExactlyWhen`); a restart takes up a full segment again and may lose count of its size
(`RestartLosesCountExactlyWhen`); a torn final write makes the whole log unreadable
(`CrashDuringWrite`); a seventeenth digit in an index breaks the order of names
(`SeventeenDigitsMisplaced`); a time to live does not survive a restart
(`RecoveredKeysNeverExpire`); a committed transaction leaves no record,
so that a key it deleted is back after a restart (`CommitRecoversExactlyWhen`,
`DeletedKeyComesBack`).

**Indexes** (`Lease*.dfy`, `Watch*.dfy`, `Watcher.dfy`, `EngineRange.dfy`). The two-way lease index,
the watch buckets and the sorted range query are each proved against the plain thing they speed up.
Two of them need a small repair, named by a flag that selects the code (false) or the repair (true):
`once` keeps `Attach` from listing a key twice on the lease it is already on, and `all` lets the empty
prefix match.

## Conventions

Numbers are unbounded unless a result says otherwise. Strings are compared character by character,
as Go compares bytes. Time is a parameter that is fixed within one call. Walking a map or a set takes
its elements in an arbitrary order, given as a parameter or chosen in a loop. Locks make every call
atomic. The JSON library is a pair of functions (`WalFrames.Codec`) that undo each other; the
checksum library computes the same CRC as the engine (`WalChecksum.Ieee`).

## Model

| member | source | states |
|---|---|---|
| RaftNode.Node.constructor | internal/raft/raft.go:95-136 | a node starts as a follower in term 0 with the placeholder at index 0 |
| RaftNode.Node.Tick | internal/raft/raft.go:236-255 | a timeout campaigns, retries in the same term, or sends heartbeats, by role |
| RaftNode.Node.BecomeCandidate | internal/raft/raft.go:258-268 | new term, own vote, and a vote request to every other node |
| RaftNode.Node.StartElection | internal/raft/raft.go:271-307 | votes are counted from one and every other node is asked with the last log entry's index and term |
| RaftNode.Node.HandleRequestVote | internal/raft/raft.go:460-494 | stale terms are refused, newer ones adopted, and a vote is granted once per term to an up-to-date candidate |
| RaftNode.Node.HandleRequestVoteResponse | internal/raft/raft.go:839-870 | votes of the current term are counted until a majority makes the node leader; a newer term only steps it down |
| RaftNode.Node.BecomeLeader | internal/raft/raft.go:310-328 | progress of every other node is reset to the log's end and heartbeats go out |
| RaftNode.Node.SendHeartbeats | internal/raft/raft.go:331-371 | every other node is sent the entries from its nextIndex on |
| RaftNode.Node.SendAppendEntries | internal/raft/raft.go:803-834 | the message for one node carries the entry before nextIndex, the rest of the log and commitIndex |
| RaftNode.Node.HandleAppendEntries | internal/raft/raft.go:374-431 | stale or mismatching messages are rejected with commitIndex, others merged and acknowledged up to their end |
| RaftNode.Node.AcceptEntries | internal/raft/raft.go:403-430 | the log is merged, commitIndex follows the leader up to the log's end, and committed entries are handed over |
| RaftNode.Node.MergeAll | internal/raft/raft.go:403-420 | as written: cut at the first conflict, then append every entry |
| RaftNode.Node.MergeNew | internal/raft/raft.go:403-420 | as repaired: append from the first missing or conflicting position only |
| RaftNode.Node.NotifyReady | internal/raft/raft.go:622-646 | the entries between lastApplied and commitIndex are queued in order and lastApplied moves past them |
| RaftNode.Node.HandleAppendEntriesResponse | internal/raft/raft.go:752-836 | success moves a follower's progress and checks for commits, failure backs nextIndex off by one and resends |
| RaftNode.Node.CheckCommitIndex | internal/raft/raft.go:873-906 | commitIndex moves to the scan's result and the entries up to it are handed over |
| RaftNode.Node.CountReplicas | internal/raft/raft.go:878-888 | the count is one for the leader and one for each other node whose matchIndex reaches the index |
| RaftNode.Node.Propose | internal/raft/raft.go:909-934 | only a leader appends, at its own term and the log's length, and replicates at once |
| RaftNode.Node.ApplyNext | internal/raft/raft.go:586-599 | the oldest queued entry is applied to the state machine |
| RaftNode.Node.ProcessMessage | internal/raft/raft.go:694-749 | a delivered message is handled by its type |
| RaftQuorums.BroadcastReaches | internal/raft/raft.go:280-304 | a broadcast sends one message to each other node and nothing else |
| RaftQuorums.QuorumsMeet | internal/raft/raft.go:864-868 | any two majorities, of votes or of replicas, share a node |
| RaftQuorums.ReplicasCounts | internal/raft/raft.go:878-891 | the replica counter is the number of distinct nodes that store the entry |
| RaftReplication.NotifyReadyMeaning | internal/raft/raft.go:622-646 | exactly the newly committed entries are queued, in order |
| RaftReplication.CommitTargetMeaning | internal/raft/raft.go:873-905 | the scan finds the greatest index that passes its test, and never less than the old commitIndex |
| RaftReplication.MajorityUpToTarget | internal/raft/raft.go:877-897 | replica counts fall as the index grows, so exactly the indices up to the result have a majority |
| RaftReplication.CommittableDurable | internal/raft/raft.go:877-897 | an index that a leader may commit, of its own term or, in a cluster of at most two nodes, of any, is stored by a quorum |
| RaftReplication.DurableInLaterLeaders | internal/raft/raft.go:477-487 | such an entry, stored by a quorum, is in the log of every later leader |
| RaftLeadership.OneWinner | internal/raft/raft.go:460-494 | a quorum of ballots for one node leaves no other winner of the term |
| RaftLeadership.WinnerComplete | internal/raft/raft.go:477-487 | a fresh winner holds each entry of an earlier leader, unless no quorum can store it any more |
| RaftLogs.SameTermAgree | internal/raft/raft.go:394-420 | logs written by the winners of their terms coincide up to any index where their terms do |
| RaftLogs.UpToDateHolds | internal/raft/raft.go:477-487 | an up-to-date candidate holds what its voter holds of an earlier leader's entries, or that entry is lost anyway |
| RaftLogs.AppendNewMeaning | internal/raft/raft.go:394-430 | after the repaired merge the log agrees with the sender's over the message, keeps all it shared with it, and is unchanged or the sender's prefix |
| RaftLogs.KnownEntriesKept | internal/raft/raft.go:394-430 | an older message of the same leader does not shorten the log |
| RaftLogs.RedeliveryHarmless | internal/raft/raft.go:394-430 | merging the same message again changes nothing |
| RaftSafety.InitInv | internal/raft/raft.go:95-136 | the invariant holds of a fresh cluster |
| RaftSafety.StepKeepsInv | internal/raft/raft.go:189-255 | every enabled step of any node keeps the invariant and only extends history |
| RaftSafety.SoundIsPlain | internal/raft/raft.go:189-255 | a run under rules whose departures the cluster's size makes harmless is a run that the invariant governs |
| RaftSafety.RunInv | internal/raft/raft.go:189-255 | the invariant holds in every state of every run under sound rules; the other results of RaftSafety are stated for these runs |
| RaftSafety.ElectionSafety | internal/raft/raft.go:246-268 | at most one node is ever leader in a term, over all times of a run |
| RaftSafety.LeaderAppendOnly | internal/raft/raft.go:909-931 | while a node leads a term its log is only extended |
| RaftSafety.LogMatching | internal/raft/raft.go:394-420 | logs of any two nodes at any two times that hold the same term at an index are identical up to it; indices are positions and terms never fall |
| RaftSafety.LeaderCompleteness | internal/raft/raft.go:477-487 | an entry that a quorum has stored in term T is, from then on, in the log of every leader of T or a later term |
| RaftSafety.CommittedIsDurable | internal/raft/raft.go:873-905 | what a node has committed is such an entry of some term and what lies below it |
| RaftSafety.CommittedInLaterLeaders | internal/raft/raft.go:477-487 | in particular what any node has committed is in the log of every leader of that node's term or a later one |
| RaftSafety.CommittedPrefixes | internal/raft/raft.go:873-905 | committed logs of any two nodes at any two times never disagree |
| RaftSafety.AppliedOnceInOrder | internal/raft/raft.go:586-646 | the entries a node has applied and those it has queued are its committed entries, each once and in index order, and the machine is what the applied ones make |
| RaftSafety.AppliedOnlyGrows | internal/raft/raft.go:586-599 | no applied entry is taken back |
| RaftSafety.StateMachineSafety | internal/raft/raft.go:622-646 | of the lists of entries that any two nodes have applied by any two times one is a prefix of the other, and equally long ones make the same data and terms |
| RaftSafety.CommitsAreForever | internal/raft/raft.go:422-428 | commitIndex never goes back or past the log's end, and committed entries are never changed or removed |
| RaftSafety.MessagesAnnounceWhatTheyCarry | internal/raft/raft.go:337-360 | every AppendEntries ever sent is a slice of its leader's log that reaches the commit index it announces |
| RaftSafety.NextIndexInRange | internal/raft/raft.go:315-321 | a leader's nextIndex stays between 1 and its log's length, and matchIndex within the log |
| RaftAnswers.VoteGrantedExactlyWhen | internal/raft/raft.go:460-494 | told by fields: the one reply grants the vote exactly when the vote is free and the candidate's last entry is of a later term, or of the same term and no lower index; a newer term is adopted either way |
| RaftAnswers.StaleVoteRefused | internal/raft/raft.go:465-468 | a request of an older term is refused in the voter's own term and changes nothing |
| RaftAnswers.OneOfTwoGrants | internal/raft/raft.go:477-487 | of any two nodes asked in a newer term at least one grants the other its vote |
| RaftAnswers.GrantsChain | internal/raft/raft.go:477-487 | and whoever gets the vote of a node that would get the vote of a third gets the third's as well |
| RaftAnswers.EntriesAcceptedExactlyWhen | internal/raft/raft.go:374-431 | under any rules: entries are acknowledged up to their end exactly when their term is not stale and the entry before them is there with its term; otherwise log and commitIndex stay and commitIndex is reported |
| RaftAnswers.LeaderStepsDown | internal/raft/raft.go:768-774 | a leader that hears of a newer term in an answer becomes a follower in it, keeps vote and log, and sends nothing |
| RaftAnswers.CandidateStepsDown | internal/raft/raft.go:853-857 | so does a candidate that hears of it in an answer |
| RaftAnswers.NewerTermAdoptedExactlyWhen | internal/raft/raft.go:381-386 | any message of a newer term makes its receiver a follower in that term exactly when it is not an answer that the receiver's role ignores |
| RaftLetters.RunLetters | internal/raft/raft.go:337-360 | in every run under any rules each message names its sender, another node than its receiver, and a term the sender has reached |
| RaftLetters.LeaderFollowsNewerTermExactlyWhen | internal/raft/raft.go:762-774 | in every run under any rules: a leader that receives a message of a newer term follows into it exactly when the message is not an answer to an old vote request, which changes nothing |
| RaftSplitVotes.RetryStaysInTerm | internal/raft/raft.go:246-249 | a candidate that times out asks all others again, in the term it has |
| RaftSplitVotes.StepStaysSplit | internal/raft/raft.go:246-249 | under any rules no step resolves a split vote |
| RaftSplitVotes.SplitIsForever | internal/raft/raft.go:236-307 | so under any rules, once the vote is split, no node leads in any term again, whatever is delivered |
| RaftSplitVotes.EveryClusterCanSplit | internal/raft/raft.go:236-268 | every cluster under any rules has a run that splits its vote before it had a leader |
| RaftSplitVotes.AllStandIsSplit | internal/raft/raft.go:246-268 | where voters are counted once, nodes that are all candidates of one term have split the vote |
| RaftElectable.LeaderCanEmerge | internal/raft/raft.go:236-328 | from any state that meets the invariant and in which not all nodes are candidates of one term, the steps of the code can make some node leader of a later term than any, with a new entry |
| RaftCatchUp.TakenIsWhole | internal/raft/raft.go:394-430 | what a node accepts from the last leader leaves it with exactly that leader's log, nothing beyond it |
| RaftCatchUp.CatchUpAll | internal/raft/raft.go:792-834 | however far logs have drifted, such a leader can be brought to have all others in step and acknowledged, one back-off at a time |
| RaftProgress.ProgressPossible | internal/raft/raft.go:236-906 | every state of every sound run in which not all nodes stand in one term can go on to where a new leader's command is last in every node's log, committed and applied by all, and all machines are equal |
| RaftProgress.ServesExactlyWhen | internal/raft/raft.go:236-906 | a cluster under sound rules can still serve a command exactly when it has a second node and its nodes are not all candidates of one term |
| RaftBackOff.AcceptedRound | internal/raft/raft.go:394-430 | an accepted round leaves the follower's log with the leader's as a prefix |
| RaftBackOff.BackOffTerminates | internal/raft/raft.go:792-834 | at most nextIndex - 1 rounds are rejected before one is accepted |
| RaftBackOff.LeaderCanSync | internal/raft/raft.go:792-834 | in every state that meets the invariant a leader can bring any node not ahead of it into step |
| RaftAsWritten.AppendAllExactlyWhen | internal/raft/raft.go:403-420 | the merge as written is the protocol's exactly when the message brings nothing the log holds |
| RaftAsWritten.AppendAllIndexed | internal/raft/raft.go:403-420 | the merge as written keeps entries at their own indices exactly when the message brings only news |
| RaftAsWritten.RedeliveryDuplicates | internal/raft/raft.go:415-419 | delivering a message twice stores its entry twice |
| RaftAsWritten.TwoVotersElect | internal/raft/raft.go:861-868 | in a cluster of four or more, one repeated vote elects a candidate with two voters |
| RaftAsWritten.CounterDecidesAsVoters | internal/raft/raft.go:861-868 | the counter decides as distinct voters do exactly in clusters of at most three |
| RaftAsWritten.CommitExactlyWhen | internal/raft/raft.go:891-896 | the commit test as written finds the protocol's index exactly when that index carries the current term or none is found |
| RaftAsWritten.SeenExactlyWhen | internal/raft/raft.go:602-608 | with two consumers the state machine sees every queued entry exactly when the main loop takes none |
| RaftAsWritten.HandleAppendEntriesExactlyWhen | internal/raft/raft.go:374-431 | the handler as written is the protocol's exactly when it rejects or the message brings only news |
| RaftAsWritten.HandleAppendEntriesResponseExactlyWhen | internal/raft/raft.go:776-790 | the success branch as written is the protocol's exactly when the commit test finds nothing or the current term |
| RaftAsWritten.HandleRequestVoteResponseExactlyWhen | internal/raft/raft.go:839-870 | a vote response is handled as the protocol has it exactly when it is not counted, or counter and voters decide alike |
| RaftAsWritten.TestsAgreeExactlyWhen | internal/raft/raft.go:861-868 | while each vote counted was a new voter's they decide alike exactly when this voter is new too, or its vote is not the one still missing |
| RaftBallots.VotersDecide | internal/raft/raft.go:246-268 | however entries are merged and committed, if voters are counted once then at most one node is ever leader in a term |
| RaftVoteCounting.TwoLeaders | internal/raft/raft.go:861-868 | under any rules with the vote counter, in any cluster of four or more, a run makes two nodes leaders of one term |
| RaftVoteCounting.ElectionsSafeExactlyWhen | internal/raft/raft.go:839-870 | under any rules, every run elects at most one leader a term exactly when voters are counted once or the cluster has at most three nodes |
| RaftVoteCounting.CounterSafeExactlyWhen | internal/raft/raft.go:839-870 | the code itself does exactly in clusters of at most three nodes |
| RaftNecessity.CountingTwiceDiverges | internal/raft/raft.go:861-868 | under any rules with the vote counter, in any cluster of four or more, a run commits different entries at index 1 |
| RaftNecessity.CommittingAnyTermDiverges | internal/raft/raft.go:891-896 | under any rules with the commit test as written, in any cluster of three or more, a run commits different entries at index 1 |
| RaftNecessity.AppendingAllDiverges | internal/raft/raft.go:406-419 | under any rules with the merge as written, in any cluster of two or more, a run commits different entries, carrying any two commands, at index 2 |
| RaftNecessity.CommitsAlikeExactlyWhen | internal/raft/raft.go:374-906 | under any rules and for any cluster, no two nodes commit differently in any run exactly when the rules are sound: one node, or the repaired merge with the counter in at most three nodes and any term in at most two |
| RaftNecessity.CodeCommitsAlikeExactlyWhen | internal/raft/raft.go:374-906 | the code itself commits alike in every run exactly if there is only one node |
| RaftCodeRuns.ActExactlyWhen | internal/raft/raft.go:189-255 | a step of the code is the protocol's exactly when its guard, read off the node and the message, holds |
| RaftCodeRuns.GuardedRunIsSound | internal/raft/raft.go:189-255 | a run of the code whose steps all meet their guards is a run of the protocol, in a cluster of any size, with all its guarantees |
| RaftCodeRuns.FailureLeavesProtocol | internal/raft/raft.go:189-255 | every run of the code with two leaders of one term or different commits has taken a step that fails its guard |
| StateMachine.SimpleStateMachine.Apply | internal/raft/statemachine.go:49-74 | an entry puts, deletes, or leaves the maps alone, and unknown kinds are an error |
| StateMachine.SimpleStateMachine.ApplyPut | internal/raft/statemachine.go:77-89 | a put writes the value and the entry's term |
| StateMachine.SimpleStateMachine.ApplyDelete | internal/raft/statemachine.go:92-101 | a delete removes the key from both maps |
| StateMachine.ApplyAllAt | internal/raft/statemachine.go:49-101 | after any entries each key is as its last write left it |
| StateMachine.ReplayIdempotent | internal/raft/statemachine.go:26-101 | applying again any contiguous tail of what was applied changes nothing |
| StateMachine.DataAndTermsTogether | internal/raft/statemachine.go:77-101 | a key's value and term come from the same entry |
| Crc.Crc32Checksum | internal/storage/engine.go:1164-1178 | the nested loops compute the folded register, inverted |
| Crc.AbsorbByte | internal/storage/engine.go:1168-1175 | the inner loop mixes in one byte and makes eight steps |
| Crc.ShiftInjective | internal/storage/engine.go:1170-1174 | no two registers shift to the same one |
| Crc.ShiftLinear | internal/storage/engine.go:1170-1174 | the shift of an exclusive or is the exclusive or of the shifts |
| ShiftRegister.FoldIsWord | internal/storage/engine.go:1167-1176 | folding in up to four bytes is stepping out the word they make |
| Crc.BurstDetected | internal/storage/engine.go:1164-1178 | messages of any length that differ only in a window of up to four bytes have different checksums |
| Crc.DifferenceWithinWindowDetected | internal/storage/engine.go:1164-1178 | the same for byte strings compared position by position, both directions |
| CrcValues.Residue | internal/storage/engine.go:1164-1178 | the checksum of any message followed by its own checksum, low byte first, is 0x2144DF1C, as for this polynomial, start value and inversion alone |
| CrcValues.CheckValue | internal/storage/engine.go:1164-1178 | the checksum of the digits 1 to 9 is 0xCBF43926 |
| SegmentNames.NameReadsBack | internal/wal/wal.go:152-155 | the scan of a segment's name gives back the index and term it was printed from |
| SegmentNames.NameLooks | internal/wal/wal.go:179-179 | below ten to the sixteenth a name is the prefix, sixteen decimal digits of the index, a dash and sixteen of the term, each digit at its place |
| SegmentNames.ParsesExactlyWhen | internal/wal/wal.go:143-155 | a file is taken for a segment exactly when its name is the prefix, a number, a dash and a number, whatever follows |
| SegmentNames.NamesOrdered | internal/wal/wal.go:179-182 | below ten to the sixteenth names sort by index, then by term |
| SegmentNames.SeventeenDigitsMisplaced | internal/wal/wal.go:179-182 | the first index with seventeen digits is listed before its predecessor |
| WalFrames.FourBytes | internal/wal/wal.go:284-302 | the length prefix is the four shifted bytes, and reading it is the four shifts and ors |
| WalFrames.LengthReadsBack | internal/wal/wal.go:284-302 | every length below two to the 32nd is read back |
| WalFrames.FrameReadsBackExactlyWhen | internal/wal/wal.go:264-273 | a record alone in a segment is read back exactly when its text is shorter than two to the 32nd |
| WalFrames.ReadNext | internal/wal/wal.go:344-378 | one turn of the reading loop gives the next record or the error the code gives |
| WalFrames.ReadFile | internal/wal/wal.go:333-382 | the reading loop gives all records of a segment in order, or the first error |
| WalFrames.SegmentReadsBack | internal/wal/wal.go:256-382 | any sealed records written one after another are read back |
| WalFrames.TornTail | internal/wal/wal.go:343-381 | a cut segment gives exactly the whole records before the cut if it falls between records, and an error otherwise |
| WalFrames.BurstReported | internal/wal/wal.go:365-375 | damage that leaves length and checksum alone and turns a record's text, inside four consecutive bytes, into that of another record is reported as corruption |
| WalFrames.BadFrameReported | internal/wal/wal.go:360-375 | behind any whole records a frame that is no record, or whose checksum is not its own, ends the reading with the error that says which |
| WalChecksum.IeeeDetectsBursts | internal/wal/wal.go:229-241 | the log's checksum detects every burst of up to four bytes |
| Wal.Log.constructor | internal/wal/wal.go:83-127 | opening resumes at the last listed segment, or starts the first one |
| Wal.Log.Latest | internal/wal/wal.go:130-166 | the last file whose name parses is found, others are passed over |
| Wal.Log.CreateSegment | internal/wal/wal.go:169-194 | the named file is opened for append and index, term and size are reset |
| Wal.Log.OpenFile | internal/wal/wal.go:179-185 | in a directory listed in order the open file has the name and names stay in order; if some file had the name every file is as it was, otherwise there is one more, empty, among them |
| Wal.Log.WriteRecord | internal/wal/wal.go:256-281 | a segment too full for the payload is left for a new one, then the frame is appended |
| Wal.Log.Append | internal/wal/wal.go:206-253 | the record gets the next index, the current term and its checksum, and is written |
| Wal.Log.SetTerm | internal/wal/wal.go:472-485 | a different term starts a segment at the current index |
| Wal.Log.ReadAll | internal/wal/wal.go:305-330 | the records of all segments in the directory's order, or the first error |
| Wal.Log.Close | internal/wal/wal.go:428-455 | a closed log refuses later calls and keeps its files |
| WalStore.OpenAppendMeans | internal/wal/wal.go:179-185 | the same of the directory as a value |
| WalStore.OpenResumes | internal/wal/wal.go:102-127 | opening takes up the last file with a segment's name, whatever files follow it, with the index and term of its name and its size, and makes the first segment only where there is none |
| WalStore.PlaceMeans | internal/wal/wal.go:130-166 | a name's place in the directory is after exactly the segments that come before it |
| WalStore.FilesReadBack | internal/wal/wal.go:305-330 | files that stand for segments are read back as their records in order |
| WalRuns.EverythingReadsBack | internal/wal/wal.go:206-281 | after any mix of appends, rotations, rising terms and restarts, reading gives the appended records in order |
| WalRuns.IndicesCount | internal/wal/wal.go:216-252 | without a restart records are numbered one after another |
| WalRuns.TermsFollow | internal/wal/wal.go:216-220 | every record appended bears the term last set, or the one the segment opened was named for |
| WalRotation.AppendRotatesExactlyWhen | internal/wal/wal.go:256-281 | while the size kept is the open file's: an append adds a file, and writes into it, exactly when length plus payload exceed the limit and no file bears the next name; otherwise it writes to the open one |
| WalRotation.SegmentsStayWithin | internal/wal/wal.go:256-281 | over every run without a restart the size kept is the open file's, and a segment of more than one record exceeds the limit by at most the four bytes of a length |
| WalRotation.RunRotatesExactlyWhen | internal/wal/wal.go:256-281 | over every run without a restart appends rotate exactly so |
| WalRotation.RestartReopens | internal/wal/wal.go:113-124 | after a restart the first append never adds a file, however full the last segment is, and the size kept is the file's exactly if there was room or nothing in it |
| WalRotation.RestartLosesCountExactlyWhen | internal/wal/wal.go:113-124 | so a restart of any such run loses count of a segment exactly when it holds something and the payload does not fit |
| WalRuns.RestartKeepsIndexExactlyWhen | internal/wal/wal.go:113-124 | a restart keeps the numbering exactly when the last segment is empty |
| WalRuns.TermChangeKeepsOrderExactlyWhen | internal/wal/wal.go:472-485 | a record written after a term change is read last exactly when no record sits in a segment named after the new one |
| WalRuns.TermFallAfterRestart | internal/wal/wal.go:113-124 | a term that falls right after a restart puts the next record before those already there |
| WalCrash.CrashDuringWrite | internal/wal/wal.go:256-281 | after a write was cut short the log is readable exactly when none or all of the frame arrived, and then intact |
| EngineReplay.AppliedTo | internal/storage/engine.go:157-183 | replayed or committed commands leave each key with as many versions more as they put behind their last delete of it, with the last value put, or deleted |
| EngineReplay.VersionsBalance | internal/storage/engine.go:124-183 | over every run, committed transactions included, the version a restart gives a key is the number of puts logged since its last logged delete, and memory's version plus the account of unlogged changes |
| EngineReplay.RecoversExactlyWhen | internal/storage/engine.go:124-183 | over every run, committed transactions included, a key comes back from the log as memory holds it exactly when that account is settled and memory holds the last value logged |
| EngineReplay.UntouchedRecoversExactlyWhen | internal/storage/engine.go:124-183 | a key that no committed transaction touches comes back so exactly when it did not vanish without a record since its last logged delete or restart |
| EngineReplay.HeldKeysRecover | internal/storage/engine.go:124-183 | such a key, if held, comes back with its value and a version no smaller than in memory |
| EngineReplay.ContentsRecoverExactlyWhen | internal/storage/engine.go:124-183 | over every run, committed transactions included, all values and versions come back exactly when every key is settled |
| EngineReplay.LoggedRunsRecover | internal/storage/engine.go:204-486 | after a run of logged changes and restarts alone everything comes back |
| EngineReplay.BatchPutTracks | internal/storage/engine.go:775-846 | a batch keeps memory and replay in step whatever the two orders in which the map is walked |
| EngineReplay.BatchDeleteTracks | internal/storage/engine.go:849-900 | a batch delete, with missing and repeated keys, keeps them in step |
| EngineReplay.RecoveredKeysNeverExpire | internal/storage/engine.go:157-177 | no key rebuilt from the log ever expires |
| EngineReplay.CommitRecoversExactlyWhen | internal/storage/engine.go:527-572 | for every key, after a commit: if the transaction does not put it behind its last delete, it comes back as memory holds it exactly when it was not deleted or not there; otherwise exactly when it was deleted and put back with the value and version it had |
| EngineReplay.DeletedKeyComesBack | internal/storage/engine.go:527-572 | a key that a committed transaction deletes is back after a restart with its old value |
| EngineReplay.CasSwapsExactlyWhen | internal/storage/engine.go:400-427 | a swap happens exactly when readers see the expected value, and then they see the new one for good |
| EngineReplay.PutVisibleExactlyWhen | internal/storage/engine.go:241-273 | a put value is visible for its time to live, or for good if none was given |
| EngineReplay.BatchPutVisibleExactlyWhen | internal/storage/engine.go:775-846 | so is every value of a batch, in whatever order it is walked, and readers see no difference in other keys |
| EngineEvents.MirrorsExactlyWhen | internal/storage/engine.go:204-303 | over every run without a restart a client that follows every event holds a key, untouched by committed transactions, with memory's value and version exactly when it has not left memory unannounced since the last event about it |
| EngineEvents.ValuesChain | internal/storage/engine.go:275-303 | over every run without a restart, a swap or an unannounced loss of the key, each event about it tells the value the client held before, batches included |
| EngineEvents.SwapChainsExactlyWhen | internal/storage/engine.go:430-486 | the event of a swap does so exactly when the client held nothing or the empty value |
| Engine.Store.constructor | internal/storage/engine.go:124-139 | recovery applies the records one after another to an empty map |
| Engine.Store.Put | internal/storage/engine.go:204-305 | a put is logged, stored with the next version, given a lease if its time to live is positive, and announced with the value before |
| Engine.Store.PutInMemory | internal/storage/engine.go:241-273 | an existing key's version goes up by one, a new key starts at one |
| Engine.Store.Get | internal/storage/engine.go:308-343 | a missing key, an expired key and a live key are told apart |
| Engine.Store.Delete | internal/storage/engine.go:346-397 | only a held key is logged, deleted and announced |
| Engine.Store.CompareAndSwap | internal/storage/engine.go:400-486 | the swap is made or refused by what readers see; an expired key is dropped without a record or an event; a swap is announced without the value before |
| Engine.Store.BatchPut | internal/storage/engine.go:775-846 | all records first, then all changes with their events, each in some order of the map |
| Engine.Store.BatchDelete | internal/storage/engine.go:849-900 | keys held at the start are logged, then all are removed, and each is announced once |
| Engine.Store.Remove | internal/storage/engine.go:321-330 | the removal of an expired key leaves no record and no event |
| Engine.Store.RemoveLeased | internal/storage/engine.go:910-921 | the removal of a key with its lease leaves no record and is announced |
| Engine.Store.CleanupExpired | internal/storage/engine.go:1046-1070 | the cleanup removes exactly the keys whose positive time to live has passed |
| Engine.CleanupUnseen | internal/storage/engine.go:1046-1070 | no reader from then on sees a difference: what stays stays as it was, what goes could not be read |
| Engine.Store.BeginTransaction | internal/storage/engine.go:496-515 | a pending transaction without operations is registered |
| Engine.Store.AddOperation | internal/storage/engine.go:594-613 | an operation is added to a registered transaction |
| Engine.Store.CommitTransaction | internal/storage/engine.go:527-572 | all operations are applied to memory in order, nothing is logged, and the transaction is gone |
| Engine.Store.Range | internal/storage/engine.go:701-758 | a closed engine refuses; otherwise the items and count of the query |
| EngineRange.ExchangeSort | internal/storage/engine.go:731-738 | the exchange sort leaves a sorted permutation |
| EngineRange.Collect | internal/storage/engine.go:720-729 | the keys of the range that are live are collected once each |
| EngineRange.Query | internal/storage/engine.go:701-758 | the first keys of the ordered matching keys up to the limit, and the count without it |
| EngineRange.LimitKeepsLeast | internal/storage/engine.go:740-754 | a limited query returns the least matching keys in order |
| EngineRange.RangeListsExactly | internal/storage/engine.go:701-758 | items are keys that are unexpired and asked for, in ascending order, each with its own entry; without a limit they are all of them |
| Strings.LessExactlyWhen | internal/storage/engine.go:731-738 | the order of keys is the dictionary's: a proper prefix first, otherwise the first differing character decides |
| EngineRange.OnlyOneOrder | internal/storage/engine.go:731-738 | an ascending list is determined by its keys |
| EngineRange.SplitsAt | internal/storage/engine.go:712-755 | splitting a range at a key between its ends splits its result in order |
| Recovery.DiskRecoversExactlyWhen | internal/storage/engine.go:124-139 | what is read back from the segments rebuilds each key as memory holds it exactly when its account is settled and memory holds the last value logged, committed transactions included |
| LeaseManager.Manager.constructor | internal/lease/lease.go:59-72 | no leases, no keys, and the counter at one |
| LeaseManager.Manager.Grant | internal/lease/lease.go:75-101 | a positive time to live gets the next identifier |
| LeaseManager.Manager.Revoke | internal/lease/lease.go:104-129 | a live lease and its keys are dropped and its identifier is marked |
| LeaseManager.Manager.KeepAlive | internal/lease/lease.go:132-155 | a live lease runs for its full time again |
| LeaseManager.Manager.Attach | internal/lease/lease.go:158-191 | a key moves to the lease, as written or with the repair |
| LeaseManager.Manager.Detach | internal/lease/lease.go:194-208 | an attached key leaves its lease |
| LeaseManager.Manager.DetachFromLease | internal/lease/lease.go:211-231 | the first copy of the key is removed and the index entry deleted |
| Lists.WithoutFirst | internal/lease/lease.go:219-224 | the removal loop takes out the first copy only |
| LeaseManager.Manager.GetExpiredKeys | internal/lease/lease.go:354-392 | every lease that has run out is dropped and its keys are handed out |
| LeaseManager.Manager.Close | internal/lease/lease.go:410-424 | closing empties the manager once |
| LeaseIndex.EveryRunSound | internal/lease/lease.go:75-231 | with the repair the index and the lists agree after every run |
| LeaseIndex.IndexMeansLists | internal/lease/lease.go:158-231 | a key is indexed to a lease exactly when that live lease lists it once |
| LeaseIndex.GrantSound | internal/lease/lease.go:75-101 | a granted identifier is neither live nor revoked |
| LeaseIndex.GrantedAscend | internal/lease/lease.go:87-87 | identifiers only go up over every run |
| LeaseIndex.SweepSplits | internal/lease/lease.go:354-392 | a sweep hands out exactly the keys of leases that have run out, once each, and leaves the others attached |
| LeaseIndex.LeaseLivesItsTtl | internal/lease/lease.go:132-155 | a sweep ends a lease exactly when its time since the grant or the last keep-alive has passed |
| LeaseEffects.GrantMakes | internal/lease/lease.go:75-101 | a grant makes one empty lease under the next identifier, live for its time to live, and touches nothing else |
| LeaseEffects.RevokeEnds | internal/lease/lease.go:104-129 | a revoked lease is gone, its keys are attached nowhere, and every other lease and key is as it was |
| LeaseEffects.AttachAttaches | internal/lease/lease.go:158-191 | attaching to a live lease puts the key on that lease and on no other, as written or repaired; every other key stays and no lease lives longer or shorter |
| LeaseEffects.DetachDetaches | internal/lease/lease.go:194-231 | detaching takes the key off its lease and does nothing else |
| LeaseEffects.SweepEnds | internal/lease/lease.go:354-392 | a sweep ends exactly the leases that have run out and leaves the others untouched |
| LeaseEffects.AttachedUntilHandedOut | internal/lease/lease.go:158-392 | over every run a key that no call moves, detaches or revokes is on its lease as long as that lives, and is handed out exactly when it has ended |
| LeaseEffects.AttachedKeyIsHandedOut | internal/lease/lease.go:158-392 | so an attached key is handed out by the sweep that ends its lease |
| LeaseIndex.AttachSoundExactlyWhen | internal/lease/lease.go:176-188 | attaching as written keeps the index right exactly when the key is not on that lease already |
| LeaseIndex.DetachedKeyStillExpires | internal/lease/lease.go:176-224 | after such a call a detached key is still handed out for deletion |
| LeaseIndex.DetachedKeyStays | internal/lease/lease.go:194-231 | where the index is right a detached key is not handed out |
| Watcher.Watcher.constructor | internal/watch/watcher.go:68-79 | no watches and identifiers from one |
| Watcher.Watcher.Watch | internal/watch/watcher.go:107-146 | a watch gets the next identifier, an empty channel and a place in its bucket |
| Watcher.Watcher.Cancel | internal/watch/watcher.go:149-165 | a known watch and its channel are removed |
| Watcher.Watcher.RemoveFromMapping | internal/watch/watcher.go:246-265 | the identifier leaves its bucket, and an empty bucket leaves the index |
| Watcher.Watcher.Notify | internal/watch/watcher.go:168-187 | an event is queued unless the queue is full |
| Watcher.Watcher.DistributeNext | internal/watch/watcher.go:190-237 | the oldest event is sent to its targets |
| Watcher.Watcher.FindTargets | internal/watch/watcher.go:209-225 | the exact bucket and every bucket whose prefix matches, in some order of the map |
| Watcher.Watcher.SendToAll | internal/watch/watcher.go:228-236 | each target gets the event unless its channel is full |
| WatchDispatch.AddWatchIndexed | internal/watch/watcher.go:107-146 | a new watch keeps every live watch in its own bucket exactly once |
| WatchDispatch.CancelIndexed | internal/watch/watcher.go:149-165 | so does a cancellation |
| WatchEffects.WatchWatches | internal/watch/watcher.go:107-146 | a new watch is live under a new identifier with nothing waiting, and every other is as it was |
| WatchEffects.CancelEnds | internal/watch/watcher.go:149-165 | a cancelled watch is gone with what waited for it, and every other is as it was |
| WatchEffects.NotifiedExactlyWhen | internal/watch/watcher.go:168-187 | an event is queued behind those that wait exactly when fewer than a thousand do |
| WatchEffects.DistributesExactly | internal/watch/watcher.go:190-237 | the oldest event goes behind what waits for each client whose key or prefix it has and for whom fewer than a hundred wait, and nobody else's events change |
| WatchDispatch.TargetsMean | internal/watch/watcher.go:205-237 | an event reaches exactly the live watches the index has for its key, once each, in any order of the map |
| WatchDispatch.DispatchIsFilterExactlyWhen | internal/watch/watcher.go:219-219 | the dispatch as written agrees with the plain filter exactly when no live watch asks for the empty prefix |
| WatchDispatch.StreamIsSubsequence | internal/watch/watcher.go:168-237 | over every run a client is given a subsequence of the matching events queued at its start or notified later |
| WatchDispatch.StreamIsComplete | internal/watch/watcher.go:168-237 | and all of them once the queue is empty, if no buffer was full on the way |

## Left out

- Integer width: terms, indices, versions and sizes do not wrap around at 64 bits, except that nextIndex 0 gives the largest 64-bit previous index as in the code.
- Slice aliasing between a node's log and the entries of messages: logs and messages are values.
- Snapshots in Raft: nothing sends InstallSnapshot, and Snapshot and Restore of the state machine are not modelled.
- Membership changes and restarts of Raft nodes: the cluster is fixed, and vote state is never written to disk.
- Timers, goroutines, channel capacities of the Raft node, Stop and GetLeader: steps are atomic and scheduled in any order.
- sendLogEntries: it sends what sendHeartbeats sends, so one function models both.
- The HTTP server, clients, configuration, metrics, logging and examples: plumbing and settings.
- JSON, time formatting, file-system errors and failing syncs: the codec undoes itself and every call on the disk succeeds.
- Truncate and snapshot files: no code loads a snapshot.
- Damage to a length prefix: it is not covered by the checksum, and no result speaks of it.
- The engine object: creation and modification times and lease identifiers of keys are not kept; the calls it makes on its watcher and lease manager are listed, not made; a failing log call is not modelled; rollback only forgets the transaction.
- RevokeLease and the lease sweep of the engine: their effect on the map is `Engine.Store.RemoveLeased` for each key; that Delete never detaches a key from its lease is not modelled.
- The lease manager object: leases are values in the manager's map, since no other holder of their pointers changes them; its own background sweep, which discards the keys it finds, is not modelled.
- The watcher object: Stop, which closes channels that the clean-up closes again, and the forwarding goroutine of the engine are not modelled.
- SegmentNames.ParsesExactlyWhen: the scanning verb also skips blanks before a number and refuses a number beyond 64 bits; names with either are not modelled.
- EngineEvents.ValuesChain: leaves out keys that were swapped, whose event tells no value before, and keys that left memory unannounced, of whose value before the engine no longer knows.
- RaftProgress.ServesExactlyWhen: says what the cluster can still reach, not that a scheduler will take it there.
- WalRuns.EverythingReadsBack: is stated for indices and terms of at most sixteen digits and terms that do not fall; where they do fall, `WalRuns.TermChangeKeepsOrderExactlyWhen` says exactly when order is kept.
- WalFrames.BurstReported: says nothing of damage that leaves no record's text at all, or another spelling of the same record, such as a field name in capitals, which the JSON library accepts; the codec knows one text for each record.
- RaftBackOff: its exchange is one leader's with one follower under the repaired rules, with no other message in between.
