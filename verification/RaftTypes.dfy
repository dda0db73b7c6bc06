/** Data carried by the Raft protocol: commands, log entries, messages and node state. */
module RaftTypes {

  // Node identifiers are only ever compared; 0 plays the part of the empty string.
  type NodeId = nat

  const NO_NODE: NodeId := 0

  datatype CommandType = CommandPut | CommandDelete | CommandGet | CommandUnknown

  datatype Command = Command(kind: CommandType, key: string, value: string)

  datatype LogEntry = LogEntry(term: nat, index: nat, command: Command)

  type Log = seq<LogEntry>

  // The placeholder that every node puts at index 0 of its log.
  const SENTINEL := LogEntry(0, 0, Command(CommandPut, "", ""))

  datatype Role = Follower | Candidate | Leader

  datatype Message =
    | RequestVote(term: nat, from: NodeId, to: NodeId, lastLogIndex: nat, lastLogTerm: nat)
    | RequestVoteResponse(term: nat, from: NodeId, to: NodeId, voteGranted: bool)
    | AppendEntries(term: nat, from: NodeId, to: NodeId, prevLogIndex: nat, prevLogTerm: nat,
                    entries: seq<LogEntry>, leaderCommit: nat)
    | AppendEntriesResponse(term: nat, from: NodeId, to: NodeId, success: bool, matchIndex: nat)

  // The key-value state machine that consumes committed entries.
  datatype Machine = Machine(data: map<string, string>, terms: map<string, nat>)

  const EMPTY_MACHINE := Machine(map[], map[])

  datatype NodeState = NodeState(
    id: NodeId,
    clusterNodes: seq<NodeId>,
    currentTerm: nat,
    votedFor: NodeId,
    role: Role,
    log: Log,
    commitIndex: nat,
    lastApplied: nat,
    nextIndex: map<NodeId, nat>,
    matchIndex: map<NodeId, nat>,
    votesReceived: nat,        // the counter kept by the source
    voters: set<NodeId>,       // the distinct voters behind that counter
    applyCh: seq<LogEntry>,    // entries handed over but not yet applied
    applied: seq<LogEntry>,    // history: the entries given to the state machine, in order
    machine: Machine)

  /** The three places where the source departs from the protocol it implements. A flag that
      is false selects the source's own behaviour, a flag that is true the protocol's. */
  datatype Rules = Rules(
    mergeFromFirstNew: bool,   // append only the entries the log does not hold yet
    countVotersOnce: bool,     // decide an election on distinct voters
    commitOwnTermOnly: bool)   // advance commitIndex only to an entry of the current term

  const AS_WRITTEN := Rules(false, false, false)
  const REPAIRED := Rules(true, true, true)
}
