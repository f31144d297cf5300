/** One Raft node (cluster/raft_node.hpp, cluster/raft_state.hpp).

    `Node` is the value of a node and the functions below it say what each block that holds the
    node's mutex does to that value. `RaftNode` is the object of the source, whose methods work on
    the fields step by step and are proved to do exactly that. */
module RaftNodes {
  import opened RaftLogs
  import opened CommitRule
  import opened FiniteSets

  datatype Role = Follower | Candidate | Leader

  /** Node ids are 0..size-1; -1 in `votedFor` and `leaderId` means nobody. */
  datatype Node = Node(
    id: nat, size: nat,
    term: nat, votedFor: int, log: Log,
    role: Role, leaderId: int, commitIndex: nat, lastApplied: nat, applied: seq<string>,
    nextIndex: map<nat, nat>, matchIndex: map<nat, nat>)
  {
    /** A leader tracks every other member of the cluster. */
    ghost predicate Valid() {
      && id < size
      && (role == Leader ==> nextIndex.Keys == Peers(id, size) && matchIndex.Keys == Peers(id, size))
    }
  }

  datatype VoteRequest = VoteRequest(term: nat, candidate: nat, lastIndex: nat, lastTerm: nat)
  datatype VoteReply = VoteReply(term: nat, granted: bool)
  datatype AppendRequest = AppendRequest(
    term: nat, leader: nat, prevIndex: nat, prevTerm: nat, entries: seq<Entry>, leaderCommit: nat)
  datatype AppendReply = AppendReply(term: nat, success: bool)
  datatype SnapshotRequest = SnapshotRequest(term: nat, leader: nat, lastIndex: nat, lastTerm: nat, data: string)

  function Peers(id: nat, size: nat): set<nat> {
    Members(size) - {id}
  }

  /** What a new leader notes for each peer. */
  function Tracking(id: nat, size: nat, value: nat): (m: map<nat, nat>)
    ensures m.Keys == Peers(id, size) && forall p :: p in m ==> m[p] == value
  {
    if size == 0 then map[]
    else if size - 1 == id then Tracking(id, size - 1, value)
    else Tracking(id, size - 1, value)[size - 1 := value]
  }

  lemma TrackingNext(id: nat, p: nat, value: nat)
    ensures Tracking(id, p + 1, value) == if p == id then Tracking(id, p, value) else Tracking(id, p, value)[p := value]
  {
  }

  /** The loop over the peers of a new leader. */
  method TrackPeers(id: nat, size: nat, next: nat) returns (nextIndex: map<nat, nat>, matchIndex: map<nat, nat>)
    ensures nextIndex == Tracking(id, size, next) && matchIndex == Tracking(id, size, 0)
  {
    nextIndex, matchIndex := map[], map[];
    for p := 0 to size
      invariant nextIndex == Tracking(id, p, next) && matchIndex == Tracking(id, p, 0)
    {
      TrackingNext(id, p, next);
      TrackingNext(id, p, 0);
      if p != id { nextIndex, matchIndex := nextIndex[p := next], matchIndex[p := 0]; }
    }
  }

  function Min(a: nat, b: nat): nat {
    if a < b then a else b
  }

  // ---- What each locked block does ----

  function BecomeFollower(n: Node, term: nat): Node {
    n.(term := term, votedFor := -1, role := Follower)
  }

  function Observe(n: Node, term: nat): Node {
    if term > n.term then BecomeFollower(n, term) else n
  }

  /** The commands that applying the indices above `from` up to `last` adds: empty ones are skipped. */
  function CommandsIn(log: Log, from: nat, last: nat): seq<string>
    decreases last
  {
    if last <= from then []
    else CommandsIn(log, from, last - 1) + (if log.CommandAt(last) == "" then [] else [log.CommandAt(last)])
  }

  function ApplyCommitted(n: Node): Node {
    if n.lastApplied >= n.commitIndex then n
    else n.(lastApplied := n.commitIndex, applied := n.applied + CommandsIn(n.log, n.lastApplied, n.commitIndex))
  }

  /** The tracked match indices of the peers with ids below `bound`, in id order. */
  function MatchValues(matchIndex: map<nat, nat>, bound: nat): (values: seq<nat>) {
    if bound == 0 then []
    else MatchValues(matchIndex, bound - 1) + (if bound - 1 in matchIndex then [matchIndex[bound - 1]] else [])
  }

  lemma {:induction false} MatchValuesCount(matchIndex: map<nat, nat>, id: nat, size: nat, bound: nat)
    requires matchIndex.Keys == Peers(id, size) && id < size && bound <= size
    ensures |MatchValues(matchIndex, bound)| == if id < bound then bound - 1 else bound
  {
    if bound == 0 {
    } else {
      MatchValuesCount(matchIndex, id, size, bound - 1);
    }
  }

  function TermsOf(log: Log): nat -> nat {
    i => log.TermAt(i)
  }

  /** The match values that a leader looks at: its own last index and what it knows of its peers. */
  function ValuesOf(n: Node): seq<nat> {
    [n.log.LastIndex()] + MatchValues(n.matchIndex, n.size)
  }

  function Decision(n: Node): (commit: nat)
    requires n.Valid() && n.role == Leader
    ensures n.commitIndex <= commit && |ValuesOf(n)| >= Majority(n.size)
  {
    MatchValuesCount(n.matchIndex, n.id, n.size, n.size);
    NewCommitIndex(ValuesOf(n), n.size, n.commitIndex, n.term, TermsOf(n.log))
  }

  function AdvanceCommit(n: Node): (r: Node)
    requires n.Valid() && n.role == Leader
    ensures r == n.(commitIndex := r.commitIndex, lastApplied := r.lastApplied, applied := r.applied)
    ensures n.commitIndex <= r.commitIndex
  {
    var commit := Decision(n);
    if commit > n.commitIndex then ApplyCommitted(n.(commitIndex := commit)) else n
  }

  lemma DecisionOf(n: Node)
    requires n.Valid() && n.role == Leader
    ensures AdvanceCommit(n).commitIndex == Decision(n)
  {
  }

  function Propose(n: Node, command: string): Node
    requires n.Valid()
  {
    if n.role != Leader then n
    else AdvanceCommit(n.(log := n.log.Append(n.term, command)))
  }

  predicate UpToDate(req: VoteRequest, log: Log) {
    || req.lastTerm > log.LastTerm()
    || (req.lastTerm == log.LastTerm() && req.lastIndex >= log.LastIndex())
  }

  function HandleVote(n: Node, req: VoteRequest): (Node, VoteReply) {
    var n := Observe(n, req.term);
    if req.term < n.term then (n, VoteReply(n.term, false))
    else if (n.votedFor == -1 || n.votedFor == req.candidate) && UpToDate(req, n.log) then
      (n.(votedFor := req.candidate), VoteReply(n.term, true))
    else (n, VoteReply(n.term, false))
  }

  /** The consistency check: an index inside the snapshot is taken on trust. */
  predicate PrevMatches(log: Log, prevIndex: nat, prevTerm: nat) {
    || prevIndex <= log.snapIndex
    || (log.HasRealEntryAt(prevIndex) && log.TermAt(prevIndex) == prevTerm)
  }

  function HandleAppend(n: Node, req: AppendRequest): (Node, AppendReply) {
    var n := Observe(n, req.term);
    if req.term < n.term then (n, AppendReply(n.term, false))
    else
      var n := n.(role := Follower, leaderId := req.leader);
      if !PrevMatches(n.log, req.prevIndex, req.prevTerm) then (n, AppendReply(n.term, false))
      else
        var n := if req.entries == [] then n
                 else n.(log := n.log.TruncateAndAppend(req.prevIndex, req.entries));
        var n := if req.leaderCommit <= n.commitIndex then n
                 else ApplyCommitted(n.(commitIndex := Min(req.leaderCommit, n.log.LastIndex())));
        (n, AppendReply(n.term, true))
  }

  function HandleSnapshot(n: Node, req: SnapshotRequest): Node {
    var n := Observe(n, req.term);
    if req.term < n.term then n
    else
      var n := n.(role := Follower, leaderId := req.leader);
      if req.lastIndex <= n.log.snapIndex then n
      else
        var trim := Min(req.lastIndex - n.log.snapIndex, |n.applied|);
        n.(applied := n.applied[trim..],
           lastApplied := if req.lastIndex > n.lastApplied then req.lastIndex else n.lastApplied,
           commitIndex := if req.lastIndex > n.commitIndex then req.lastIndex else n.commitIndex,
           log := n.log.Compact(req.lastIndex, req.lastTerm, req.data))
  }

  function CompactNode(n: Node, upTo: nat, data: string): (Node, bool) {
    if upTo <= n.log.snapIndex || upTo > n.lastApplied || upTo - n.log.snapIndex > |n.applied| then (n, false)
    else (n.(applied := n.applied[upTo - n.log.snapIndex..],
             log := n.log.Compact(upTo, n.log.TermAt(upTo), data)), true)
  }

  function StartElection(n: Node): (Node, VoteRequest) {
    var n := n.(term := n.term + 1, votedFor := n.id, role := Candidate, leaderId := -1);
    (n, VoteRequest(n.term, n.id, n.log.LastIndex(), n.log.LastTerm()))
  }

  /** The end of an election: `votes` counts the node itself and the peers that granted. */
  function FinishElection(n: Node, electionTerm: nat, votes: nat): Node {
    if n.role == Candidate && n.term == electionTerm && votes >= Majority(n.size) then
      n.(role := Leader, leaderId := n.id,
         nextIndex := Tracking(n.id, n.size, n.log.LastIndex() + 1),
         matchIndex := Tracking(n.id, n.size, 0))
    else n
  }

  datatype Choice = DropIt | SendSnapshot(req: SnapshotRequest) | GoOn

  /** What a leader of `term` does for a peer whose next index is `next`: a peer behind the snapshot gets that. */
  function Choose(n: Node, term: nat, next: nat): Choice
    requires next > 0
  {
    if n.role != Leader || n.term != term then DropIt
    else if next - 1 < n.log.snapIndex then
      SendSnapshot(SnapshotRequest(term, n.id, n.log.snapIndex, n.log.snapTerm, n.log.snapData))
    else GoOn
  }

  /** The request a leader builds for a peer whose next index it last saw as `next`. */
  function BuildAppend(n: Node, next: nat): AppendRequest
    requires next > 0
  {
    AppendRequest(n.term, n.id, next - 1, n.log.TermAt(next - 1), LogSlice(n.log, next), n.commitIndex)
  }

  /** Terms and commands from index `next` to the end, as the accessors report them. */
  function LogSlice(log: Log, next: nat): seq<Entry> {
    if next > log.LastIndex() then []
    else seq(log.LastIndex() + 1 - next, (k: nat) => Entry(log.TermAt(next + k), log.CommandAt(next + k)))
  }

  /** A leader that has heard that the peer holds its log up to index `matched`. */
  function Heard(n: Node, peer: nat, matched: nat): (n': Node)
    requires n.Valid() && n.role == Leader && peer in Peers(n.id, n.size)
    ensures n'.Valid()
  {
    n.(matchIndex := if matched > n.matchIndex[peer] then n.matchIndex[peer := matched] else n.matchIndex,
       nextIndex := n.nextIndex[peer := matched + 1])
  }

  /** The reply to a request of term `term` that covered the log up to index `match`. */
  function HandleAppendReply(n: Node, term: nat, peer: nat, match': nat, reply: AppendReply): Node
    requires n.Valid() && peer in Peers(n.id, n.size)
  {
    if reply.term > n.term then BecomeFollower(n, reply.term)
    else if n.role != Leader || n.term != term then n
    else if reply.success then
      AdvanceCommit(Heard(n, peer, match'))
    else if n.nextIndex[peer] > 1 then n.(nextIndex := n.nextIndex[peer := n.nextIndex[peer] - 1])
    else n
  }

  /** The reply to an InstallSnapshot request of term `term` for a snapshot that ends at `index`. */
  function HandleSnapshotReply(n: Node, term: nat, peer: nat, index: nat, replyTerm: nat): Node
    requires n.Valid() && peer in Peers(n.id, n.size)
  {
    if replyTerm > n.term then BecomeFollower(n, replyTerm)
    else if n.role != Leader || n.term != term || index <= n.matchIndex[peer] then n
    else n.(matchIndex := n.matchIndex[peer := index], nextIndex := n.nextIndex[peer := index + 1])
  }

  /** A crash keeps term, vote and log; everything else starts over from the snapshot. */
  function Restart(n: Node): Node {
    Node(n.id, n.size, n.term, n.votedFor, n.log, Follower, -1, n.log.snapIndex, n.log.snapIndex, [], map[], map[])
  }

  // ---- The objects of the source ----

  class PersistentState {
    var currentTerm: nat
    var votedFor: int

    constructor ()
      ensures currentTerm == 0 && votedFor == -1
    {
      currentTerm, votedFor := 0, -1;
    }

    method Set(term: nat, vote: int)
      modifies this
      ensures currentTerm == term && votedFor == vote
    {
      currentTerm, votedFor := term, vote;
    }
  }

  class RaftNode {
    const id: nat
    const size: nat
    const state: PersistentState
    const log: RaftLog
    var role: Role
    var leaderId: int
    var commitIndex: nat
    var lastApplied: nat
    var applied: seq<string>
    var nextIndex: map<nat, nat>
    var matchIndex: map<nat, nat>

    /** Start, or restart, on what the two files hold. */
    constructor (id: nat, size: nat, state: PersistentState, log: RaftLog)
      ensures this.state == state && this.log == log
      ensures Value() == Restart(Value()) && Value().id == id && Value().size == size
    {
      this.id, this.size, this.state, this.log := id, size, state, log;
      role, leaderId := Follower, -1;
      commitIndex, lastApplied, applied := log.snapIndex, log.snapIndex, [];
      nextIndex, matchIndex := map[], map[];
    }

    function Value(): Node
      reads this, state, log
    {
      Node(id, size, state.currentTerm, state.votedFor, log.Value(), role, leaderId,
           commitIndex, lastApplied, applied, nextIndex, matchIndex)
    }

    method StepDown(term: nat)
      modifies this, state
      ensures Value() == BecomeFollower(old(Value()), term)
    {
      state.Set(term, -1);
      role := Follower;
    }

    method ApplyCommittedEntries()
      modifies this
      ensures Value() == ApplyCommitted(old(Value()))
    {
      var start := lastApplied;
      while lastApplied < commitIndex
        invariant start <= lastApplied <= commitIndex || start == lastApplied
        invariant Value() == old(Value()).(
          lastApplied := lastApplied,
          applied := old(applied) + CommandsIn(log.Value(), start, lastApplied))
      {
        lastApplied := lastApplied + 1;
        var command := log.Value().CommandAt(lastApplied);
        if command != "" { applied := applied + [command]; }
      }
    }

    method AdvanceCommitIndex()
      requires Value().Valid() && role == Leader
      modifies this
      ensures Value() == AdvanceCommit(old(Value()))
    {
      var values := [log.Value().LastIndex()];
      for p := 0 to size
        invariant values == [log.Value().LastIndex()] + MatchValues(matchIndex, p)
      {
        if p in matchIndex { values := values + [matchIndex[p]]; }
      }
      MatchValuesCount(matchIndex, id, size, size);
      var terms := log.Value();
      var commit := NewCommitIndex(values, size, commitIndex, state.currentTerm, i => terms.TermAt(i));
      if commit > commitIndex {
        commitIndex := commit;
        ApplyCommittedEntries();
      }
    }

    method ProposeCommand(command: string) returns (accepted: bool)
      requires Value().Valid()
      modifies this, log
      ensures accepted == (old(role) == Leader)
      ensures Value() == Propose(old(Value()), command)
    {
      if role != Leader { return false; }
      log.Append(state.currentTerm, command);
      AdvanceCommitIndex();
      return true;
    }

    method HandleRequestVote(req: VoteRequest) returns (reply: VoteReply)
      modifies this, state
      ensures (Value(), reply) == HandleVote(old(Value()), req)
    {
      if req.term > state.currentTerm { StepDown(req.term); }
      if req.term < state.currentTerm { return VoteReply(state.currentTerm, false); }
      var canVote := state.votedFor == -1 || state.votedFor == req.candidate;
      if canVote && UpToDate(req, log.Value()) {
        state.Set(state.currentTerm, req.candidate);
        return VoteReply(state.currentTerm, true);
      }
      return VoteReply(state.currentTerm, false);
    }

    method HandleAppendEntries(req: AppendRequest) returns (reply: AppendReply)
      modifies this, state, log
      ensures (Value(), reply) == HandleAppend(old(Value()), req)
    {
      if req.term > state.currentTerm { StepDown(req.term); }
      if req.term < state.currentTerm { return AppendReply(state.currentTerm, false); }
      role, leaderId := Follower, req.leader;
      if req.prevIndex > 0 && req.prevIndex > log.snapIndex {
        if !log.Value().HasRealEntryAt(req.prevIndex) || log.Value().TermAt(req.prevIndex) != req.prevTerm {
          return AppendReply(state.currentTerm, false);
        }
      }
      if req.entries != [] { log.TruncateAndAppend(req.prevIndex, req.entries); }
      if req.leaderCommit > commitIndex {
        commitIndex := Min(req.leaderCommit, log.Value().LastIndex());
        ApplyCommittedEntries();
      }
      return AppendReply(state.currentTerm, true);
    }

    method HandleInstallSnapshot(req: SnapshotRequest) returns (replyTerm: nat)
      modifies this, state, log
      ensures Value() == HandleSnapshot(old(Value()), req) && replyTerm == Value().term
    {
      if req.term > state.currentTerm { StepDown(req.term); }
      replyTerm := state.currentTerm;
      if req.term < state.currentTerm { return; }
      role, leaderId := Follower, req.leader;
      if req.lastIndex <= log.snapIndex { return; }
      var trim := req.lastIndex - log.snapIndex;
      if trim > |applied| { trim := |applied|; }
      applied := applied[trim..];
      if req.lastIndex > lastApplied { lastApplied := req.lastIndex; }
      if req.lastIndex > commitIndex { commitIndex := req.lastIndex; }
      log.Compact(req.lastIndex, req.lastTerm, req.data);
    }

    method CompactLog(upTo: nat, data: string) returns (done: bool)
      modifies this, log
      ensures (Value(), done) == CompactNode(old(Value()), upTo, data)
    {
      if upTo <= log.snapIndex || upTo > lastApplied { return false; }
      var trim := upTo - log.snapIndex;
      if trim > |applied| { return false; }
      applied := applied[trim..];
      log.Compact(upTo, log.Value().TermAt(upTo), data);
      return true;
    }

    method BeginElection() returns (req: VoteRequest)
      modifies this, state
      ensures (Value(), req) == StartElection(old(Value()))
    {
      state.Set(state.currentTerm + 1, id);
      role, leaderId := Candidate, -1;
      return VoteRequest(state.currentTerm, id, log.Value().LastIndex(), log.Value().LastTerm());
    }

    method EndElection(electionTerm: nat, votes: nat)
      modifies this
      ensures Value() == FinishElection(old(Value()), electionTerm, votes)
    {
      if role == Candidate && state.currentTerm == electionTerm && votes >= size / 2 + 1 {
        role, leaderId := Leader, id;
        nextIndex, matchIndex := TrackPeers(id, size, log.Value().LastIndex() + 1);
      }
    }

    /** The first locked block of send_append_entries_to_peer. */
    method ChooseMessage(term: nat, next: nat) returns (choice: Choice)
      requires next > 0
      ensures choice == Choose(Value(), term, next)
      ensures choice == DropIt <==> !(role == Leader && state.currentTerm == term)
      ensures choice.SendSnapshot? <==> role == Leader && state.currentTerm == term && next <= log.snapIndex
      ensures choice.SendSnapshot? ==>
                && choice.req.term == state.currentTerm && choice.req.leader == id
                && choice.req.lastIndex == log.snapIndex && choice.req.lastTerm == log.snapTerm
                && choice.req.data == log.snapData
      ensures choice == GoOn ==> next > log.snapIndex
    {
      if role != Leader || state.currentTerm != term { return DropIt; }
      var l := log.Value();
      if next - 1 < l.snapIndex { return SendSnapshot(SnapshotRequest(term, id, l.snapIndex, l.snapTerm, l.snapData)); }
      return GoOn;
    }

    /** The second locked block; a node that no longer leads the term sends nothing. */
    method PrepareAppend(term: nat, next: nat) returns (send: bool, req: AppendRequest)
      requires next > 0
      ensures send == (role == Leader && state.currentTerm == term)
      ensures send ==> req == BuildAppend(Value(), next) && req.term == term
    {
      var terms, last := log.Value(), log.Value().LastIndex();
      var entries := [];
      if role != Leader || state.currentTerm != term { return false, AppendRequest(term, id, next - 1, 0, [], commitIndex); }
      for i := next to (if next <= last then last + 1 else next)
        invariant entries == LogSlice(terms, next)[..i - next]
      {
        entries := entries + [Entry(terms.TermAt(i), terms.CommandAt(i))];
      }
      return true, AppendRequest(term, id, next - 1, terms.TermAt(next - 1), entries, commitIndex);
    }

    method FinishAppend(term: nat, peer: nat, match': nat, reply: AppendReply)
      requires Value().Valid() && peer in Peers(id, size)
      modifies this, state
      ensures Value() == HandleAppendReply(old(Value()), term, peer, match', reply)
      ensures old(role) == Leader && reply.term <= old(state.currentTerm) == term && !reply.success ==>
                && nextIndex == old(nextIndex)[peer := if old(nextIndex[peer]) > 1 then old(nextIndex[peer]) - 1 else old(nextIndex[peer])]
                && Value() == old(Value()).(nextIndex := nextIndex)
    {
      if reply.term > state.currentTerm { StepDown(reply.term); return; }
      if role != Leader || state.currentTerm != term { return; }
      if reply.success {
        if match' > matchIndex[peer] { matchIndex := matchIndex[peer := match']; }
        nextIndex := nextIndex[peer := match' + 1];
        AdvanceCommitIndex();
      } else if nextIndex[peer] > 1 {
        nextIndex := nextIndex[peer := nextIndex[peer] - 1];
      }
    }

    method FinishSnapshot(term: nat, peer: nat, index: nat, replyTerm: nat)
      requires Value().Valid() && peer in Peers(id, size)
      modifies this, state
      ensures Value() == HandleSnapshotReply(old(Value()), term, peer, index, replyTerm)
    {
      if replyTerm > state.currentTerm { StepDown(replyTerm); return; }
      if role != Leader || state.currentTerm != term { return; }
      if index > matchIndex[peer] {
        matchIndex, nextIndex := matchIndex[peer := index], nextIndex[peer := index + 1];
      }
    }
  }
}
