/** A node with a compacted log beside the same node with its full log: whatever happens to the first
    happens to the second (cluster/raft_node.hpp, cluster/raft_log.hpp). */
module CompactingNode {
  import opened RaftLogs
  import opened CommitRule
  import opened RaftNodes
  import opened RaftCluster
  import Alignment
  import StateMachineSafety

  /** n is c with the full log behind its own, and with all the commands it has applied: those that c still
      lists follow the ones its snapshot covers. */
  ghost predicate SimNode(c: Node, n: Node) {
    && SameButLog(c, n) && c.log.snapIndex <= c.commitIndex == c.lastApplied == |n.applied|
    && c.applied == n.applied[c.log.snapIndex..]
  }

  ghost predicate SameButLog(c: Node, n: Node) {
    && n.log == Uncompacted(n.log.entries) && Represents(c.log, n.log.entries)
    && n == c.(log := n.log, applied := n.applied)
  }

  ghost predicate Real(entries: seq<Entry>) {
    forall k :: 0 <= k < |entries| ==> entries[k].command != ""
  }

  // ---- Reading the log ----

  lemma {:induction false} SameCommands(c: Log, n: Log, from: nat, last: nat)
    requires n == Uncompacted(n.entries) && Represents(c, n.entries) && c.snapIndex <= from
    ensures CommandsIn(c, from, last) == CommandsIn(n, from, last)
    decreases last
  {
    if last <= from {
    } else {
      SameCommands(c, n, from, last - 1);
      RepresentsObservations(c, n.entries);
    }
  }

  lemma RealCommands(n: Log, from: nat, last: nat)
    requires n == Uncompacted(n.entries) && Real(n.entries) && from <= last <= |n.entries|
    ensures |CommandsIn(n, from, last)| == last - from
  {
    forall i: nat | from < i <= last ensures n.CommandAt(i) != "" { }
    Alignment.AppliesEachIndex(n, from, last);
  }

  // ---- Applying ----

  lemma ApplySim(c: Node, n: Node, commit: nat)
    requires SimNode(c, n) && Real(n.log.entries) && c.commitIndex <= commit <= |n.log.entries|
    ensures SimNode(ApplyCommitted(c.(commitIndex := commit)), ApplyCommitted(n.(commitIndex := commit)))
  {
    SameCommands(c.log, n.log, c.lastApplied, commit);
    RealCommands(n.log, c.lastApplied, commit);
    LongerApplied(n.applied, CommandsIn(n.log, c.lastApplied, commit), c.log.snapIndex);
  }

  lemma LongerApplied(a: seq<string>, b: seq<string>, k: nat)
    requires k <= |a|
    ensures (a + b)[k..] == a[k..] + b
  {
  }

  /** Both decide alike: the index looked at lies above what is committed, and so above the snapshot. */
  lemma DecisionSim(c: Node, n: Node)
    requires SimNode(c, n) && c.Valid() && c.role == Leader
    ensures n.Valid() && Decision(c) == Decision(n)
  {
    RepresentsObservations(c.log, n.log.entries);
    assert ValuesOf(c) == ValuesOf(n) && |ValuesOf(n)| >= Majority(n.size) by { var d := Decision(n); }
    forall i: nat | i > n.commitIndex ensures TermsOf(c.log)(i) == TermsOf(n.log)(i) { }
    SameDecision(ValuesOf(n), n.size, n.commitIndex, n.term, TermsOf(c.log), TermsOf(n.log));
  }

  lemma SameDecision(values: seq<nat>, size: nat, commitIndex: nat, term: nat, f: nat -> nat, g: nat -> nat)
    requires |values| >= Majority(size) && forall i: nat :: i > commitIndex ==> f(i) == g(i)
    ensures NewCommitIndex(values, size, commitIndex, term, f) == NewCommitIndex(values, size, commitIndex, term, g)
  {
  }

  lemma AdvanceSim(c: Node, n: Node)
    requires SimNode(c, n) && c.Valid() && c.role == Leader && Real(n.log.entries)
    requires n.Valid() && AdvanceCommit(n).commitIndex <= |n.log.entries|
    ensures SimNode(AdvanceCommit(c), AdvanceCommit(n))
  {
    DecisionSim(c, n);
    if Decision(n) > n.commitIndex { ApplySim(c, n, Decision(n)); }
  }

  // ---- Steps ----

  lemma ElectionSim(c: Node, n: Node)
    requires SimNode(c, n)
    ensures SimNode(StartElection(c).0, StartElection(n).0) && StartElection(c).1 == StartElection(n).1
  {
    RepresentsObservations(c.log, n.log.entries);
  }

  lemma VoteSim(c: Node, n: Node, req: VoteRequest)
    requires SimNode(c, n)
    ensures SimNode(HandleVote(c, req).0, HandleVote(n, req).0) && HandleVote(c, req).1 == HandleVote(n, req).1
  {
    RepresentsObservations(c.log, n.log.entries);
  }

  lemma WinSim(c: Node, n: Node, electionTerm: nat, votes: nat)
    requires SimNode(c, n)
    ensures SimNode(FinishElection(c, electionTerm, votes), FinishElection(n, electionTerm, votes))
  {
    RepresentsObservations(c.log, n.log.entries);
  }

  lemma ProposeSim(c: Node, n: Node, command: string)
    requires SimNode(c, n) && c.Valid() && c.role == Leader && Real(n.log.entries) && command != ""
    requires n.Valid() && Propose(n, command).commitIndex <= |n.log.entries| + 1
    ensures SimNode(Propose(c, command), Propose(n, command))
  {
    var c', n' := c.(log := c.log.Append(c.term, command)), n.(log := n.log.Append(n.term, command));
    AppendRefines(c.log, n.log.entries, c.term, command);
    assert n'.log.entries == n.log.entries + [Entry(n.term, command)];
    AdvanceSim(c', n');
  }

  lemma ReplySim(c: Node, n: Node, term: nat, peer: nat, matched: nat, reply: AppendReply)
    requires SimNode(c, n) && c.Valid() && n.Valid() && peer in Peers(n.id, n.size) && Real(n.log.entries)
    requires HandleAppendReply(n, term, peer, matched, reply).commitIndex <= |n.log.entries|
    ensures SimNode(HandleAppendReply(c, term, peer, matched, reply), HandleAppendReply(n, term, peer, matched, reply))
  {
    if reply.term <= n.term && n.role == Leader && n.term == term && reply.success {
      AdvanceSim(Heard(c, peer, matched), Heard(n, peer, matched));
    }
  }

  /** A request built above the snapshot is the one the full log gives. */
  lemma RequestSim(c: Node, n: Node, next: nat)
    requires SimNode(c, n) && next > c.log.snapIndex
    ensures BuildAppend(c, next) == BuildAppend(n, next)
  {
    RepresentsObservations(c.log, n.log.entries);
    var a, b := LogSlice(c.log, next), LogSlice(n.log, next);
    forall k | 0 <= k < |a| ensures a[k] == b[k] { assert next + k > c.log.snapIndex; }
    assert a == b;
  }

  /** A restarted node finds applied what its snapshot covers. */
  lemma RestartSim(c: Node, n: Node)
    requires SimNode(c, n) && Real(n.log.entries)
    ensures RestartAt(c, c.log.snapIndex) == Restart(c)
    ensures SimNode(Restart(c), RestartAt(n, c.log.snapIndex))
  {
    NothingInside(c.log, c.log.snapIndex);
    RealCommands(n.log, 0, c.log.snapIndex);
  }

  lemma {:induction false} NothingInside(log: Log, last: nat)
    requires last <= log.snapIndex
    ensures CommandsIn(log, 0, last) == []
  {
    if last == 0 {
    } else {
      NothingInside(log, last - 1);
    }
  }

  lemma CompactSim(c: Node, n: Node, upTo: nat, data: string)
    requires SimNode(c, n) && n.commitIndex <= |n.log.entries|
    ensures SimNode(CompactNode(c, upTo, data).0, n)
  {
    if c.log.snapIndex < upTo <= c.lastApplied && upTo - c.log.snapIndex <= |c.applied| {
      CompactRefines(c.log, n.log.entries, upTo, data);
    }
  }

  // ---- Requests ----

  /** What an accepted request does, apart from the answer. */
  function Accept(n: Node, a: AppendRequest): Node {
    var n := Observe(n, a.term).(role := Follower, leaderId := a.leader);
    if a.entries == [] then n else n.(log := n.log.TruncateAndAppend(a.prevIndex, a.entries))
  }

  function TakeCommit(n: Node, commit: nat): Node {
    if commit <= n.commitIndex then n else ApplyCommitted(n.(commitIndex := Min(commit, n.log.LastIndex())))
  }

  lemma HandleAppendIs(n: Node, a: AppendRequest)
    ensures HandleAppend(n, a) ==
            if a.term < n.term then (n, AppendReply(n.term, false))
            else if !PrevMatches(n.log, a.prevIndex, a.prevTerm) then
              (Observe(n, a.term).(role := Follower, leaderId := a.leader), AppendReply(a.term, false))
            else (TakeCommit(Accept(n, a), a.leaderCommit), AppendReply(a.term, true))
  {
  }

  lemma TakeCommitSim(c: Node, n: Node, commit: nat)
    requires SimNode(c, n) && Real(n.log.entries) && n.commitIndex <= |n.log.entries|
    ensures SimNode(TakeCommit(c, commit), TakeCommit(n, commit))
  {
    RepresentsObservations(c.log, n.log.entries);
    if commit > n.commitIndex { ApplySim(c, n, Min(commit, n.log.LastIndex())); }
  }

  /** The request agrees with the node on what its snapshot covers, and covers it if it has entries. */
  ghost predicate AgreesInside(c: Log, n: Log, a: AppendRequest) {
    && (0 < a.prevIndex <= c.snapIndex ==> n.TermAt(a.prevIndex) == a.prevTerm)
    && (a.entries != [] && a.prevIndex < c.snapIndex ==>
          c.snapIndex <= LastCovered(a) && a.entries[c.snapIndex - a.prevIndex - 1].term == n.TermAt(c.snapIndex))
  }

  lemma AcceptSim(c: Node, n: Node, a: AppendRequest)
    requires SimNode(c, n) && AgreesInside(c.log, n.log, a) && a.prevIndex <= |n.log.entries|
    ensures SimNode(Accept(c, a), Accept(n, a))
  {
    if a.entries != [] { TruncateRefines(c.log, n.log.entries, a.prevIndex, a.entries); }
  }

  lemma PrevSim(c: Node, n: Node, a: AppendRequest)
    requires SimNode(c, n) && AgreesInside(c.log, n.log, a)
    ensures PrevMatches(c.log, a.prevIndex, a.prevTerm) <==> PrevMatches(n.log, a.prevIndex, a.prevTerm)
    ensures PrevMatches(n.log, a.prevIndex, a.prevTerm) ==> a.prevIndex <= |n.log.entries|
  {
    RepresentsObservations(c.log, n.log.entries);
  }

  lemma AcceptedSim(c: Node, n: Node, a: AppendRequest)
    requires SimNode(c, n) && AgreesInside(c.log, n.log, a) && a.prevIndex <= |n.log.entries|
    requires Real(Accept(n, a).log.entries) && n.commitIndex <= |Accept(n, a).log.entries|
    ensures SimNode(TakeCommit(Accept(c, a), a.leaderCommit), TakeCommit(Accept(n, a), a.leaderCommit))
  {
    AcceptSim(c, n, a);
    TakeCommitSim(Accept(c, a), Accept(n, a), a.leaderCommit);
  }

  lemma AppendSim(c: Node, n: Node, a: AppendRequest)
    requires SimNode(c, n) && AgreesInside(c.log, n.log, a)
    requires a.term >= n.term && PrevMatches(n.log, a.prevIndex, a.prevTerm) ==>
               Real(Accept(n, a).log.entries) && n.commitIndex <= |Accept(n, a).log.entries|
    ensures SimNode(HandleAppend(c, a).0, HandleAppend(n, a).0) && HandleAppend(c, a).1 == HandleAppend(n, a).1
  {
    HandleAppendIs(c, a);
    HandleAppendIs(n, a);
    PrevSim(c, n, a);
    if a.term >= n.term && PrevMatches(n.log, a.prevIndex, a.prevTerm) { AcceptedSim(c, n, a); }
  }

  // ---- Snapshots ----

  /** The news that a prefix of the leader's log is committed. */
  function News(req: SnapshotRequest): AppendRequest {
    AppendRequest(req.term, req.leader, req.lastIndex, req.lastTerm, [], req.lastIndex)
  }

  /** The prefix itself. */
  function Whole(req: SnapshotRequest, prefix: seq<Entry>): AppendRequest {
    AppendRequest(req.term, req.leader, 0, 0, prefix, req.lastIndex)
  }

  predicate Ignored(c: Node, req: SnapshotRequest) {
    req.term < c.term || req.lastIndex <= c.log.snapIndex
  }

  /** The node has the entry that the snapshot ends with. */
  predicate HasLast(c: Node, req: SnapshotRequest) {
    c.log.HasRealEntryAt(req.lastIndex) && c.log.TermAt(req.lastIndex) == req.lastTerm
  }

  /** What a snapshot is to the node: news, or the entries themselves. */
  function Standing(c: Node, req: SnapshotRequest, prefix: seq<Entry>): AppendRequest {
    if Ignored(c, req) || HasLast(c, req) then News(req) else Whole(req, prefix)
  }

  /** The condition under which the code does what section 7 of the Raft paper says. */
  predicate PaperLike(c: Node, req: SnapshotRequest) {
    Ignored(c, req) || c.log.LastIndex() <= req.lastIndex || c.log.TermAt(req.lastIndex) == req.lastTerm
  }

  ghost predicate Stands(n: Node, req: SnapshotRequest, prefix: seq<Entry>) {
    && 0 < |prefix| == req.lastIndex && prefix[|prefix| - 1].term == req.lastTerm && Real(prefix)
    && (req.term >= n.term && req.lastIndex <= n.commitIndex ==> n.log.TermAt(req.lastIndex) == req.lastTerm)
  }

  lemma IgnoredSim(c: Node, n: Node, req: SnapshotRequest, prefix: seq<Entry>)
    requires SimNode(c, n) && Stands(n, req, prefix) && n.commitIndex <= |n.log.entries| && Ignored(c, req)
    ensures SimNode(HandleSnapshot(c, req), HandleAppend(n, News(req)).0)
    ensures HandleAppend(n, News(req)).1 == AppendReply(HandleSnapshot(c, req).term, req.term >= c.term)
  {
    HandleAppendIs(n, News(req));
  }

  /** The node as it follows the sender. */
  function Following(n: Node, term: nat, leader: nat): Node {
    Observe(n, term).(role := Follower, leaderId := leader)
  }

  /** The node once its log is replaced by one that begins at a snapshot it did not have. */
  function Cut(c: Node, log: Log): Node
    requires log.snapIndex >= c.log.snapIndex
  {
    var upTo := log.snapIndex;
    c.(applied := c.applied[Min(upTo - c.log.snapIndex, |c.applied|)..], log := log,
       lastApplied := if upTo > c.lastApplied then upTo else c.lastApplied,
       commitIndex := if upTo > c.commitIndex then upTo else c.commitIndex)
  }

  lemma SnapshotEffect(c: Node, req: SnapshotRequest)
    requires !Ignored(c, req)
    ensures var log := c.log.Compact(req.lastIndex, req.lastTerm, req.data);
            && log.snapIndex == req.lastIndex >= c.log.snapIndex
            && HandleSnapshot(c, req) == Cut(Following(c, req.term, req.leader), log)
  {
  }

  lemma FollowingSim(c: Node, n: Node, term: nat, leader: nat)
    requires SimNode(c, n)
    ensures SimNode(Following(c, term, leader), Following(n, term, leader))
  {
  }

  /** Cutting, where n' has applied as much as n, and up to the cut at least. */
  lemma CutSim(c: Node, n: Node, n': Node, log: Log)
    requires SimNode(c, n) && c.log.snapIndex < log.snapIndex
    requires n' == n.(log := n'.log, commitIndex := n'.commitIndex, lastApplied := n'.lastApplied, applied := n'.applied)
    requires n'.log == Uncompacted(n'.log.entries) && Represents(log, n'.log.entries) && n.applied <= n'.applied
    requires n'.commitIndex == n'.lastApplied == |n'.applied| == (if log.snapIndex > n.commitIndex then log.snapIndex else n.commitIndex)
    ensures SimNode(Cut(c, log), n')
  {
    var upTo, k := log.snapIndex, Min(log.snapIndex - c.log.snapIndex, |c.applied|);
    if upTo <= n.commitIndex {
      assert n'.applied == n.applied && c.applied[k..] == n.applied[upTo..];
    } else {
      assert k == |c.applied| && c.applied[k..] == [] == n'.applied[upTo..];
    }
  }

  lemma ApplyExtends(n: Node, commit: nat)
    requires n.log == Uncompacted(n.log.entries) && Real(n.log.entries)
    requires n.lastApplied == |n.applied| <= commit <= |n.log.entries| && n.commitIndex <= commit
    ensures var n' := ApplyCommitted(n.(commitIndex := commit));
            && n' == n.(commitIndex := commit, lastApplied := commit, applied := n'.applied)
            && |n'.applied| == commit && n.applied <= n'.applied
  {
    RealCommands(n.log, n.lastApplied, commit);
  }

  lemma NewsEffect(n: Node, req: SnapshotRequest)
    requires req.term >= n.term && PrevMatches(n.log, req.lastIndex, req.lastTerm)
    ensures HandleAppend(n, News(req)) ==
            (TakeCommit(Following(n, req.term, req.leader), req.lastIndex), AppendReply(req.term, true))
  {
    HandleAppendIs(n, News(req));
  }

  lemma NewsCommits(n: Node, last: nat)
    requires n.log == Uncompacted(n.log.entries) && Real(n.log.entries) && last <= |n.log.entries|
    requires n.commitIndex == n.lastApplied == |n.applied|
    ensures var n' := TakeCommit(n, last);
            && n' == n.(commitIndex := n'.commitIndex, lastApplied := n'.lastApplied, applied := n'.applied)
            && n'.commitIndex == n'.lastApplied == |n'.applied| == (if last > n.commitIndex then last else n.commitIndex)
            && n.applied <= n'.applied
  {
    if last > n.commitIndex { ApplyExtends(n, last); }
  }

  /** The node has the entries already: it only learns that they are committed, and drops them. */
  lemma NewsSim(c: Node, n: Node, req: SnapshotRequest)
    requires SimNode(c, n) && Real(n.log.entries) && !Ignored(c, req) && HasLast(c, req)
    ensures SimNode(HandleSnapshot(c, req), HandleAppend(n, News(req)).0)
    ensures HandleAppend(n, News(req)).1 == AppendReply(HandleSnapshot(c, req).term, true)
  {
    var c1, n1 := Following(c, req.term, req.leader), Following(n, req.term, req.leader);
    RepresentsObservations(c.log, n.log.entries);
    NewsEffect(n, req);
    SnapshotEffect(c, req);
    FollowingSim(c, n, req.term, req.leader);
    NewsCommits(n1, req.lastIndex);
    CompactRefines(c.log, n.log.entries, req.lastIndex, req.data);
    CutSim(c1, n1, TakeCommit(n1, req.lastIndex), c.log.Compact(req.lastIndex, req.lastTerm, req.data));
  }

  /** Otherwise all it has committed lies below the end of the snapshot, and it has nothing above. */
  lemma SnapshotIsAhead(c: Node, n: Node, req: SnapshotRequest, prefix: seq<Entry>)
    requires SimNode(c, n) && Stands(n, req, prefix) && n.commitIndex <= |n.log.entries|
    requires !Ignored(c, req) && !HasLast(c, req) && PaperLike(c, req)
    ensures n.commitIndex < req.lastIndex && c.log.LastIndex() <= req.lastIndex
  {
    RepresentsObservations(c.log, n.log.entries);
  }

  lemma WholeEffect(n: Node, req: SnapshotRequest, prefix: seq<Entry>)
    requires req.term >= n.term && n.log == Uncompacted(n.log.entries) && prefix != []
    ensures HandleAppend(n, Whole(req, prefix)) ==
            (TakeCommit(Following(n, req.term, req.leader).(log := Uncompacted(prefix)), req.lastIndex), AppendReply(req.term, true))
  {
    HandleAppendIs(n, Whole(req, prefix));
    assert n.log.TruncateAndAppend(0, prefix) == Uncompacted(prefix);
  }

  lemma EmptiedLog(log: Log, upTo: nat, term: nat, data: string)
    requires log.snapIndex < upTo && log.LastIndex() <= upTo
    ensures log.Compact(upTo, term, data) == Log(upTo, term, data, [])
  {
  }

  lemma StandsForPrefix(req: SnapshotRequest, prefix: seq<Entry>)
    requires 0 < |prefix| == req.lastIndex && prefix[|prefix| - 1].term == req.lastTerm
    ensures Represents(Log(req.lastIndex, req.lastTerm, req.data, []), prefix)
  {
  }

  /** The node takes the entries over. */
  lemma WholeSim(c: Node, n: Node, req: SnapshotRequest, prefix: seq<Entry>)
    requires SimNode(c, n) && Stands(n, req, prefix) && n.commitIndex <= |n.log.entries|
    requires !Ignored(c, req) && !HasLast(c, req) && PaperLike(c, req)
    ensures SimNode(HandleSnapshot(c, req), HandleAppend(n, Whole(req, prefix)).0)
    ensures HandleAppend(n, Whole(req, prefix)).1 == AppendReply(HandleSnapshot(c, req).term, true)
  {
    var c1, n1 := Following(c, req.term, req.leader), Following(n, req.term, req.leader);
    var n2 := n1.(log := Uncompacted(prefix));
    SnapshotIsAhead(c, n, req, prefix);
    WholeEffect(n, req, prefix);
    SnapshotEffect(c, req);
    EmptiedLog(c.log, req.lastIndex, req.lastTerm, req.data);
    StandsForPrefix(req, prefix);
    FollowingSim(c, n, req.term, req.leader);
    NewsCommits(n2, req.lastIndex);
    CutSim(c1, n1, TakeCommit(n2, req.lastIndex), Log(req.lastIndex, req.lastTerm, req.data, []));
  }

  lemma SnapshotSim(c: Node, n: Node, req: SnapshotRequest, prefix: seq<Entry>)
    requires SimNode(c, n) && Stands(n, req, prefix) && Real(n.log.entries) && n.commitIndex <= |n.log.entries|
    requires PaperLike(c, req)
    ensures var a := Standing(c, req, prefix);
            && CutsNothing(n, a) && SimNode(HandleSnapshot(c, req), HandleAppend(n, a).0)
            && HandleAppend(n, a).1 == AppendReply(HandleSnapshot(c, req).term, req.term >= c.term)
  {
    if Ignored(c, req) {
      IgnoredSim(c, n, req, prefix);
    } else if HasLast(c, req) {
      NewsSim(c, n, req);
    } else {
      WholeSim(c, n, req, prefix);
      RepresentsObservations(c.log, n.log.entries);
    }
  }

  lemma SnapshotReplySim(c: Node, n: Node, term: nat, peer: nat, index: nat, replyTerm: nat)
    requires SimNode(c, n) && c.Valid() && n.Valid() && peer in Peers(n.id, n.size)
    ensures SimNode(HandleSnapshotReply(c, term, peer, index, replyTerm), HandleSnapshotReply(n, term, peer, index, replyTerm))
  {
  }
}
