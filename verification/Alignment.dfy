/** What a node has applied, across append, snapshots, compaction and restart (cluster/raft_node.hpp).

    `committed` is the list of entries the cluster has committed so far. A run here is one node and
    everything that can happen to it; what the cluster guarantees about the messages is stated in `Fits`. */
module Alignment {
  import opened RaftLogs
  import opened RaftNodes

  /** The commands of a list of entries, one for each entry. */
  function Commands(entries: seq<Entry>): (cs: seq<string>)
    ensures |cs| == |entries| && forall i :: 0 <= i < |cs| ==> cs[i] == entries[i].command
  {
    if entries == [] then [] else Commands(entries[..|entries| - 1]) + [entries[|entries| - 1].command]
  }

  /** The log holds the committed entries above its snapshot up to index `upTo`. */
  ghost predicate Holds(log: Log, upTo: nat, committed: seq<Entry>) {
    && log.snapIndex <= upTo <= log.LastIndex() && upTo <= |committed|
    && log.entries[..upTo - log.snapIndex] == committed[log.snapIndex..upTo]
  }

  /** The applied list is exactly the committed commands from just above the snapshot to the last
      applied index, which is the commit index. */
  ghost predicate Aligned(n: Node, committed: seq<Entry>) {
    && n.lastApplied == n.commitIndex
    && Holds(n.log, n.commitIndex, committed)
    && n.applied == Commands(committed[n.log.snapIndex..n.commitIndex])
  }

  ghost predicate NonEmpty(entries: seq<Entry>) {
    forall i :: 0 <= i < |entries| ==> entries[i].command != ""
  }

  // ---- One node and what happens to it ----

  datatype Event =
    | OnVote(vote: VoteRequest)
    | OnAppend(req: AppendRequest, leaderLog: seq<Entry>)
    | OnSnapshot(snapshot: SnapshotRequest)
    | OnCompact(upTo: nat, data: string)
    | OnTimeout
    | OnWin(electionTerm: nat, votes: nat)
    | OnPropose(command: string)
    | OnReply(term: nat, peer: nat, matched: nat, reply: AppendReply)
    | OnSnapshotReply(term: nat, peer: nat, index: nat, replyTerm: nat)
    | OnHigherTerm(seen: nat)
    | OnRestart

  ghost predicate Ready(n: Node, e: Event) {
    n.Valid() && (e.OnReply? || e.OnSnapshotReply? ==> e.peer in Peers(n.id, n.size))
  }

  function Handle(n: Node, e: Event): Node
    requires Ready(n, e)
  {
    match e
    case OnVote(vote) => HandleVote(n, vote).0
    case OnAppend(req, _) => HandleAppend(n, req).0
    case OnSnapshot(snapshot) => HandleSnapshot(n, snapshot)
    case OnCompact(upTo, data) => CompactNode(n, upTo, data).0
    case OnTimeout => StartElection(n).0
    case OnWin(electionTerm, votes) => FinishElection(n, electionTerm, votes)
    case OnPropose(command) => Propose(n, command)
    case OnReply(term, peer, matched, reply) => HandleAppendReply(n, term, peer, matched, reply)
    case OnSnapshotReply(term, peer, index, replyTerm) => HandleSnapshotReply(n, term, peer, index, replyTerm)
    case OnHigherTerm(seen) => Observe(n, seen)
    case OnRestart => Restart(n)
  }

  /** The first c entries of both are there and the same. */
  ghost predicate AgreeUpTo(a: seq<Entry>, b: seq<Entry>, c: nat) {
    c <= |a| && c <= |b| && a[..c] == b[..c]
  }

  /** What an accepted request says: it carries the sender's log `leaderLog` from `prevIndex` on, the commit
      index it announces is right for that log, a matching previous entry means matching logs up to it, and a
      request with entries covers what the node has committed. */
  ghost predicate RequestFits(n: Node, req: AppendRequest, leaderLog: seq<Entry>, committed: seq<Entry>) {
    && |leaderLog| == req.prevIndex + |req.entries| && leaderLog[req.prevIndex..] == req.entries
    && AgreeUpTo(leaderLog, committed, req.leaderCommit)
    && (n.log.HasRealEntryAt(req.prevIndex) && n.log.TermAt(req.prevIndex) == req.prevTerm ==>
          n.log.entries[..req.prevIndex - n.log.snapIndex] == leaderLog[n.log.snapIndex..req.prevIndex])
    && (req.entries != [] ==> AgreeUpTo(leaderLog, committed, n.commitIndex))
  }

  predicate Accepts(n: Node, req: AppendRequest) {
    req.term >= n.term && PrevMatches(n.log, req.prevIndex, req.prevTerm)
  }

  /** What the rest of the cluster guarantees about an event, with `committed` committed by then. */
  ghost predicate Fits(n: Node, e: Event, committed: seq<Entry>)
    requires Ready(n, e)
  {
    match e
    case OnAppend(req, leaderLog) => Accepts(n, req) ==> RequestFits(n, req, leaderLog, committed)
    case OnSnapshot(snapshot) => snapshot.lastIndex <= |committed|
    case OnPropose(_) => CommitsCommitted(n, e, committed)
    case OnReply(_, _, _, _) => CommitsCommitted(n, e, committed)
    case _ => true
  }

  /** Whatever a leader newly counts as committed is in the committed list. */
  ghost predicate CommitsCommitted(n: Node, e: Event, committed: seq<Entry>)
    requires Ready(n, e)
  {
    var n' := Handle(n, e);
    n'.commitIndex > n.commitIndex ==> Holds(n'.log, n'.commitIndex, committed)
  }

  // ---- Applying ----

  /** Every index above `from` up to `last` has a command to apply. */
  predicate AllReal(log: Log, from: nat, last: nat) {
    forall i: nat :: from < i <= last ==> log.CommandAt(i) != ""
  }

  /** Applying a stretch of the log adds one command for each index exactly when none of them is empty,
      and then each is the command of its index. */
  lemma {:induction false} AppliesEachIndex(log: Log, from: nat, last: nat)
    requires from <= last
    ensures |CommandsIn(log, from, last)| <= last - from
    ensures |CommandsIn(log, from, last)| == last - from <==> AllReal(log, from, last)
    ensures AllReal(log, from, last) ==>
              forall k: nat :: k < last - from ==> CommandsIn(log, from, last)[k] == log.CommandAt(from + 1 + k)
    decreases last
  {
    if last == from {
    } else {
      AppliesEachIndex(log, from, last - 1);
      var front := CommandsIn(log, from, last - 1);
      if AllReal(log, from, last) {
        assert AllReal(log, from, last - 1) && CommandsIn(log, from, last) == front + [log.CommandAt(last)];
      } else if AllReal(log, from, last - 1) {
        assert log.CommandAt(last) == "";
      }
    }
  }

  lemma CommandsSplit(entries: seq<Entry>, a: nat, b: nat, c: nat)
    requires a <= b <= c <= |entries|
    ensures Commands(entries[a..c]) == Commands(entries[a..b]) + Commands(entries[b..c])
  {
    assert entries[a..c] == entries[a..b] + entries[b..c];
  }

  lemma PartOfPrefix(s: seq<Entry>, a: nat, b: nat)
    requires a <= b <= |s|
    ensures s[..b][a..] == s[a..b]
  {
  }

  lemma PartOfPart(s: seq<Entry>, a: nat, b: nat, c: nat)
    requires a <= b <= c <= |s|
    ensures s[a..c][b - a..] == s[b..c]
  {
  }

  /** The committed entries between two indices lie in the log where they should. */
  lemma HeldPart(log: Log, from: nat, upTo: nat, committed: seq<Entry>)
    requires Holds(log, upTo, committed) && log.snapIndex <= from <= upTo
    ensures log.entries[from - log.snapIndex..upTo - log.snapIndex] == committed[from..upTo]
  {
    PartOfPrefix(log.entries, from - log.snapIndex, upTo - log.snapIndex);
    PartOfPart(committed, log.snapIndex, from, upTo);
  }

  lemma HeldCommand(log: Log, upTo: nat, committed: seq<Entry>, i: nat)
    requires Holds(log, upTo, committed) && log.snapIndex < i <= upTo
    ensures log.CommandAt(i) == committed[i - 1].command
  {
    assert log.entries[..upTo - log.snapIndex][i - 1 - log.snapIndex] == committed[log.snapIndex..upTo][i - 1 - log.snapIndex];
  }

  lemma AppliesCommitted(log: Log, from: nat, upTo: nat, committed: seq<Entry>)
    requires NonEmpty(committed) && Holds(log, upTo, committed) && log.snapIndex <= from <= upTo
    ensures CommandsIn(log, from, upTo) == Commands(committed[from..upTo])
  {
    forall i: nat | from < i <= upTo ensures log.CommandAt(i) == committed[i - 1].command != "" {
      HeldCommand(log, upTo, committed, i);
    }
    AppliesEachIndex(log, from, upTo);
    var applied, part := CommandsIn(log, from, upTo), committed[from..upTo];
    forall k: nat | k < upTo - from ensures applied[k] == Commands(part)[k] {
      assert applied[k] == log.CommandAt(from + 1 + k) && part[k] == committed[from + k];
    }
  }

  /** Applying up to a higher commit index keeps a node aligned. */
  lemma ApplyAligns(n: Node, commit: nat, committed: seq<Entry>)
    requires n.lastApplied == n.commitIndex <= commit && n.log.snapIndex <= n.commitIndex
    requires NonEmpty(committed) && Holds(n.log, commit, committed)
    requires n.applied == Commands(committed[n.log.snapIndex..n.commitIndex])
    ensures Aligned(ApplyCommitted(n.(commitIndex := commit)), committed)
  {
    AppliesCommitted(n.log, n.commitIndex, commit, committed);
    CommandsSplit(committed, n.log.snapIndex, n.commitIndex, commit);
    if n.commitIndex == commit { assert committed[n.commitIndex..commit] == []; }
  }

  // ---- Each event keeps a node aligned ----

  lemma AgreeingStretch(a: seq<Entry>, b: seq<Entry>, from: nat, last: nat)
    requires AgreeUpTo(a, b, last) && from <= last
    ensures a[from..last] == b[from..last]
  {
    assert a[from..last] == a[..last][from..] && b[from..last] == b[..last][from..];
  }

  /** After an accepted request the log holds what it held before, up to the larger of the two commit indices. */
  lemma AcceptedLogHolds(n: Node, req: AppendRequest, leaderLog: seq<Entry>, committed: seq<Entry>)
    requires RequestFits(n, req, leaderLog, committed) && Holds(n.log, n.commitIndex, committed)
    requires PrevMatches(n.log, req.prevIndex, req.prevTerm)
    ensures var log' := if req.entries == [] then n.log else n.log.TruncateAndAppend(req.prevIndex, req.entries);
            && log'.snapIndex == n.log.snapIndex
            && Holds(log', n.commitIndex, committed)
            && (req.leaderCommit > n.commitIndex ==> Holds(log', req.leaderCommit, committed))
  {
    var snap := n.log.snapIndex;
    if req.entries == [] {
      if req.leaderCommit > n.commitIndex {
        assert n.log.entries[..req.leaderCommit - snap] ==
               n.log.entries[..req.prevIndex - snap][..req.leaderCommit - snap] == leaderLog[snap..req.leaderCommit];
        AgreeingStretch(leaderLog, committed, snap, req.leaderCommit);
      }
    } else {
      var log' := n.log.TruncateAndAppend(req.prevIndex, req.entries);
      AcceptedLogIsLeaders(n.log, req, leaderLog);
      assert log'.entries[..n.commitIndex - snap] == leaderLog[snap..n.commitIndex];
      AgreeingStretch(leaderLog, committed, snap, n.commitIndex);
      if req.leaderCommit > n.commitIndex {
        assert log'.entries[..req.leaderCommit - snap] == leaderLog[snap..req.leaderCommit];
        AgreeingStretch(leaderLog, committed, snap, req.leaderCommit);
      }
    }
  }

  /** What an accepted request leaves above the snapshot is the leader's log. */
  lemma AcceptedLogIsLeaders(log: Log, req: AppendRequest, leaderLog: seq<Entry>)
    requires |leaderLog| == req.prevIndex + |req.entries| && leaderLog[req.prevIndex..] == req.entries
    requires log.snapIndex <= |leaderLog| && req.prevIndex <= log.LastIndex()
    requires req.prevIndex > log.snapIndex ==>
               log.entries[..req.prevIndex - log.snapIndex] == leaderLog[log.snapIndex..req.prevIndex]
    ensures log.TruncateAndAppend(req.prevIndex, req.entries).entries == leaderLog[log.snapIndex..]
  {
    if req.prevIndex <= log.snapIndex {
      assert req.entries[log.snapIndex - req.prevIndex..] == leaderLog[log.snapIndex..];
    }
  }

  /** A node that accepted a request, before it looks at the leader's commit index. */
  function Accepted(n: Node, req: AppendRequest): Node {
    Observe(n, req.term).(
      role := Follower, leaderId := req.leader,
      log := if req.entries == [] then n.log else n.log.TruncateAndAppend(req.prevIndex, req.entries))
  }

  lemma AppendIsAcceptThenApply(n: Node, req: AppendRequest)
    ensures var n' := HandleAppend(n, req).0;
            if req.term < n.term || !PrevMatches(n.log, req.prevIndex, req.prevTerm) then
              n'.log == n.log && n'.commitIndex == n.commitIndex && n'.lastApplied == n.lastApplied && n'.applied == n.applied
            else if req.leaderCommit <= n.commitIndex then n' == Accepted(n, req)
            else n' == ApplyCommitted(Accepted(n, req).(commitIndex := Min(req.leaderCommit, Accepted(n, req).log.LastIndex())))
  {
  }

  lemma AcceptedAligns(n: Node, m: Node, leaderCommit: nat, committed: seq<Entry>)
    requires Aligned(n, committed) && NonEmpty(committed)
    requires m.commitIndex == n.commitIndex && m.lastApplied == n.lastApplied && m.applied == n.applied
    requires m.log.snapIndex == n.log.snapIndex && Holds(m.log, m.commitIndex, committed)
    requires leaderCommit > m.commitIndex ==> Holds(m.log, leaderCommit, committed)
    ensures Aligned(m, committed)
    ensures leaderCommit > m.commitIndex ==>
              Aligned(ApplyCommitted(m.(commitIndex := Min(leaderCommit, m.log.LastIndex()))), committed)
  {
    if leaderCommit > m.commitIndex {
      ApplyAligns(m, leaderCommit, committed);
    }
  }

  lemma AppendAligns(n: Node, req: AppendRequest, leaderLog: seq<Entry>, committed: seq<Entry>)
    requires Aligned(n, committed) && NonEmpty(committed)
    requires Accepts(n, req) ==> RequestFits(n, req, leaderLog, committed)
    ensures Aligned(HandleAppend(n, req).0, committed)
  {
    AppendIsAcceptThenApply(n, req);
    if Accepts(n, req) {
      AcceptedLogHolds(n, req, leaderLog, committed);
      AcceptedAligns(n, Accepted(n, req), req.leaderCommit, committed);
    }
  }

  /** Dropping what a snapshot up to `upTo` covers from the front of the log and of the applied list. */
  lemma TrimmedFront(n: Node, upTo: nat, committed: seq<Entry>)
    requires Aligned(n, committed) && n.log.snapIndex <= upTo <= n.commitIndex
    ensures n.log.entries[upTo - n.log.snapIndex..n.commitIndex - n.log.snapIndex] == committed[upTo..n.commitIndex]
    ensures n.applied[upTo - n.log.snapIndex..] == Commands(committed[upTo..n.commitIndex])
  {
    HeldPart(n.log, upTo, n.commitIndex, committed);
    CommandsSplit(committed, n.log.snapIndex, upTo, n.commitIndex);
  }

  lemma CutThenTake(s: seq<Entry>, a: nat, b: nat)
    requires a <= b <= |s|
    ensures s[a..][..b - a] == s[a..b]
  {
  }

  /** A log compacted at or below the commit index still holds the rest. */
  lemma CompactedHolds(n: Node, upTo: nat, term: nat, data: string, committed: seq<Entry>)
    requires Aligned(n, committed) && n.log.snapIndex < upTo <= n.commitIndex
    ensures Holds(n.log.Compact(upTo, term, data), n.commitIndex, committed)
  {
    HeldPart(n.log, upTo, n.commitIndex, committed);
    CutThenTake(n.log.entries, upTo - n.log.snapIndex, n.commitIndex - n.log.snapIndex);
  }

  lemma SnapshotAheadAligns(n: Node, req: SnapshotRequest, committed: seq<Entry>)
    requires Aligned(n, committed) && req.term >= n.term && n.commitIndex < req.lastIndex <= |committed|
    ensures Aligned(HandleSnapshot(n, req), committed)
  {
    var n' := HandleSnapshot(n, req);
    assert n'.log == n.log.Compact(req.lastIndex, req.lastTerm, req.data) && n'.log.entries[..0] == [];
    assert n'.applied == [] && committed[req.lastIndex..req.lastIndex] == [];
    assert n'.log.snapIndex == n'.commitIndex == n'.lastApplied == req.lastIndex;
  }

  /** A node with its log and applied list cut at an index it has applied. */
  lemma CutAligns(n: Node, n': Node, upTo: nat, term: nat, data: string, committed: seq<Entry>)
    requires Aligned(n, committed) && n.log.snapIndex < upTo <= n.commitIndex
    requires n'.log == n.log.Compact(upTo, term, data) && n'.commitIndex == n.commitIndex && n'.lastApplied == n.lastApplied
    requires upTo - n.log.snapIndex <= |n.applied| && n'.applied == n.applied[upTo - n.log.snapIndex..]
    ensures Aligned(n', committed)
  {
    TrimmedFront(n, upTo, committed);
    CompactedHolds(n, upTo, term, data, committed);
  }

  lemma SnapshotBehindCuts(n: Node, req: SnapshotRequest)
    requires req.term >= n.term && n.log.snapIndex < req.lastIndex <= n.commitIndex == n.lastApplied
    requires |n.applied| == n.commitIndex - n.log.snapIndex
    ensures var n' := HandleSnapshot(n, req);
            && n'.log == n.log.Compact(req.lastIndex, req.lastTerm, req.data)
            && n'.commitIndex == n.commitIndex && n'.lastApplied == n.lastApplied
            && n'.applied == n.applied[req.lastIndex - n.log.snapIndex..]
  {
  }

  lemma SnapshotIgnored(n: Node, req: SnapshotRequest)
    requires req.term < n.term || req.lastIndex <= n.log.snapIndex
    ensures var n' := HandleSnapshot(n, req);
            n'.log == n.log && n'.commitIndex == n.commitIndex && n'.lastApplied == n.lastApplied && n'.applied == n.applied
  {
  }

  lemma SnapshotAligns(n: Node, req: SnapshotRequest, committed: seq<Entry>)
    requires Aligned(n, committed) && req.lastIndex <= |committed|
    ensures Aligned(HandleSnapshot(n, req), committed)
  {
    if req.term < n.term || req.lastIndex <= n.log.snapIndex {
      SnapshotIgnored(n, req);
    } else if req.lastIndex <= n.commitIndex {
      SnapshotBehindCuts(n, req);
      CutAligns(n, HandleSnapshot(n, req), req.lastIndex, req.lastTerm, req.data, committed);
    } else {
      SnapshotAheadAligns(n, req, committed);
    }
  }

  lemma CompactAligns(n: Node, upTo: nat, data: string, committed: seq<Entry>)
    requires Aligned(n, committed)
    ensures Aligned(CompactNode(n, upTo, data).0, committed)
    ensures CompactNode(n, upTo, data).1 <==> n.log.snapIndex < upTo <= n.commitIndex
  {
    if n.log.snapIndex < upTo <= n.commitIndex {
      CutAligns(n, CompactNode(n, upTo, data).0, upTo, n.log.TermAt(upTo), data, committed);
    }
  }

  lemma LeaderCommitAligns(n: Node, committed: seq<Entry>)
    requires n.Valid() && n.role == Leader && Aligned(n, committed) && NonEmpty(committed)
    requires AdvanceCommit(n).commitIndex > n.commitIndex ==> Holds(n.log, AdvanceCommit(n).commitIndex, committed)
    ensures Aligned(AdvanceCommit(n), committed)
  {
    if AdvanceCommit(n).commitIndex > n.commitIndex {
      ApplyAligns(n, AdvanceCommit(n).commitIndex, committed);
    }
  }

  lemma ProposeAligns(n: Node, command: string, committed: seq<Entry>)
    requires n.Valid() && Aligned(n, committed) && NonEmpty(committed)
    requires CommitsCommitted(n, OnPropose(command), committed)
    ensures Aligned(Propose(n, command), committed)
  {
    if n.role == Leader {
      var m := n.(log := n.log.Append(n.term, command));
      assert m.log.entries[..n.commitIndex - n.log.snapIndex] == n.log.entries[..n.commitIndex - n.log.snapIndex];
      LeaderCommitAligns(m, committed);
    }
  }

  lemma ReplyAligns(n: Node, e: Event, committed: seq<Entry>)
    requires e.OnReply? && Ready(n, e) && Aligned(n, committed) && NonEmpty(committed) && CommitsCommitted(n, e, committed)
    ensures Aligned(Handle(n, e), committed)
  {
    if e.reply.term <= n.term && n.role == Leader && n.term == e.term && e.reply.success {
      LeaderCommitAligns(Heard(n, e.peer, e.matched), committed);
    }
  }

  lemma EventAligns(n: Node, e: Event, committed: seq<Entry>)
    requires Ready(n, e) && Aligned(n, committed) && NonEmpty(committed) && Fits(n, e, committed)
    ensures Aligned(Handle(n, e), committed)
  {
    match e
    case OnAppend(req, leaderLog) => AppendAligns(n, req, leaderLog, committed);
    case OnSnapshot(snapshot) => SnapshotAligns(n, snapshot, committed);
    case OnCompact(upTo, data) => CompactAligns(n, upTo, data, committed);
    case OnPropose(command) => ProposeAligns(n, command, committed);
    case OnReply(_, _, _, _) => ReplyAligns(n, e, committed);
    case _ =>
  }

  /** More entries may be committed at any time. */
  lemma AlignedAsMoreIsCommitted(n: Node, committed: seq<Entry>, committed': seq<Entry>)
    requires Aligned(n, committed) && committed <= committed'
    ensures Aligned(n, committed')
  {
    assert committed'[n.log.snapIndex..n.commitIndex] == committed[n.log.snapIndex..n.commitIndex];
  }

  lemma AppendStaysValid(n: Node, req: AppendRequest)
    requires n.Valid()
    ensures HandleAppend(n, req).0.Valid()
  {
  }

  lemma ReplyStaysValid(n: Node, term: nat, peer: nat, index: nat, reply: AppendReply)
    requires n.Valid() && peer in Peers(n.id, n.size)
    ensures HandleAppendReply(n, term, peer, index, reply).Valid()
  {
    if n.role == Leader { HeardStaysValid(n, peer, index); }
  }

  lemma SnapshotReplyStaysValid(n: Node, term: nat, peer: nat, index: nat, replyTerm: nat)
    requires n.Valid() && peer in Peers(n.id, n.size)
    ensures HandleSnapshotReply(n, term, peer, index, replyTerm).Valid()
  {
  }

  lemma ProposeStaysValid(n: Node, command: string)
    requires n.Valid()
    ensures Propose(n, command).Valid()
  {
  }

  lemma HeardStaysValid(n: Node, peer: nat, index: nat)
    requires n.Valid() && n.role == Leader && peer in Peers(n.id, n.size)
    ensures AdvanceCommit(Heard(n, peer, index)).Valid()
  {
  }

  lemma OtherStaysValid(n: Node, e: Event)
    requires Ready(n, e) && !e.OnAppend? && !e.OnPropose? && !e.OnReply? && !e.OnSnapshotReply?
    ensures Handle(n, e).Valid()
  {
  }

  lemma HandleStaysValid(n: Node, e: Event)
    requires Ready(n, e)
    ensures Handle(n, e).Valid()
  {
    match e
    case OnAppend(req, _) => AppendStaysValid(n, req);
    case OnPropose(command) => ProposeStaysValid(n, command);
    case OnReply(term, peer, matched, reply) => ReplyStaysValid(n, term, peer, matched, reply);
    case OnSnapshotReply(term, peer, index, replyTerm) => SnapshotReplyStaysValid(n, term, peer, index, replyTerm);
    case _ => OtherStaysValid(n, e);
  }

  // ---- Whole runs ----

  /** Event e, which takes n to n', happens while `committed` grows to `committed'`. */
  ghost predicate NodeStep(n: Node, e: Event, n': Node, committed: seq<Entry>, committed': seq<Entry>) {
    && Ready(n, e) && n' == Handle(n, e)
    && committed <= committed' && NonEmpty(committed') && Fits(n, e, committed')
  }

  /** A run of one node that starts with empty files; committed[k] is what is committed before event k. */
  ghost predicate NodeRun(nodes: seq<Node>, events: seq<Event>, committed: seq<seq<Entry>>) {
    && |nodes| == |committed| == |events| + 1
    && nodes[0].Valid() && nodes[0] == Restart(nodes[0]) && nodes[0].log == Uncompacted([])
    && forall k :: 0 <= k < |events| ==>
         NodeStep(nodes[k], events[k], nodes[k + 1], committed[k], committed[k + 1])
  }

  lemma StepAligns(n: Node, e: Event, n': Node, committed: seq<Entry>, committed': seq<Entry>)
    requires NodeStep(n, e, n', committed, committed') && Aligned(n, committed)
    ensures Aligned(n', committed')
  {
    AlignedAsMoreIsCommitted(n, committed, committed');
    EventAligns(n, e, committed');
  }

  lemma StartsAligned(n: Node, committed: seq<Entry>)
    requires n == Restart(n) && n.log == Uncompacted([])
    ensures Aligned(n, committed)
  {
    assert committed[0..0] == [];
  }

  ghost predicate AlignedAt(nodes: seq<Node>, committed: seq<seq<Entry>>, k: nat) {
    k < |nodes| && k < |committed| && Aligned(nodes[k], committed[k])
  }

  lemma RunStepAligns(nodes: seq<Node>, events: seq<Event>, committed: seq<seq<Entry>>, k: nat)
    requires NodeRun(nodes, events, committed) && k < |events| && AlignedAt(nodes, committed, k)
    ensures AlignedAt(nodes, committed, k + 1)
  {
    assert NodeStep(nodes[k], events[k], nodes[k + 1], committed[k], committed[k + 1]);
    StepAligns(nodes[k], events[k], nodes[k + 1], committed[k], committed[k + 1]);
  }

  lemma {:induction false} ChainAligns(nodes: seq<Node>, committed: seq<seq<Entry>>, k: nat)
    requires AlignedAt(nodes, committed, 0)
    requires forall i: nat :: i < k && AlignedAt(nodes, committed, i) ==> AlignedAt(nodes, committed, i + 1)
    ensures AlignedAt(nodes, committed, k)
  {
    if k == 0 {
    } else {
      ChainAligns(nodes, committed, k - 1);
    }
  }

  /** In every reachable state of every such run the applied list is aligned with the log. */
  lemma RunStaysAligned(nodes: seq<Node>, events: seq<Event>, committed: seq<seq<Entry>>, k: nat)
    requires NodeRun(nodes, events, committed) && k < |nodes|
    ensures Aligned(nodes[k], committed[k])
  {
    StartsAligned(nodes[0], committed[0]);
    forall i: nat | i < k && AlignedAt(nodes, committed, i) ensures AlignedAt(nodes, committed, i + 1) {
      RunStepAligns(nodes, events, committed, i);
    }
    ChainAligns(nodes, committed, k);
  }
}
