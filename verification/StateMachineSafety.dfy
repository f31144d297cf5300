/** What nodes apply (section 5.4.3 of the Raft paper): in every run with in-order requests each
    leader holds what earlier leaders committed, and the command lists that nodes have applied, at
    whatever times, are beginnings of one another. */
module StateMachineSafety {
  import opened RaftLogs
  import opened CommitRule
  import opened RaftNodes
  import opened RaftCluster
  import opened RaftInvariants
  import opened LeaderCompleteness

  // ---- The invariant ----

  /** The first c entries of `log` are entries that the leader of `term` committed. */
  ghost predicate CommittedBy(reigns: map<nat, Reign>, term: nat, c: nat, log: seq<Entry>) {
    && term in reigns && c <= reigns[term].committed <= |reigns[term].log| && c <= |log|
    && log[..c] == reigns[term].log[..c]
  }

  ghost predicate ReignCommitOk(s: Cluster, term: nat)
    requires term in s.reigns
  {
    var r := s.reigns[term];
    r.committed <= |r.log| && (r.committed > 0 ==> exists q :: QuorumHolds(s, term, r.committed, q))
  }

  /** Where a node's commit index comes from: a leader no later than the node's term, and if it is
      the current leader's then a request the node has handled. */
  ghost predicate Source(s: Cluster, i: nat, term: nat)
    requires i < |s.nodes|
  {
    var n := s.nodes[i];
    && term <= n.term && CommittedBy(s.reigns, term, n.commitIndex, n.log.entries)
    && (term == n.term && s.reigns[term].leader != i ==> HandledUpTo(s, i, term, n.commitIndex))
  }

  /** The applied list is the commands of the log up to the commit index. */
  ghost predicate AppliedOk(n: Node) {
    && n.log.snapIndex == 0 && n.lastApplied == n.commitIndex <= |n.log.entries|
    && n.applied == CommandsIn(n.log, 0, n.commitIndex)
  }

  ghost predicate NodeCommitOk(s: Cluster, i: nat)
    requires i < |s.nodes|
  {
    AppliedOk(s.nodes[i]) && (s.nodes[i].commitIndex > 0 ==> exists term :: Source(s, i, term))
  }

  ghost predicate RequestCommitOk(s: Cluster, a: AppendRequest) {
    && a.leaderCommit <= LastCovered(a) && a.term in s.reigns
    && (a.leaderCommit > 0 ==>
          exists term: nat :: term <= a.term && CommittedBy(s.reigns, term, a.leaderCommit, s.reigns[a.term].log))
  }

  ghost predicate CommitInv(s: Cluster) {
    && (forall term :: term in s.reigns ==> ReignCommitOk(s, term))
    && (forall i :: 0 <= i < |s.nodes| ==> NodeCommitOk(s, i))
    && (forall m :: m in s.msgs && m.AppendMsg? ==> RequestCommitOk(s, m.append))
  }

  ghost predicate SafeInv(s: Cluster) {
    Inv(s) && KeepsInv(s) && CommitInv(s)
  }

  lemma PrefixOfPrefix(a: seq<Entry>, b: seq<Entry>, long: nat, short: nat)
    requires short <= long <= |a| && long <= |b| && a[..long] == b[..long]
    ensures a[..short] == b[..short]
  {
  }

  // ---- Applied commands ----

  lemma {:induction false} CommandsAgree(log: Log, log': Log, c: nat)
    requires log.snapIndex == 0 && log'.snapIndex == 0 && c <= |log.entries| && c <= |log'.entries|
    requires log.entries[..c] == log'.entries[..c]
    ensures CommandsIn(log, 0, c) == CommandsIn(log', 0, c)
  {
    if c == 0 {
    } else {
      assert log.entries[..c][..c - 1] == log.entries[..c - 1];
      assert log'.entries[..c][..c - 1] == log'.entries[..c - 1];
      assert log.entries[c - 1] == log.entries[..c][c - 1] == log'.entries[c - 1];
      CommandsAgree(log, log', c - 1);
    }
  }

  lemma {:induction false} CommandsSplit(log: Log, from: nat, mid: nat, to: nat)
    requires from <= mid <= to
    ensures CommandsIn(log, from, to) == CommandsIn(log, from, mid) + CommandsIn(log, mid, to)
  {
    if mid == to {
    } else {
      CommandsSplit(log, from, mid, to - 1);
    }
  }

  /** Applying more after the log changed only above the commit index. */
  lemma ApplyKeepsAligned(n: Node, log': Log, commit: nat)
    requires AppliedOk(n) && log'.snapIndex == 0 && n.commitIndex <= commit <= |log'.entries|
    requires log'.entries[..n.commitIndex] == n.log.entries[..n.commitIndex]
    ensures AppliedOk(ApplyCommitted(n.(log := log', commitIndex := commit)))
  {
    CommandsAgree(n.log, log', n.commitIndex);
    CommandsSplit(log', 0, n.commitIndex, commit);
  }

  // ---- Leaders commit what a majority confirmed ----

  lemma {:induction false} CountAppended(values: seq<nat>, x: nat, bound: nat)
    ensures CountAtLeast(values + [x], bound) == CountAtLeast(values, bound) + (if x >= bound then 1 else 0)
  {
    if values == [] {
      assert values + [x] == [x];
    } else {
      assert (values + [x])[1..] == values[1..] + [x];
      CountAppended(values[1..], x, bound);
    }
  }

  /** How many of the first match values reach index n. */
  function CountMatching(matchIndex: map<nat, nat>, bound: nat, n: nat): nat {
    CountAtLeast(MatchValues(matchIndex, bound), n)
  }

  lemma CountNext(matchIndex: map<nat, nat>, p: nat, n: nat)
    ensures CountMatching(matchIndex, p + 1, n) ==
            CountMatching(matchIndex, p, n) + if p in matchIndex && matchIndex[p] >= n then 1 else 0
  {
    var values := MatchValues(matchIndex, p);
    if p in matchIndex {
      CountAppended(values, matchIndex[p], n);
    } else {
      assert MatchValues(matchIndex, p + 1) == values + [] == values;
    }
  }

  /** As many match values reach index n as there are peers known to reach it. */
  lemma {:induction false} CountIsQuorum(matchIndex: map<nat, nat>, bound: nat, n: nat) returns (peers: set<nat>)
    ensures forall p :: p in peers ==> p < bound && p in matchIndex && matchIndex[p] >= n
    ensures |peers| == CountMatching(matchIndex, bound, n)
  {
    if bound == 0 {
      peers := {};
    } else {
      var p := bound - 1;
      var below := CountIsQuorum(matchIndex, p, n);
      CountNext(matchIndex, p, n);
      assert p !in below;
      peers := if p in matchIndex && matchIndex[p] >= n then below + {p} else below;
    }
  }

  /** What a new commit index of a leader stands for. */
  lemma AdvanceMeansQuorum(n: Node) returns (peers: set<nat>)
    requires n.Valid() && n.role == Leader && AdvanceCommit(n).commitIndex != n.commitIndex
    ensures var c := AdvanceCommit(n).commitIndex;
            && c > n.commitIndex && n.log.TermAt(c) == n.term
            && (forall p :: p in peers ==> p in n.matchIndex && n.matchIndex[p] >= c)
            && |peers| + 1 >= Majority(n.size)
  {
    var c := Decision(n);
    DecisionOf(n);
    NewCommitIsMajority(ValuesOf(n), n.size, n.commitIndex, n.term, TermsOf(n.log));
    assert ValuesOf(n)[1..] == MatchValues(n.matchIndex, n.size);
    peers := CountIsQuorum(n.matchIndex, n.size, c);
  }

  lemma TrackedPeersConfirm(s: Cluster, n: Node, c: nat, peers: set<nat>)
    requires n.Valid() && n.role == Leader && n.size == |s.nodes| && TracksOk(n, s.acks)
    requires OwnEntry(s.reigns, n.term, c) && Ack(n.term, n.id, |s.reigns[n.term].log|) in s.acks
    requires (forall p :: p in peers ==> p in n.matchIndex && n.matchIndex[p] >= c) && |peers| + 1 >= Majority(n.size)
    requires c > 0
    ensures QuorumHolds(s, n.term, c, peers + {n.id})
  {
  }

  /** The leader's new commit index is confirmed by a majority of the cluster. */
  lemma LeaderCommitsQuorum(s: Cluster, i: nat, n: Node, c: nat)
    requires NodesInv(s) && ReignsInv(s) && i < |s.nodes| && n.Valid() && n.role == Leader && n.term > 0
    requires s.nodes[i] == AdvanceCommit(n) && s.nodes[i].commitIndex == c != n.commitIndex
    ensures c <= |LogOf(s, i)| && exists q :: QuorumHolds(s, n.term, c, q)
  {
    assert NodeOk(s, i);
    assert ReignOk(s, n.term, s.reigns[n.term]);
    var peers := AdvanceMeansQuorum(n);
    assert OwnEntry(s.reigns, n.term, c);
    TrackedPeersConfirm(s, n, c, peers);
  }

  lemma LeaderTermPositive(s: Cluster, term: nat)
    requires Inv(s) && term in s.reigns
    ensures term > 0
  {
  }

  // ---- Steps keep it ----

  lemma QuorumStays(s: Cluster, s': Cluster, term: nat, n: nat, q: set<nat>)
    requires QuorumHolds(s, term, n, q) && |s'.nodes| == |s.nodes| && s.acks <= s'.acks
    requires Extends(s.reigns, s'.reigns)
    ensures QuorumHolds(s', term, n, q)
  {
  }

  lemma CommittedStays(reigns: map<nat, Reign>, reigns': map<nat, Reign>, term: nat, c: nat, log: seq<Entry>)
    requires CommittedBy(reigns, term, c, log) && Extends(reigns, reigns')
    requires reigns'[term].committed <= |reigns'[term].log|
    ensures CommittedBy(reigns', term, c, log)
  {
  }

  /** What two leaders committed agrees as far as both go. */
  lemma CommitsAgree(s: Cluster, t1: nat, t2: nat, c: nat)
    requires Inv(s) && KeepsInv(s) && t1 in s.reigns && t2 in s.reigns && t1 < t2
    requires ReignCommitOk(s, t1) && c <= s.reigns[t1].committed
    ensures c <= |s.reigns[t2].log| && s.reigns[t1].log[..c] == s.reigns[t2].log[..c]
  {
    var r1, r2 := s.reigns[t1], s.reigns[t2];
    if r1.committed > 0 {
      var q :| QuorumHolds(s, t1, r1.committed, q);
      LaterLeadersHold(s, t1, r1.committed, q, t2);
      assert ReignOk(s, t2, r2);
      assert r2.log[..r1.committed] == r1.log[..r1.committed];
      PrefixOfPrefix(r1.log, r2.log, r1.committed, c);
    }
  }

  /** So do two logs whose beginnings they committed. */
  lemma CommittedAgree(s: Cluster, t1: nat, c1: nat, log1: seq<Entry>, t2: nat, c2: nat, log2: seq<Entry>)
    requires Inv(s) && KeepsInv(s) && t1 in s.reigns && t2 in s.reigns
    requires ReignCommitOk(s, t1) && ReignCommitOk(s, t2)
    requires CommittedBy(s.reigns, t1, c1, log1) && CommittedBy(s.reigns, t2, c2, log2) && c1 <= c2
    ensures log1[..c1] == log2[..c1]
  {
    if t1 < t2 { CommitsAgree(s, t1, t2, c1); }
    else if t2 < t1 { CommitsAgree(s, t2, t1, c1); }
    PrefixOfPrefix(log2, s.reigns[t2].log, c2, c1);
  }

  lemma OldCommitStays(s: Cluster, s': Cluster, term: nat)
    requires term in s.reigns && ReignCommitOk(s, term) && Extends(s.reigns, s'.reigns)
    requires |s'.nodes| == |s.nodes| && s.acks <= s'.acks && s'.reigns[term].committed == s.reigns[term].committed
    ensures ReignCommitOk(s', term)
  {
    var c := s.reigns[term].committed;
    assert Continues(s.reigns[term], s'.reigns[term]);
    if c > 0 {
      var q :| QuorumHolds(s, term, c, q);
      QuorumStays(s, s', term, c, q);
    }
  }

  lemma RaisedReignCommitOk(s: Cluster, step: Step, s': Cluster, term: nat)
    requires Inv(s) && Next(s, step, s') && term in s.reigns && term in s'.reigns
    requires s'.reigns[term].committed != s.reigns[term].committed
    ensures ReignCommitOk(s', term)
  {
    InvStays(s, step, s');
    ReignsExtend(s, step, s');
    NewCommitIsQuorum(s, step, s');
    assert NodeOk(s', step.i);
  }

  lemma ReignCommitStays(s: Cluster, step: Step, s': Cluster, term: nat)
    requires Inv(s) && CommitInv(s) && Next(s, step, s') && term in s'.reigns
    ensures ReignCommitOk(s', term)
  {
    if term in s.reigns && s'.reigns[term].committed != s.reigns[term].committed {
      RaisedReignCommitOk(s, step, s', term);
    } else {
      StepEvolves(s, step, s');
      ReignsExtend(s, step, s');
      if term in s.reigns {
        assert ReignCommitOk(s, term);
        OldCommitStays(s, s', term);
      }
    }
  }

  /** A leader's step that raises its commit index. */
  lemma NewCommitIsQuorum(s: Cluster, step: Step, s': Cluster)
    requires Inv(s) && Inv(s') && Next(s, step, s') && (step.Submit? || step.ReceiveReply?)
    requires s.nodes[step.i].role == Leader && s'.nodes[step.i].commitIndex != s.nodes[step.i].commitIndex
    ensures |s'.nodes| == |s.nodes|
    ensures s'.nodes[step.i].role == Leader && s'.nodes[step.i].term == s.nodes[step.i].term
    ensures var c := s'.nodes[step.i].commitIndex;
            c <= |LogOf(s', step.i)| && exists q :: QuorumHolds(s', s.nodes[step.i].term, c, q)
  {
    StepMoves(s, step, s');
    assert NodeOk(s, step.i);
    LeaderTermPositive(s, s.nodes[step.i].term);
    RaisedCommitIsQuorum(s.nodes[step.i], step, s');
  }

  lemma RaisedCommitIsQuorum(n: Node, step: Step, s': Cluster)
    requires NodesInv(s') && ReignsInv(s') && step.i < |s'.nodes| && n.Valid() && Ready(n, step)
    requires (step.Submit? || step.ReceiveReply?) && n.role == Leader && n.term > 0
    requires s'.nodes[step.i] == After(n, step) && s'.nodes[step.i].commitIndex != n.commitIndex
    ensures s'.nodes[step.i].role == Leader && s'.nodes[step.i].term == n.term
    ensures var c := s'.nodes[step.i].commitIndex;
            c <= |LogOf(s', step.i)| && exists q :: QuorumHolds(s', n.term, c, q)
  {
    AdvanceIsLast(n, step);
    LeaderCommitsQuorum(s', step.i, BeforeAdvance(n, step), s'.nodes[step.i].commitIndex);
  }

  /** A leader just before advance_commit_index_locked runs in that step. */
  function BeforeAdvance(n: Node, step: Step): Node
    requires n.Valid() && Ready(n, step) && n.role == Leader
  {
    match step
    case Submit(_, command) => n.(log := n.log.Append(n.term, command))
    case ReceiveReply(_, m) =>
      if m.reply.term <= n.term && n.term == m.requestTerm && m.reply.success then
        Heard(n, m.from, m.matched)
      else n
    case _ => n
  }

  lemma AdvanceIsLast(n: Node, step: Step)
    requires n.Valid() && Ready(n, step) && n.role == Leader && (step.Submit? || step.ReceiveReply?)
    ensures var n' := After(n, step);
            n'.commitIndex != n.commitIndex ==>
              && n' == AdvanceCommit(BeforeAdvance(n, step)) && BeforeAdvance(n, step).Valid()
              && n'.role == Leader && n'.term == n.term
  {
    if step.ReceiveReply? { ReplyAdvances(n, step); }
  }

  lemma ReplyAdvances(n: Node, step: Step)
    requires n.Valid() && Ready(n, step) && n.role == Leader && step.ReceiveReply?
    ensures BeforeAdvance(n, step).Valid()
    ensures || After(n, step).commitIndex == n.commitIndex
            || After(n, step) == AdvanceCommit(BeforeAdvance(n, step))
  {
    HandledReply(n, step.m.requestTerm, step.m.from, step.m.matched, step.m.reply);
  }

  lemma HandledReply(n: Node, term: nat, peer: nat, matched: nat, reply: AppendReply)
    requires n.Valid() && n.role == Leader && peer in Peers(n.id, n.size)
    ensures HandleAppendReply(n, term, peer, matched, reply) ==
            if reply.term <= n.term && n.term == term && reply.success then AdvanceCommit(Heard(n, peer, matched))
            else HandleAppendReply(n, term, peer, matched, reply)
    ensures !(reply.term <= n.term && n.term == term && reply.success) ==>
              HandleAppendReply(n, term, peer, matched, reply).commitIndex == n.commitIndex
  {
  }

  /** Committed entries of a reign stay committed as the reigns go on. */
  lemma CommittedLogStays(reigns: map<nat, Reign>, reigns': map<nat, Reign>, t: nat, term: nat, c: nat)
    requires t in reigns && CommittedBy(reigns, term, c, reigns[t].log) && Extends(reigns, reigns')
    requires reigns'[term].committed <= |reigns'[term].log|
    ensures CommittedBy(reigns', term, c, reigns'[t].log)
  {
  }

  lemma RequestCommitStays(s: Cluster, s': Cluster, a: AppendRequest)
    requires Extends(s.reigns, s'.reigns) && RequestCommitOk(s, a)
    requires forall t :: t in s'.reigns ==> ReignCommitOk(s', t)
    ensures RequestCommitOk(s', a)
  {
    if a.leaderCommit > 0 {
      var term: nat :| term <= a.term && CommittedBy(s.reigns, term, a.leaderCommit, s.reigns[a.term].log);
      assert ReignCommitOk(s', term);
      CommittedLogStays(s.reigns, s'.reigns, a.term, term, a.leaderCommit);
    }
  }

  lemma NewRequestCommitOk(s: Cluster, i: nat, next: nat)
    requires SafeInv(s) && i < |s.nodes| && s.nodes[i].role == Leader && 1 <= next <= s.nodes[i].log.LastIndex() + 1
    ensures RequestCommitOk(s, BuildAppend(s.nodes[i], next))
  {
    var n := s.nodes[i];
    assert NodeOk(s, i) && NodeCommitOk(s, i);
    assert ReignOk(s, n.term, s.reigns[n.term]);
    BuiltIsCovered(n, next, s.reigns[n.term]);
    if n.commitIndex > 0 {
      var term: nat :| Source(s, i, term);
      assert CommittedBy(s.reigns, term, n.commitIndex, s.reigns[n.term].log);
    }
  }

  /** What a snapshot stands for is committed. */
  lemma NewPrefixCommitOk(s: Cluster, i: nat, last: nat)
    requires SafeInv(s) && i < |s.nodes| && s.nodes[i].role == Leader
    requires 0 < last <= s.nodes[i].commitIndex && last <= |LogOf(s, i)|
    ensures RequestCommitOk(s, PrefixRequest(s.nodes[i], last)) && RequestCommitOk(s, PrefixNews(s.nodes[i], last))
  {
    var n := s.nodes[i];
    assert NodeOk(s, i) && NodeCommitOk(s, i);
    var term: nat :| Source(s, i, term);
    PrefixOfPrefix(n.log.entries, s.reigns[term].log, n.commitIndex, last);
    assert CommittedBy(s.reigns, term, last, s.reigns[n.term].log);
  }

  /** s' comes after s. */
  ghost predicate Later(s: Cluster, s': Cluster) {
    && |s'.nodes| == |s.nodes| && Extends(s.reigns, s'.reigns) && s.handled <= s'.handled
    && (forall i :: 0 <= i < |s.nodes| ==> s.nodes[i].term <= s'.nodes[i].term)
    && (forall t :: t in s'.reigns ==> ReignCommitOk(s', t))
  }

  lemma StepIsLater(s: Cluster, step: Step, s': Cluster)
    requires Inv(s) && Next(s, step, s') && forall t :: t in s'.reigns ==> ReignCommitOk(s', t)
    ensures Later(s, s')
  {
    StepEvolves(s, step, s');
    ReignsExtend(s, step, s');
    assert forall i :: 0 <= i < |s.nodes| ==> Evolves(s.nodes[i], s'.nodes[i]);
  }

  /** A node whose log keeps its committed part keeps the source of its commit index. */
  lemma SourceStays(s: Cluster, s': Cluster, i: nat, term: nat)
    requires Later(s, s') && i < |s.nodes| && Source(s, i, term)
    requires s'.nodes[i].commitIndex == s.nodes[i].commitIndex <= |LogOf(s', i)|
    requires LogOf(s', i)[..s.nodes[i].commitIndex] == LogOf(s, i)[..s.nodes[i].commitIndex]
    ensures Source(s', i, term)
  {
  }

  lemma QuietNodeCommitOk(s: Cluster, s': Cluster, i: nat)
    requires Later(s, s') && i < |s.nodes| && NodeCommitOk(s, i)
    requires s.nodes[i].commitIndex <= |LogOf(s', i)| && s'.nodes[i].log.snapIndex == 0
    requires LogOf(s', i)[..s.nodes[i].commitIndex] == LogOf(s, i)[..s.nodes[i].commitIndex]
    requires s'.nodes[i].commitIndex == s.nodes[i].commitIndex && s'.nodes[i].lastApplied == s.nodes[i].lastApplied
    requires s'.nodes[i].applied == s.nodes[i].applied
    ensures NodeCommitOk(s', i)
  {
    SameAppliedOk(s.nodes[i], s'.nodes[i]);
    if s.nodes[i].commitIndex > 0 {
      var term: nat :| Source(s, i, term);
      SourceStays(s, s', i, term);
    }
  }

  lemma SameAppliedOk(n: Node, n': Node)
    requires AppliedOk(n) && n'.log.snapIndex == 0 && n.commitIndex <= |n'.log.entries|
    requires n.log.entries[..n.commitIndex] == n'.log.entries[..n.commitIndex]
    requires n'.commitIndex == n.commitIndex && n'.lastApplied == n.lastApplied && n'.applied == n.applied
    ensures AppliedOk(n')
  {
    CommandsAgree(n.log, n'.log, n.commitIndex);
  }

  lemma AdvancingKeepsAligned(n: Node, step: Step)
    requires n.Valid() && Ready(n, step) && n.role == Leader && (step.Submit? || step.ReceiveReply?)
    requires AppliedOk(n) && After(n, step).commitIndex != n.commitIndex
    requires After(n, step).commitIndex <= |After(n, step).log.entries|
    ensures AppliedOk(After(n, step))
  {
    var before := BeforeAdvance(n, step);
    AdvanceIsLast(n, step);
    AdvanceApplies(before);
    LogGrows(n, step);
    ApplyKeepsAligned(n, before.log, After(n, step).commitIndex);
  }

  lemma CommitIsRecorded(reigns: map<nat, Reign>, n: Node, step: Step)
    requires n.Valid() && Ready(n, step) && n.role == Leader && (step.Submit? || step.ReceiveReply?)
    requires n.term in reigns && After(n, step).commitIndex > n.commitIndex
    ensures After(n, step).commitIndex <= ReignsAfter(reigns, n, step)[n.term].committed
  {
  }

  lemma AdvancingSource(s: Cluster, step: Step, s': Cluster)
    requires Inv(s) && Inv(s') && Next(s, step, s') && (step.Submit? || step.ReceiveReply?)
    requires s.nodes[step.i].role == Leader && s'.nodes[step.i].role == Leader
    requires s'.nodes[step.i].term == s.nodes[step.i].term
    requires s.nodes[step.i].commitIndex < s'.nodes[step.i].commitIndex <= |LogOf(s', step.i)|
    requires forall t :: t in s'.reigns ==> ReignCommitOk(s', t)
    ensures Source(s', step.i, s.nodes[step.i].term)
  {
    assert NodeOk(s, step.i) && NodeOk(s', step.i);
    CommitIsRecorded(s.reigns, s.nodes[step.i], step);
    assert ReignCommitOk(s', s.nodes[step.i].term);
  }

  lemma AdvancingCommitOk(s: Cluster, step: Step, s': Cluster)
    requires SafeInv(s) && Inv(s') && Next(s, step, s') && (step.Submit? || step.ReceiveReply?)
    requires s'.nodes[step.i].commitIndex != s.nodes[step.i].commitIndex
    requires forall t :: t in s'.reigns ==> ReignCommitOk(s', t)
    ensures step.i < |s'.nodes| && NodeCommitOk(s', step.i)
  {
    AdvancingStaysLeader(s, step, s');
    assert NodeCommitOk(s, step.i);
    AdvancingKeepsAligned(s.nodes[step.i], step);
    AdvancingSource(s, step, s');
  }

  lemma AdvancingStaysLeader(s: Cluster, step: Step, s': Cluster)
    requires Inv(s) && Inv(s') && Next(s, step, s') && (step.Submit? || step.ReceiveReply?)
    requires s'.nodes[step.i].commitIndex != s.nodes[step.i].commitIndex
    ensures |s'.nodes| == |s.nodes| && s.nodes[step.i].role == Leader && s'.nodes[step.i].role == Leader
    ensures s'.nodes[step.i].term == s.nodes[step.i].term
    ensures s.nodes[step.i].commitIndex < s'.nodes[step.i].commitIndex <= |LogOf(s', step.i)|
  {
    LeaderOnlyAdvances(s.nodes[step.i], step);
    NewCommitIsQuorum(s, step, s');
  }

  /** n' has applied what n had, and its log goes on from n's. */
  ghost predicate Unapplied(n: Node, n': Node) {
    && n.log.entries <= n'.log.entries && n'.log.snapIndex == 0 && n'.commitIndex == n.commitIndex
    && n'.lastApplied == n.lastApplied && n'.applied == n.applied
  }

  lemma QuietStepUnapplied(n: Node, step: Step)
    requires n.Valid() && Ready(n, step) && !step.AnswerAppend? && !step.Crash? && n.log.snapIndex == 0
    ensures After(n, step).commitIndex == n.commitIndex ==> Unapplied(n, After(n, step))
  {
    LogGrows(n, step);
    if After(n, step).commitIndex == n.commitIndex { QuietStep(n, step); }
    if step.Submit? { ProposeAppends(n, step.command); }
    else if step.ReceiveReply? { HandleReplyEvolves(n, step.m.requestTerm, step.m.from, step.m.matched, step.m.reply); }
  }

  lemma UnappliedCommitOk(s: Cluster, s': Cluster, i: nat)
    requires Later(s, s') && i < |s.nodes| && NodeCommitOk(s, i) && Unapplied(s.nodes[i], s'.nodes[i])
    ensures NodeCommitOk(s', i)
  {
    var c := s.nodes[i].commitIndex;
    assert LogOf(s', i)[..c] == LogOf(s, i)[..c];
    QuietNodeCommitOk(s, s', i);
  }

  lemma LeaderStepCommitOk(s: Cluster, step: Step, s': Cluster)
    requires SafeInv(s) && Next(s, step, s') && (step.Submit? || step.ReceiveReply?)
    requires forall t :: t in s'.reigns ==> ReignCommitOk(s', t)
    ensures step.i < |s'.nodes| && NodeCommitOk(s', step.i)
  {
    if s'.nodes[step.i].commitIndex != s.nodes[step.i].commitIndex {
      InvStays(s, step, s');
      AdvancingCommitOk(s, step, s');
    } else {
      assert NodeCommitOk(s, step.i);
      StepIsLater(s, step, s');
      QuietStepUnapplied(s.nodes[step.i], step);
      UnappliedCommitOk(s, s', step.i);
    }
  }

  lemma LeaderOnlyAdvances(n: Node, step: Step)
    requires n.Valid() && Ready(n, step) && (step.Submit? || step.ReceiveReply?)
    ensures After(n, step).commitIndex != n.commitIndex ==> n.role == Leader && After(n, step).commitIndex > n.commitIndex
  {
  }

  lemma AdvanceApplies(n: Node)
    requires n.Valid() && n.role == Leader
    ensures var c := AdvanceCommit(n).commitIndex;
            AdvanceCommit(n) == if c > n.commitIndex then ApplyCommitted(n.(commitIndex := c)) else n
  {
  }

  lemma QuietAdvance(n: Node)
    requires n.Valid() && n.role == Leader
    ensures AdvanceCommit(n).commitIndex == n.commitIndex ==> AdvanceCommit(n) == n
  {
  }

  lemma QuietReply(n: Node, term: nat, peer: nat, matched: nat, reply: AppendReply)
    requires n.Valid() && peer in Peers(n.id, n.size)
    ensures var n' := HandleAppendReply(n, term, peer, matched, reply);
            n'.commitIndex == n.commitIndex ==> n'.lastApplied == n.lastApplied && n'.applied == n.applied
  {
    if reply.term <= n.term && n.role == Leader && n.term == term && reply.success {
      QuietAdvance(Heard(n, peer, matched));
    }
  }

  /** A step that leaves the commit index leaves what was applied, unless the node restarts. */
  lemma QuietStep(n: Node, step: Step)
    requires n.Valid() && Ready(n, step) && !step.AnswerAppend? && !step.Crash?
    requires After(n, step).commitIndex == n.commitIndex
    ensures After(n, step).lastApplied == n.lastApplied && After(n, step).applied == n.applied
  {
    match step
    case Submit(_, command) => QuietAdvance(n.(log := n.log.Append(n.term, command)));
    case ReceiveReply(_, m) => QuietReply(n, m.requestTerm, m.from, m.matched, m.reply);
    case _ =>
  }

  // ---- A handled request ----

  lemma ReplacedLogKeeps(s: Cluster, i: nat, m: Message, log': seq<Entry>)
    requires SafeInv(s) && i < |s.nodes| && m in s.msgs && m.AppendMsg? && m.to == i
    requires InOrder(s, AnswerAppend(i, m)) && m.append.term >= s.nodes[i].term && s.nodes[i].commitIndex > 0
    requires m.append.entries != [] && m.append.term in s.reigns && LastCovered(m.append) <= |s.reigns[m.append.term].log|
    requires log' == s.reigns[m.append.term].log[..LastCovered(m.append)]
    ensures var c := s.nodes[i].commitIndex; c <= |LogOf(s, i)| && c <= |log'| && log'[..c] == LogOf(s, i)[..c]
  {
    assert NodeCommitOk(s, i);
    var term: nat :| Source(s, i, term);
    CommittedIsCovered(s, i, m, term);
    PrefixOfPrefix(log', s.reigns[m.append.term].log, |log'|, s.nodes[i].commitIndex);
  }

  /** An in-order request never overwrites what the node has committed. */
  lemma AppendKeepsCommitted(s: Cluster, i: nat, m: Message)
    requires SafeInv(s) && i < |s.nodes| && m in s.msgs && m.AppendMsg? && m.to == i
    requires InOrder(s, AnswerAppend(i, m))
    ensures var log', c := HandleAppend(s.nodes[i], m.append).0.log.entries, s.nodes[i].commitIndex;
            c <= |LogOf(s, i)| && c <= |log'| && log'[..c] == LogOf(s, i)[..c]
  {
    var log' := HandleAppend(s.nodes[i], m.append).0.log.entries;
    assert NodeCommitOk(s, i);
    AppendEffect(s, i, m);
    if log' != LogOf(s, i) && s.nodes[i].commitIndex > 0 {
      HandleAppendLeads(s.nodes[i], m.append);
      HandleAppendLog(s.nodes[i], m.append);
      ReplacedLogKeeps(s, i, m, log');
    }
  }

  /** A leader no older than the node has what the node has committed. */
  lemma CommittedInSender(s: Cluster, i: nat, t: nat, term: nat)
    requires SafeInv(s) && i < |s.nodes| && Source(s, i, term) && t in s.reigns && t >= s.nodes[i].term
    requires s.nodes[i].commitIndex > 0
    ensures s.nodes[i].commitIndex <= |s.reigns[t].log|
    ensures s.reigns[t].log[..s.nodes[i].commitIndex] == LogOf(s, i)[..s.nodes[i].commitIndex]
    ensures term < t ==> s.nodes[i].commitIndex <= |s.reigns[t].initial|
  {
    if term < t {
      var c, r := s.nodes[i].commitIndex, s.reigns[term];
      assert ReignCommitOk(s, term);
      var q :| QuorumHolds(s, term, r.committed, q);
      LaterLeadersHold(s, term, r.committed, q, t);
      assert ReignOk(s, t, s.reigns[t]);
      assert r.log[..r.committed] <= s.reigns[t].log;
      assert s.reigns[t].log[..c] == r.log[..c];
    }
  }

  lemma CommittedIsCovered(s: Cluster, i: nat, m: Message, term: nat)
    requires SafeInv(s) && i < |s.nodes| && m in s.msgs && m.AppendMsg? && m.to == i
    requires InOrder(s, AnswerAppend(i, m)) && Source(s, i, term) && m.append.term >= s.nodes[i].term
    requires s.nodes[i].commitIndex > 0 && (m.part ==> m.append.entries != [])
    ensures m.append.term in s.reigns
    ensures s.nodes[i].commitIndex <= LastCovered(m.append) <= |s.reigns[m.append.term].log|
    ensures s.reigns[m.append.term].log[..s.nodes[i].commitIndex] == LogOf(s, i)[..s.nodes[i].commitIndex]
  {
    assert MessageOk(s, m);
    CommittedInSender(s, i, m.append.term, term);
    if m.part {
      CutNeedsConflict(s.nodes[i], m.append, s.reigns[m.append.term].log, LogOf(s, i)[..s.nodes[i].commitIndex]);
    } else if term == m.append.term {
      HandledIsCovered(s, i, m);
    }
  }

  lemma HandledIsCovered(s: Cluster, i: nat, m: Message)
    requires Inv(s) && i < |s.nodes| && m in s.msgs && m.AppendMsg? && !m.part && InOrder(s, AnswerAppend(i, m))
    requires HandledUpTo(s, i, m.append.term, s.nodes[i].commitIndex)
    ensures s.nodes[i].commitIndex <= LastCovered(m.append)
  {
    var h :| h in s.handled && h.0 == i && h.1.AppendMsg? && h.1.append.term == m.append.term
             && s.nodes[i].commitIndex <= LastCovered(h.1.append);
    assert h.1 in s.msgs;
  }

  /** n' has the commit index the request announced and has applied up to it. */
  ghost predicate TakesCommit(n: Node, a: AppendRequest, n': Node) {
    && a.leaderCommit > n.commitIndex && n'.commitIndex == Min(a.leaderCommit, n'.log.LastIndex())
    && var applied := ApplyCommitted(n.(log := n'.log, commitIndex := n'.commitIndex));
       n'.lastApplied == applied.lastApplied && n'.applied == applied.applied
  }

  lemma HandleAppendCommit(n: Node, a: AppendRequest)
    ensures var (n', reply) := HandleAppend(n, a);
            || (n'.commitIndex == n.commitIndex && n'.lastApplied == n.lastApplied && n'.applied == n.applied)
            || (reply.success && TakesCommit(n, a, n'))
  {
  }

  lemma AppendCommitOk(s: Cluster, step: Step, s': Cluster)
    requires SafeInv(s) && Next(s, step, s') && step.AnswerAppend? && InOrder(s, step)
    requires forall t :: t in s'.reigns ==> ReignCommitOk(s', t)
    ensures step.i < |s'.nodes| && NodeCommitOk(s', step.i)
  {
    var i, n, a := step.i, s.nodes[step.i], step.m.append;
    assert step == AnswerAppend(i, step.m);
    HandleAppendCommit(n, a);
    if HandleAppend(n, a).1.success && TakesCommit(n, a, s'.nodes[i]) {
      NewFollowerCommit(s, step, s');
    } else {
      StepEvolves(s, step, s');
      StepIsLater(s, step, s');
      AppendKeepsCommitted(s, i, step.m);
      assert NodeCommitOk(s, i);
      QuietNodeCommitOk(s, s', i);
    }
  }

  /** Which leader committed what a follower takes over. */
  lemma TakenCommitHasSource(s: Cluster, i: nat, m: Message) returns (term: nat)
    requires SafeInv(s) && i < |s.nodes| && m in s.msgs && m.AppendMsg? && m.to == i
    requires HandleAppend(s.nodes[i], m.append).1.success && m.append.leaderCommit > 0
    ensures m.append.leaderCommit <= LastCovered(m.append) <= |HandleAppend(s.nodes[i], m.append).0.log.entries|
    ensures term <= m.append.term
    ensures CommittedBy(s.reigns, term, m.append.leaderCommit, HandleAppend(s.nodes[i], m.append).0.log.entries)
  {
    var a, c := m.append, m.append.leaderCommit;
    assert RequestCommitOk(s, a);
    AppendEffect(s, i, m);
    var log' := HandleAppend(s.nodes[i], a).0.log.entries;
    term :| term <= a.term && CommittedBy(s.reigns, term, c, s.reigns[a.term].log);
    PrefixOfPrefix(log', s.reigns[a.term].log, LastCovered(a), c);
  }

  lemma TakenCommitKeepsAligned(s: Cluster, i: nat, m: Message, n': Node)
    requires SafeInv(s) && i < |s.nodes| && m in s.msgs && m.AppendMsg? && m.to == i
    requires InOrder(s, AnswerAppend(i, m)) && n' == HandleAppend(s.nodes[i], m.append).0
    requires n'.log.snapIndex == 0 && TakesCommit(s.nodes[i], m.append, n')
    requires m.append.leaderCommit <= |n'.log.entries|
    ensures AppliedOk(n') && n'.commitIndex == m.append.leaderCommit
  {
    assert NodeCommitOk(s, i);
    AppendKeepsCommitted(s, i, m);
    ApplyKeepsAligned(s.nodes[i], n'.log, n'.commitIndex);
  }

  lemma NewFollowerCommit(s: Cluster, step: Step, s': Cluster)
    requires SafeInv(s) && Next(s, step, s') && step.AnswerAppend? && InOrder(s, step)
    requires HandleAppend(s.nodes[step.i], step.m.append).1.success
    requires TakesCommit(s.nodes[step.i], step.m.append, s'.nodes[step.i])
    ensures step.i < |s'.nodes| && NodeCommitOk(s', step.i)
  {
    var i, m := step.i, step.m;
    assert step == AnswerAppend(i, m);
    StepEvolves(s, step, s');
    var term := TakenCommitHasSource(s, i, m);
    TakenCommitKeepsAligned(s, i, m, s'.nodes[i]);
    HandleAppendTerm(s.nodes[i], m.append);
    assert (i, m) in s'.handled;
    assert HandledUpTo(s', i, m.append.term, m.append.leaderCommit);
    assert Source(s', i, term);
  }

  // ---- Every run ----

  lemma OtherCommitStays(s: Cluster, step: Step, s': Cluster, i: nat)
    requires Inv(s) && i < |s.nodes| && NodeCommitOk(s, i) && Next(s, step, s') && i != step.i
    requires forall t :: t in s'.reigns ==> ReignCommitOk(s', t)
    ensures i < |s'.nodes| && NodeCommitOk(s', i)
  {
    StepIsLater(s, step, s');
    QuietNodeCommitOk(s, s', i);
  }

  /** A node that restarts with less applied. */
  lemma RestartCommitOk(s: Cluster, s': Cluster, i: nat, kept: nat)
    requires Later(s, s') && i < |s.nodes| && NodeCommitOk(s, i) && kept <= s.nodes[i].commitIndex
    requires s'.nodes[i] == RestartAt(s.nodes[i], kept)
    ensures NodeCommitOk(s', i)
  {
    if kept > 0 {
      var term: nat :| Source(s, i, term);
      PrefixOfPrefix(LogOf(s, i), s.reigns[term].log, s.nodes[i].commitIndex, kept);
      assert CommittedBy(s.reigns, term, kept, LogOf(s, i));
      CommittedStays(s.reigns, s'.reigns, term, kept, LogOf(s, i));
      assert Source(s', i, term);
    }
  }

  lemma QuietStepCommitOk(s: Cluster, step: Step, s': Cluster)
    requires Inv(s) && step.i < |s.nodes| && NodeCommitOk(s, step.i) && Next(s, step, s')
    requires !step.AnswerAppend? && !step.Submit? && !step.ReceiveReply?
    requires forall t :: t in s'.reigns ==> ReignCommitOk(s', t)
    ensures step.i < |s'.nodes| && NodeCommitOk(s', step.i)
  {
    StepIsLater(s, step, s');
    StepMoves(s, step, s');
    if step.Crash? {
      RestartCommitOk(s, s', step.i, step.kept);
    } else {
      CalmStepCommitOk(s, step, s');
    }
  }

  lemma CalmStepCommitOk(s: Cluster, step: Step, s': Cluster)
    requires Later(s, s') && step.i < |s.nodes| && NodeCommitOk(s, step.i)
    requires s.nodes[step.i].Valid() && Ready(s.nodes[step.i], step) && s'.nodes[step.i] == After(s.nodes[step.i], step)
    requires !step.AnswerAppend? && !step.Submit? && !step.ReceiveReply? && !step.Crash?
    ensures NodeCommitOk(s', step.i)
  {
    CommitUnmoved(s.nodes[step.i], step);
    QuietStepUnapplied(s.nodes[step.i], step);
    UnappliedCommitOk(s, s', step.i);
  }

  lemma CommitUnmoved(n: Node, step: Step)
    requires n.Valid() && Ready(n, step)
    requires !step.AnswerAppend? && !step.Submit? && !step.ReceiveReply? && !step.Crash?
    ensures After(n, step).commitIndex == n.commitIndex
  {
  }

  lemma NodesCommitStays(s: Cluster, step: Step, s': Cluster, i: nat)
    requires SafeInv(s) && Next(s, step, s') && InOrder(s, step) && i < |s.nodes|
    requires forall t :: t in s'.reigns ==> ReignCommitOk(s', t)
    ensures i < |s'.nodes| && NodeCommitOk(s', i)
  {
    if i != step.i {
      OtherCommitStays(s, step, s', i);
    } else if step.AnswerAppend? {
      AppendCommitOk(s, step, s');
    } else if step.Submit? || step.ReceiveReply? {
      LeaderStepCommitOk(s, step, s');
    } else {
      QuietStepCommitOk(s, step, s');
    }
  }

  lemma SentCommitOk(s: Cluster, step: Step, m: Message)
    requires SafeInv(s) && Enabled(s, step) && m in Outgoing(s.nodes[step.i], step, s.sent) && m.AppendMsg?
    ensures RequestCommitOk(s, m.append)
  {
    var n := s.nodes[step.i];
    if step.Send? {
      assert m.append == BuildAppend(n, step.next);
      NewRequestCommitOk(s, step.i, step.next);
    } else {
      assert m.append == PrefixRequest(n, step.last) || m.append == PrefixNews(n, step.last);
      NewPrefixCommitOk(s, step.i, step.last);
    }
  }

  lemma CommitStays(s: Cluster, step: Step, s': Cluster)
    requires SafeInv(s) && Next(s, step, s') && InOrder(s, step)
    ensures CommitInv(s')
  {
    StepEvolves(s, step, s');
    ReignsExtend(s, step, s');
    forall term | term in s'.reigns ensures ReignCommitOk(s', term) {
      ReignCommitStays(s, step, s', term);
    }
    forall i | 0 <= i < |s'.nodes| ensures NodeCommitOk(s', i) {
      NodesCommitStays(s, step, s', i);
    }
    forall m | m in s'.msgs && m.AppendMsg? ensures RequestCommitOk(s', m.append) {
      if m !in s.msgs { SentCommitOk(s, step, m); }
      RequestCommitStays(s, s', m.append);
    }
  }

  lemma StepIsSafe(s: Cluster, step: Step, s': Cluster)
    requires SafeInv(s) && Next(s, step, s') && InOrder(s, step)
    ensures KeepsInv(s') && CommitInv(s')
  {
    KeepsStays(s, step, s');
    CommitStays(s, step, s');
  }

  lemma {:induction false} RunSafe(trace: seq<Cluster>, steps: seq<Step>, k: nat)
    requires InOrderRun(trace, steps) && k < |trace|
    ensures SafeInv(trace[k]) && |trace[k].nodes| == |trace[0].nodes|
  {
    if k == 0 {
      RunInv(trace, steps, 0);
    } else {
      RunSafe(trace, steps, k - 1);
      assert NextAt(trace, steps, k - 1) && InOrder(trace[k - 1], steps[k - 1]);
      StepIsSafe(trace[k - 1], steps[k - 1], trace[k]);
      RunInv(trace, steps, k);
    }
  }

  lemma CommittedInLaterReign(s: Cluster, term: nat, t: nat)
    requires SafeInv(s) && term in s.reigns && t in s.reigns && term < t
    ensures s.reigns[term].committed <= |s.reigns[term].log|
    ensures s.reigns[term].log[..s.reigns[term].committed] <= s.reigns[t].initial
  {
    var r := s.reigns[term];
    assert ReignCommitOk(s, term);
    if r.committed > 0 {
      var q :| QuorumHolds(s, term, r.committed, q);
      LaterLeadersHold(s, term, r.committed, q, t);
    }
  }

  /** From the end of a run back to the two times at which the reigns were looked at. */
  lemma HeldAtEarlierTimes(r: Reign, r': Reign, own: Reign, own': Reign)
    requires Continues(r, r') && Continues(own, own') && own.initial <= own.log
    requires r.committed <= |r.log| && r'.committed <= |r'.log| && r'.log[..r'.committed] <= own'.initial
    ensures r.log[..r.committed] <= own.log
  {
  }

  /** The log of a leader of a later term, looked at in `now`, holds what was committed in `then'`; both come
      before `end`. */
  lemma LaterLeaderHolds(then': Cluster, now: Cluster, end: Cluster, term: nat, b: nat)
    requires SafeInv(end) && Extends(then'.reigns, end.reigns) && Extends(now.reigns, end.reigns)
    requires term in then'.reigns && ReignCommitOk(then', term)
    requires b < |now.nodes| && Formed(now.nodes[b], b, |now.nodes|) && NodeOk(now, b) && ReignsInv(now)
    requires now.nodes[b].role == Leader && now.nodes[b].term > term
    ensures var r := then'.reigns[term]; r.committed <= |r.log| && r.log[..r.committed] <= now.nodes[b].log.entries
  {
    var n := now.nodes[b];
    var own := now.reigns[n.term];
    assert ReignOk(now, n.term, own);
    CommittedInLaterReign(end, term, n.term);
    HeldAtEarlierTimes(then'.reigns[term], end.reigns[term], own, end.reigns[n.term]);
  }

  lemma ReignAt(trace: seq<Cluster>, steps: seq<Step>, j: nat, term: nat)
    requires InOrderRun(trace, steps) && j < |trace| && term in trace[j].reigns
    ensures ReignCommitOk(trace[j], term) && trace[j].reigns[term].committed <= |trace[j].reigns[term].log|
  {
    RunSafe(trace, steps, j);
  }

  lemma LeaderAt(trace: seq<Cluster>, steps: seq<Step>, k: nat, b: nat)
    requires InOrderRun(trace, steps) && k < |trace| && b < |trace[0].nodes|
    ensures |trace[k].nodes| == |trace[0].nodes| && ReignsInv(trace[k])
    ensures Formed(trace[k].nodes[b], b, |trace[k].nodes|) && NodeOk(trace[k], b)
  {
    RunSafe(trace, steps, k);
  }

  /** Leader completeness: what a leader has committed by any time of the run is at the same place in
      the log of every leader of a later term, at any time of the run. */
  lemma LeaderCompletenessHolds(trace: seq<Cluster>, steps: seq<Step>, j: nat, k: nat, term: nat, b: nat)
    requires InOrderRun(trace, steps) && j < |trace| && k < |trace| && b < |trace[0].nodes|
    requires term in trace[j].reigns
    ensures |trace[k].nodes| == |trace[0].nodes|
    ensures var r, n := trace[j].reigns[term], trace[k].nodes[b];
            && r.committed <= |r.log|
            && (n.role == Leader && n.term > term ==> r.log[..r.committed] <= n.log.entries)
  {
    var end := if j < k then k else j;
    ReignAt(trace, steps, j, term);
    LeaderAt(trace, steps, k, b);
    if trace[k].nodes[b].role == Leader && trace[k].nodes[b].term > term {
      RunSafe(trace, steps, end);
      RunExtends(trace, steps, j, end);
      RunExtends(trace, steps, k, end);
      LaterLeaderHolds(trace[j], trace[k], trace[end], term, b);
    }
  }

  lemma CommittedLogsAgree(s: Cluster, early: Cluster, late: Cluster, a: nat, b: nat)
    requires SafeInv(s) && Later(early, s) && Later(late, s) && a < |s.nodes| && b < |s.nodes|
    requires NodeCommitOk(early, a) && NodeCommitOk(late, b)
    requires early.nodes[a].commitIndex <= late.nodes[b].commitIndex
    ensures early.nodes[a].commitIndex <= |LogOf(late, b)|
    ensures LogOf(early, a)[..early.nodes[a].commitIndex] == LogOf(late, b)[..early.nodes[a].commitIndex]
  {
    var n, n' := early.nodes[a], late.nodes[b];
    if n.commitIndex > 0 {
      var t: nat :| Source(early, a, t);
      var t': nat :| Source(late, b, t');
      assert ReignCommitOk(s, t) && ReignCommitOk(s, t');
      CommittedStays(early.reigns, s.reigns, t, n.commitIndex, n.log.entries);
      CommittedStays(late.reigns, s.reigns, t', n'.commitIndex, n'.log.entries);
      CommittedAgree(s, t, n.commitIndex, n.log.entries, t', n'.commitIndex, n'.log.entries);
    }
  }

  lemma LaterTransitively(s: Cluster, s': Cluster, s'': Cluster)
    requires Later(s, s') && Later(s', s'')
    ensures Later(s, s'')
  {
  }

  lemma RunStepIsLater(trace: seq<Cluster>, steps: seq<Step>, k: nat)
    requires InOrderRun(trace, steps) && k < |steps|
    ensures Later(trace[k], trace[k + 1])
  {
    RunInv(trace, steps, k);
    RunSafe(trace, steps, k + 1);
    assert NextAt(trace, steps, k);
    StepIsLater(trace[k], steps[k], trace[k + 1]);
  }

  lemma StateIsLaterThanItself(trace: seq<Cluster>, steps: seq<Step>, k: nat)
    requires InOrderRun(trace, steps) && k < |trace|
    ensures Later(trace[k], trace[k])
  {
    RunSafe(trace, steps, k);
  }

  lemma {:induction false} ChainIsLater(trace: seq<Cluster>, j: nat, k: nat)
    requires j <= k < |trace| && Later(trace[j], trace[j])
    requires forall i :: j <= i < k ==> Later(trace[i], trace[i + 1])
    ensures Later(trace[j], trace[k])
    decreases k - j
  {
    if j == k {
    } else {
      ChainIsLater(trace, j, k - 1);
      LaterTransitively(trace[j], trace[k - 1], trace[k]);
    }
  }

  lemma RunIsLater(trace: seq<Cluster>, steps: seq<Step>, j: nat, k: nat)
    requires InOrderRun(trace, steps) && j <= k < |trace|
    ensures Later(trace[j], trace[k])
  {
    forall i | j <= i < k ensures Later(trace[i], trace[i + 1]) {
      RunStepIsLater(trace, steps, i);
    }
    StateIsLaterThanItself(trace, steps, j);
    ChainIsLater(trace, j, k);
  }

  /** State machine safety: take any two nodes at any two times of the run. Up to the lower of their
      commit indices their logs are equal, and one's applied command list begins the other's. */
  lemma StateMachineSafetyHolds(trace: seq<Cluster>, steps: seq<Step>, j: nat, k: nat, a: nat, b: nat)
    requires InOrderRun(trace, steps) && j < |trace| && k < |trace| && a < |trace[0].nodes| && b < |trace[0].nodes|
    requires |trace[j].nodes| == |trace[k].nodes| == |trace[0].nodes|
    requires trace[j].nodes[a].commitIndex <= trace[k].nodes[b].commitIndex
    ensures var n, n' := trace[j].nodes[a], trace[k].nodes[b];
            && n.commitIndex <= |n.log.entries| && n.commitIndex <= |n'.log.entries|
            && n.log.entries[..n.commitIndex] == n'.log.entries[..n.commitIndex]
            && n.applied <= n'.applied
  {
    var end := if j < k then k else j;
    RunSafe(trace, steps, end);
    RunIsLater(trace, steps, j, end);
    RunIsLater(trace, steps, k, end);
    NodeCommitOkInRun(trace, steps, j, a);
    NodeCommitOkInRun(trace, steps, k, b);
    CommittedLogsAgree(trace[end], trace[j], trace[k], a, b);
    AppliedBegins(trace[j].nodes[a], trace[k].nodes[b]);
  }

  lemma NodeCommitOkInRun(trace: seq<Cluster>, steps: seq<Step>, k: nat, i: nat)
    requires InOrderRun(trace, steps) && k < |trace| && i < |trace[0].nodes|
    ensures i < |trace[k].nodes| && NodeCommitOk(trace[k], i)
  {
    RunSafe(trace, steps, k);
  }

  lemma AppliedBegins(n: Node, n': Node)
    requires AppliedOk(n) && AppliedOk(n') && n.commitIndex <= n'.commitIndex
    requires n.log.entries[..n.commitIndex] == n'.log.entries[..n.commitIndex]
    ensures n.applied <= n'.applied
  {
    CommandsAgree(n.log, n'.log, n.commitIndex);
    CommandsSplit(n'.log, 0, n.commitIndex, n'.commitIndex);
  }
}
