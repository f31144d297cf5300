/** In every run, in whatever order requests are handled, each commit of a leader is the one that section
    5.4.2 of the Raft paper allows (cluster/raft_node.hpp:294-302). */
module CommitsInRuns {
  import opened RaftLogs
  import opened CommitRule
  import opened RaftNodes
  import opened RaftCluster
  import opened RaftInvariants
  import opened StateMachineSafety

  /** The nodes that a leader knows to hold its log up to index c. */
  function Reached(n: Node, c: nat): set<nat> {
    set p: nat | p < n.size && (if p == n.id then n.log.LastIndex() >= c else p in n.matchIndex && n.matchIndex[p] >= c)
  }

  /** The rule of the paper: more than half have index c, and its entry is of the leader's own term. */
  ghost predicate PaperAllows(n: Node, c: nat) {
    c > n.commitIndex && 2 * |Reached(n, c)| > n.size && n.log.TermAt(c) == n.term
  }

  /** Commit index r is the largest that the paper's rule allows, or the old one if it allows none. */
  ghost predicate ByPapersRule(n: Node, r: nat) {
    && (r != n.commitIndex <==> exists c: nat :: PaperAllows(n, c))
    && (r != n.commitIndex ==> PaperAllows(n, r))
    && forall c: nat :: PaperAllows(n, c) ==> c <= r
  }

  function ReachedBelow(matchIndex: map<nat, nat>, bound: nat, c: nat): set<nat> {
    set p: nat | p < bound && p in matchIndex && matchIndex[p] >= c
  }

  lemma {:induction false} CountIsReached(matchIndex: map<nat, nat>, bound: nat, c: nat)
    ensures CountMatching(matchIndex, bound, c) == |ReachedBelow(matchIndex, bound, c)|
  {
    if bound == 0 {
      assert ReachedBelow(matchIndex, bound, c) == {};
    } else {
      var p := bound - 1;
      CountIsReached(matchIndex, p, c);
      CountNext(matchIndex, p, c);
      assert ReachedBelow(matchIndex, bound, c) ==
             ReachedBelow(matchIndex, p, c) + if p in matchIndex && matchIndex[p] >= c then {p} else {};
    }
  }

  /** The match values stand for the nodes that are known to have reached the index. */
  lemma ValuesStandForNodes(n: Node, c: nat)
    requires n.Valid() && n.role == Leader
    ensures MayCommit(c, ValuesOf(n), n.size, n.commitIndex, n.term, TermsOf(n.log)) <==> PaperAllows(n, c)
  {
    CountIsReached(n.matchIndex, n.size, c);
    ReachedWithItself(n, c);
    assert ValuesOf(n)[1..] == MatchValues(n.matchIndex, n.size);
  }

  lemma ReachedWithItself(n: Node, c: nat)
    requires n.Valid() && n.role == Leader
    ensures |Reached(n, c)| == |ReachedBelow(n.matchIndex, n.size, c)| + if n.log.LastIndex() >= c then 1 else 0
  {
    var peers := ReachedBelow(n.matchIndex, n.size, c);
    assert Reached(n, c) == peers + (if n.log.LastIndex() >= c then {n.id} else {}) && n.id !in peers;
  }

  ghost predicate Ascending(log: seq<Entry>, term: nat) {
    forall j, k :: 0 <= j <= k < |log| ==> log[j].term <= log[k].term <= term
  }

  /** Terms never decrease along a log. */
  lemma TermsAscend(log: seq<Entry>, reigns: map<nat, Reign>, j: nat, k: nat)
    requires Anchored(log, reigns) && j <= k < |log|
    requires forall t :: t in reigns ==> ReignLogOk(t, reigns[t])
    ensures log[j].term <= log[k].term
  {
    var t := log[k].term;
    assert AnchoredAt(log, k, reigns);
    assert log[j] == log[..k + 1][j] == reigns[t].log[..k + 1][j];
  }

  lemma {:induction false} ValuesWithin(matchIndex: map<nat, nat>, bound: nat, last: nat)
    requires forall p :: p in matchIndex ==> matchIndex[p] <= last
    ensures forall k :: 0 <= k < |MatchValues(matchIndex, bound)| ==> MatchValues(matchIndex, bound)[k] <= last
  {
    if bound == 0 {
    } else {
      ValuesWithin(matchIndex, bound - 1, last);
    }
  }

  /** A leader knows of no peer that is ahead of its own log. */
  lemma MatchWithinLog(s: Cluster, i: nat, p: nat)
    requires Inv(s) && i < |s.nodes| && s.nodes[i].role == Leader && p in s.nodes[i].matchIndex
    ensures s.nodes[i].matchIndex[p] <= |LogOf(s, i)|
  {
    var n := s.nodes[i];
    assert NodeOk(s, i) && LeaderOk(s, i);
    assert TracksOk(n, s.acks) && p in Peers(n.id, n.size);
    if n.matchIndex[p] > 0 { assert AckOk(s, Ack(n.term, p, n.matchIndex[p])); }
  }

  lemma LogTermsAscend(s: Cluster, i: nat)
    requires Inv(s) && i < |s.nodes|
    ensures s.nodes[i].log.snapIndex == 0
    ensures Ascending(LogOf(s, i), s.nodes[i].term)
  {
    assert NodeOk(s, i);
    forall t | t in s.reigns ensures ReignLogOk(t, s.reigns[t]) { assert ReignOk(s, t, s.reigns[t]); }
    forall j, k | 0 <= j <= k < |LogOf(s, i)| ensures LogOf(s, i)[j].term <= LogOf(s, i)[k].term <= s.nodes[i].term {
      TermsAscend(LogOf(s, i), s.reigns, j, k);
    }
  }

  /** On an uncompacted log with ascending terms, and match values inside it, the decision is the paper's. */
  lemma DecisionIsPapers(n: Node)
    requires n.Valid() && n.role == Leader && n.log.snapIndex == 0
    requires Ascending(n.log.entries, n.term)
    requires forall p :: p in n.matchIndex ==> n.matchIndex[p] <= |n.log.entries|
    ensures ByPapersRule(n, AdvanceCommit(n).commitIndex)
  {
    var last := n.log.LastIndex();
    DecisionOf(n);
    ValuesWithin(n.matchIndex, n.size, last);
    forall i, j | 1 <= i <= j <= last ensures TermsOf(n.log)(i) <= TermsOf(n.log)(j) <= n.term {
      assert n.log.entries[i - 1].term <= n.log.entries[j - 1].term;
    }
    CommitShortcutIsThePaperRule(ValuesOf(n), n.size, n.commitIndex, n.term, TermsOf(n.log), last);
    RuleIsPapers(n, Decision(n));
  }

  lemma RuleIsPapers(n: Node, r: nat)
    requires n.Valid() && n.role == Leader
    requires r != n.commitIndex <==> exists c: nat :: MayCommit(c, ValuesOf(n), n.size, n.commitIndex, n.term, TermsOf(n.log))
    requires r != n.commitIndex ==> MayCommit(r, ValuesOf(n), n.size, n.commitIndex, n.term, TermsOf(n.log))
    requires forall c: nat :: MayCommit(c, ValuesOf(n), n.size, n.commitIndex, n.term, TermsOf(n.log)) ==> c <= r
    ensures ByPapersRule(n, r)
  {
    forall c: nat ensures MayCommit(c, ValuesOf(n), n.size, n.commitIndex, n.term, TermsOf(n.log)) <==> PaperAllows(n, c) {
      ValuesStandForNodes(n, c);
    }
  }

  /** The step runs advance_commit_index_locked: a leader's proposal, or a success of its own term. */
  predicate Advances(n: Node, step: Step)
    requires Ready(n, step)
  {
    n.role == Leader &&
    (step.Submit? ||
     (step.ReceiveReply? && step.m.reply.term <= n.term && step.m.requestTerm == n.term && step.m.reply.success))
  }

  lemma AdvancingReply(n: Node, step: Step)
    requires n.Valid() && Ready(n, step) && Advances(n, step) && step.ReceiveReply?
    ensures BeforeAdvance(n, step).Valid() && BeforeAdvance(n, step).role == Leader
    ensures After(n, step) == AdvanceCommit(BeforeAdvance(n, step))
  {
  }

  lemma AdvancingProposal(n: Node, step: Step)
    requires n.Valid() && Ready(n, step) && Advances(n, step) && step.Submit?
    ensures BeforeAdvance(n, step).Valid() && BeforeAdvance(n, step).role == Leader
    ensures After(n, step) == AdvanceCommit(BeforeAdvance(n, step))
  {
  }

  lemma AdvancingStep(n: Node, step: Step)
    requires n.Valid() && Ready(n, step) && Advances(n, step)
    ensures BeforeAdvance(n, step).Valid() && BeforeAdvance(n, step).role == Leader
    ensures After(n, step) == AdvanceCommit(BeforeAdvance(n, step))
  {
    if step.Submit? {
      AdvancingProposal(n, step);
    } else {
      AdvancingReply(n, step);
    }
  }

  lemma AdvanceLeavesLog(n: Node)
    requires n.Valid() && n.role == Leader
    ensures var n' := AdvanceCommit(n); n'.role == Leader && n'.log == n.log && n'.matchIndex == n.matchIndex && n'.term == n.term
  {
  }

  /** In every run each commit decision is the one of the paper. */
  lemma CommitsByPapersRule(trace: seq<Cluster>, steps: seq<Step>, k: nat)
    requires Run(trace, steps) && k < |steps|
    ensures steps[k].i < |trace[k].nodes|
    ensures var n, step := trace[k].nodes[steps[k].i], steps[k];
            && n.Valid() && Ready(n, step)
            && (Advances(n, step) ==> ByPapersRule(BeforeAdvance(n, step), After(n, step).commitIndex))
  {
    var s, step, s' := trace[k], steps[k], trace[k + 1];
    assert NextAt(trace, steps, k);
    RunInv(trace, steps, k + 1);
    if Advances(s.nodes[step.i], step) { StepByPapersRule(s', s.nodes[step.i], step); }
  }

  lemma StepByPapersRule(s': Cluster, n: Node, step: Step)
    requires Inv(s') && step.i < |s'.nodes| && n.Valid() && Ready(n, step) && Advances(n, step)
    requires s'.nodes[step.i] == After(n, step)
    ensures ByPapersRule(BeforeAdvance(n, step), After(n, step).commitIndex)
  {
    AdvancingStep(n, step);
    var before := BeforeAdvance(n, step);
    AdvanceLeavesLog(before);
    assert before.log.entries == LogOf(s', step.i);
    LogTermsAscend(s', step.i);
    forall p | p in before.matchIndex ensures before.matchIndex[p] <= |before.log.entries| {
      MatchWithinLog(s', step.i, p);
    }
    DecisionIsPapers(before);
  }
}
