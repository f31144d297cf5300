/** Leader completeness and state machine safety (sections 5.4.1 to 5.4.3 of the Raft paper), for
    every run in which each follower handles the requests of one leader in the order they were sent. */
module LeaderCompleteness {
  import opened RaftLogs
  import opened CommitRule
  import opened FiniteSets
  import opened RaftNodes
  import opened RaftCluster
  import opened RaftInvariants

  /** Index n of that reign holds an entry the leader itself appended. */
  ghost predicate OwnEntry(reigns: map<nat, Reign>, term: nat, n: nat) {
    term in reigns && |reigns[term].initial| < n <= |reigns[term].log|
  }

  /** Some leader after `term`, up to term `last`, was elected without the first n entries. */
  ghost predicate LostBy(reigns: map<nat, Reign>, term: nat, n: nat, last: nat)
    requires OwnEntry(reigns, term, n)
  {
    exists t :: t in reigns && term < t <= last && !(reigns[term].log[..n] <= reigns[t].initial)
  }

  /** Who confirmed index n still has it, unless a later leader came without it. */
  ghost predicate NodeKeeps(s: Cluster, a: Ack, n: nat) {
    a.node < |s.nodes| && OwnEntry(s.reigns, a.term, n) ==>
      || s.reigns[a.term].log[..n] <= LogOf(s, a.node)
      || LostBy(s.reigns, a.term, n, s.nodes[a.node].term)
  }

  /** So has every candidate that one who confirmed it voted for. */
  ghost predicate CandidateKeeps(s: Cluster, v: Vote, a: Ack, n: nat) {
    && v.candidate < |s.nodes| && OwnEntry(s.reigns, a.term, n)
    && v.voter == a.node && a.term < v.term
    && s.nodes[v.candidate].term == v.term && s.nodes[v.candidate].role == Candidate ==>
      || s.reigns[a.term].log[..n] <= LogOf(s, v.candidate)
      || LostBy(s.reigns, a.term, n, v.term)
  }

  /** And so has every leader elected with such a vote; here only earlier leaders can be to blame. */
  ghost predicate LeaderKeeps(reigns: map<nat, Reign>, t: nat, a: Ack, n: nat) {
    t in reigns && OwnEntry(reigns, a.term, n) && a.node in reigns[t].voters && a.term < t ==>
      || reigns[a.term].log[..n] <= reigns[t].initial
      || LostBy(reigns, a.term, n, t - 1)
  }

  ghost predicate KeepsInv(s: Cluster) {
    && (forall a, n: nat :: a in s.acks && n <= a.index ==> NodeKeeps(s, a, n))
    && (forall v, a, n: nat :: v in s.votes && a in s.acks && n <= a.index ==> CandidateKeeps(s, v, a, n))
    && (forall t, a, n: nat :: t in s.reigns && a in s.acks && n <= a.index ==> LeaderKeeps(s.reigns, t, a, n))
  }

  lemma LostStays(reigns: map<nat, Reign>, reigns': map<nat, Reign>, term: nat, n: nat, last: nat, last': nat)
    requires OwnEntry(reigns, term, n) && Extends(reigns, reigns') && last <= last'
    ensures OwnEntry(reigns', term, n) && reigns'[term].log[..n] == reigns[term].log[..n]
    ensures LostBy(reigns, term, n, last) ==> LostBy(reigns', term, n, last')
  {
  }

  // ---- Nodes keep what they confirmed ----

  /** Where a request in order overwrites a log, it covers all that was confirmed in its term. */
  lemma InOrderCovers(s: Cluster, i: nat, m: Message, a: Ack)
    requires Inv(s) && a in s.acks && a.node == i && m in s.msgs && m.AppendMsg? && m.to == i
    requires i < |s.nodes| && !m.part && m.append.term == a.term && InOrder(s, AnswerAppend(i, m))
    ensures a.index <= LastCovered(m.append)
  {
    assert AckOk(s, a) && MessageOk(s, m);
    var h :| h in s.handled && h.0 == i && h.1.AppendMsg? && h.1.append.term == a.term
             && a.index <= LastCovered(h.1.append);
    assert h.1 in s.msgs;
  }

  /** What an overwriting request puts in place of a confirmed entry. */
  lemma OverwriteKeeps(s: Cluster, i: nat, m: Message, a: Ack, n: nat)
    requires Inv(s) && a in s.acks && a.node == i && m in s.msgs && m.AppendMsg? && m.to == i
    requires i < |s.nodes| && !m.part && InOrder(s, AnswerAppend(i, m)) && a.term <= m.append.term
    requires n <= a.index && OwnEntry(s.reigns, a.term, n)
    ensures m.append.term in s.reigns && LastCovered(m.append) <= |s.reigns[m.append.term].log|
    ensures || s.reigns[a.term].log[..n] <= s.reigns[m.append.term].log[..LastCovered(m.append)]
            || LostBy(s.reigns, a.term, n, m.append.term)
  {
    assert MessageOk(s, m);
    var kept, t := s.reigns[a.term].log[..n], m.append.term;
    if t == a.term {
      InOrderCovers(s, i, m, a);
    } else if kept <= s.reigns[t].initial {
      assert ReignOk(s, t, s.reigns[t]);
      assert s.reigns[t].initial <= s.reigns[t].log[..LastCovered(m.append)];
    } else {
      assert t in s.reigns && a.term < t <= t;
    }
  }

  lemma AppendKeeps(s: Cluster, i: nat, m: Message, a: Ack, n: nat)
    requires Inv(s) && i < |s.nodes| && m in s.msgs && m.AppendMsg? && m.to == i
    requires InOrder(s, AnswerAppend(i, m))
    requires a in s.acks && n <= a.index && a.node == i && NodeKeeps(s, a, n) && OwnEntry(s.reigns, a.term, n)
    ensures var n' := HandleAppend(s.nodes[i], m.append).0;
            s.reigns[a.term].log[..n] <= n'.log.entries || LostBy(s.reigns, a.term, n, n'.term)
  {
    HandleAppendTerm(s.nodes[i], m.append);
    if LostBy(s.reigns, a.term, n, s.nodes[i].term) {
      LostStays(s.reigns, s.reigns, a.term, n, s.nodes[i].term, HandleAppend(s.nodes[i], m.append).0.term);
    } else if HandleAppend(s.nodes[i], m.append).0.log.entries != LogOf(s, i) {
      ReplacedKeeps(s, i, m, a, n);
    }
  }

  lemma ReplacedKeeps(s: Cluster, i: nat, m: Message, a: Ack, n: nat)
    requires Inv(s) && i < |s.nodes| && m in s.msgs && m.AppendMsg? && m.to == i
    requires InOrder(s, AnswerAppend(i, m))
    requires a in s.acks && n <= a.index && a.node == i && OwnEntry(s.reigns, a.term, n)
    requires s.reigns[a.term].log[..n] <= LogOf(s, i)
    requires HandleAppend(s.nodes[i], m.append).0.log.entries != LogOf(s, i)
    ensures var n' := HandleAppend(s.nodes[i], m.append).0;
            s.reigns[a.term].log[..n] <= n'.log.entries || LostBy(s.reigns, a.term, n, n'.term)
  {
    assert AckOk(s, a) && NodeOk(s, i);
    AppendEffect(s, i, m);
    HandleAppendLog(s.nodes[i], m.append);
    HandleAppendTerm(s.nodes[i], m.append);
    HandleAppendLeads(s.nodes[i], m.append);
    if m.part { PartKeeps(s, i, m, a, n); } else { OverwriteKeeps(s, i, m, a, n); }
  }

  /** What a snapshot stands for does not cut off a confirmed entry: the leader has that entry too, so
      the log would agree with it at the end of the snapshot. */
  lemma PartKeeps(s: Cluster, i: nat, m: Message, a: Ack, n: nat)
    requires Inv(s) && i < |s.nodes| && a in s.acks && a.node == i && m in s.msgs && m.AppendMsg? && m.to == i
    requires m.part && InOrder(s, AnswerAppend(i, m)) && a.term <= m.append.term && m.append.entries != []
    requires n <= a.index && OwnEntry(s.reigns, a.term, n)
    requires s.reigns[a.term].log[..n] <= LogOf(s, i)
    ensures m.append.term in s.reigns && LastCovered(m.append) <= |s.reigns[m.append.term].log|
    ensures || s.reigns[a.term].log[..n] <= s.reigns[m.append.term].log[..LastCovered(m.append)]
            || LostBy(s.reigns, a.term, n, m.append.term)
  {
    assert MessageOk(s, m);
    var kept, t := s.reigns[a.term].log[..n], m.append.term;
    if t == a.term || kept <= s.reigns[t].initial {
      assert ReignOk(s, t, s.reigns[t]);
      CutNeedsConflict(s.nodes[i], m.append, s.reigns[t].log, kept);
    } else {
      assert t in s.reigns && a.term < t <= t;
    }
  }

  /** A request that cuts nothing off covers whatever the node's log has in common with the sender's. */
  lemma CutNeedsConflict(n: Node, a: AppendRequest, leaderLog: seq<Entry>, common: seq<Entry>)
    requires CutsNothing(n, a) && a.entries != [] && common <= n.log.entries && common <= leaderLog
    requires LastCovered(a) <= |leaderLog| && a.entries == leaderLog[a.prevIndex..LastCovered(a)]
    ensures |common| <= LastCovered(a) && common <= leaderLog[..LastCovered(a)]
  {
    var last := LastCovered(a);
    assert a.entries[|a.entries| - 1] == leaderLog[last - 1];
    if |common| >= last {
      assert n.log.entries[last - 1] == common[last - 1] == leaderLog[last - 1];
    }
  }

  /** Every step but a handled request leaves a log in place, apart from what a leader adds. */
  lemma LogGrows(n: Node, step: Step)
    requires n.Valid() && Ready(n, step) && !step.AnswerAppend?
    ensures n.log.entries <= After(n, step).log.entries
  {
  }

  lemma OldAckKept(s: Cluster, step: Step, s': Cluster, a: Ack, n: nat)
    requires Inv(s) && KeepsInv(s) && Next(s, step, s') && InOrder(s, step)
    requires a in s.acks && n <= a.index
    ensures NodeKeeps(s', a, n)
  {
    StepEvolves(s, step, s');
    ReignsExtend(s, step, s');
    assert AckOk(s, a) && NodeKeeps(s, a, n);
    if OwnEntry(s'.reigns, a.term, n) && step.AnswerAppend? && a.node == step.i {
      assert step == AnswerAppend(step.i, step.m);
      AppendKeeps(s, step.i, step.m, a, n);
    } else if OwnEntry(s'.reigns, a.term, n) {
      assert OwnEntry(s.reigns, a.term, n);
      LostStays(s.reigns, s'.reigns, a.term, n, s.nodes[a.node].term, s'.nodes[a.node].term);
      if a.node == step.i { LogGrows(s.nodes[step.i], step); }
    }
  }

  lemma AppendAckKept(s: Cluster, i: nat, m: Message, n: nat)
    requires Inv(s) && i < |s.nodes| && m in s.msgs && m.AppendMsg? && m.to == i && n <= LastCovered(m.append)
    requires HandleAppend(s.nodes[i], m.append).1.success
    ensures m.append.term in s.reigns && n <= |s.reigns[m.append.term].log|
    ensures s.reigns[m.append.term].log[..n] <= HandleAppend(s.nodes[i], m.append).0.log.entries
  {
    AppendEffect(s, i, m);
    BeginningOfBeginning(s.reigns[m.append.term].log, HandleAppend(s.nodes[i], m.append).0.log.entries, LastCovered(m.append), n);
  }

  lemma BeginningOfBeginning(a: seq<Entry>, b: seq<Entry>, long: nat, short: nat)
    requires short <= long <= |a| && long <= |b| && b[..long] == a[..long]
    ensures a[..short] <= b
  {
    assert a[..short] == a[..long][..short] && b[..short] == b[..long][..short];
  }

  lemma NewAckKept(s: Cluster, step: Step, s': Cluster, a: Ack, n: nat)
    requires Inv(s) && Next(s, step, s') && a in AcksGiven(s.nodes[step.i], step) && n <= a.index
    ensures NodeKeeps(s', a, n)
  {
    if step.AnswerAppend? {
      AppendAckKept(s, step.i, step.m, n);
    } else {
      OwnAckKept(s, step, s', a, n);
    }
  }

  lemma OwnAckKept(s: Cluster, step: Step, s': Cluster, a: Ack, n: nat)
    requires Inv(s) && Next(s, step, s') && !step.AnswerAppend? && a in AcksGiven(s.nodes[step.i], step) && n <= a.index
    ensures NodeKeeps(s', a, n)
  {
    NodeOkAfterSubmit(s, step, s');
    ProposeAppends(s.nodes[step.i], step.command);
  }

  // ---- Candidates ----

  /** A log that ends in term t is the beginning of that leader's log. */
  lemma EndsInReign(log: seq<Entry>, reigns: map<nat, Reign>)
    requires Anchored(log, reigns) && log != []
    ensures log[|log| - 1].term in reigns && log <= reigns[log[|log| - 1].term].log
  {
    assert AnchoredAt(log, |log| - 1, reigns);
    assert log[..|log|] == log;
  }

  /** Section 5.4.1: a log at least as up to date as one that holds a leader's entry holds it too,
      unless it ends in a reign that began without it. */
  lemma UpToDateContains(log: seq<Entry>, candidate: seq<Entry>, reigns: map<nat, Reign>, term: nat, n: nat)
    requires Anchored(log, reigns) && Anchored(candidate, reigns)
    requires forall t :: t in reigns ==> ReignLogOk(t, reigns[t])
    requires OwnEntry(reigns, term, n) && reigns[term].log[..n] <= log
    requires var last, last' := Uncompacted(log).LastTerm(), Uncompacted(candidate).LastTerm();
             last' > last || (last' == last && |candidate| >= |log|)
    ensures reigns[term].log[..n] <= candidate || LostBy(reigns, term, n, Uncompacted(candidate).LastTerm())
  {
    var kept := reigns[term].log[..n];
    EndsInReign(log, reigns);
    var last, last' := log[|log| - 1].term, Uncompacted(candidate).LastTerm();
    assert log[n - 1] == kept[n - 1] && log[n - 1] == reigns[last].log[n - 1];
    assert ReignLogOk(last, reigns[last]) && ReignLogOk(term, reigns[term]);
    assert term <= last;
    EndsInReign(candidate, reigns);
    assert ReignLogOk(last', reigns[last']);
    if last' == last {
      assert candidate[..|log|] == log;
    } else if kept <= reigns[last'].initial {
      assert candidate[|candidate| - 1].term == last';
      assert reigns[last'].initial <= candidate;
    } else {
      assert last' in reigns && term < last' <= last';
    }
  }

  lemma ReignLogsOk(s: Cluster)
    requires ReignsInv(s)
    ensures forall t :: t in s.reigns ==> ReignLogOk(t, s.reigns[t])
  {
  }

  /** The same for two nodes, up to the candidate's term. */
  lemma MoreUpToDate(voter: Node, candidate: Node, reigns: map<nat, Reign>, term: nat, n: nat)
    requires voter.log.snapIndex == 0 && voter.log.snapTerm == 0 && candidate.log.snapIndex == 0 && candidate.log.snapTerm == 0
    requires Anchored(voter.log.entries, reigns) && Anchored(candidate.log.entries, reigns)
    requires TermsWithin(candidate.log.entries, candidate.term)
    requires forall t :: t in reigns ==> ReignLogOk(t, reigns[t])
    requires OwnEntry(reigns, term, n) && reigns[term].log[..n] <= voter.log.entries
    requires candidate.log.LastTerm() > voter.log.LastTerm() ||
             (candidate.log.LastTerm() == voter.log.LastTerm() && candidate.log.LastIndex() >= voter.log.LastIndex())
    ensures reigns[term].log[..n] <= candidate.log.entries || LostBy(reigns, term, n, candidate.term)
  {
    UpToDateContains(voter.log.entries, candidate.log.entries, reigns, term, n);
    LostStays(reigns, reigns, term, n, candidate.log.LastTerm(), candidate.term);
  }

  /** Who grants a vote to a candidate with that log hands over what it confirmed. */
  lemma VoterHandsOver(s: Cluster, i: nat, c: nat, req: VoteRequest, a: Ack, n: nat)
    requires NodesInv(s) && ReignsInv(s) && i < |s.nodes| && c < |s.nodes| && OwnEntry(s.reigns, a.term, n)
    requires s.reigns[a.term].log[..n] <= LogOf(s, i) && UpToDate(req, s.nodes[i].log)
    requires req.lastIndex == s.nodes[c].log.LastIndex() && req.lastTerm == s.nodes[c].log.LastTerm()
    ensures s.reigns[a.term].log[..n] <= LogOf(s, c) || LostBy(s.reigns, a.term, n, s.nodes[c].term)
  {
    assert NodeOk(s, i) && NodeOk(s, c);
    ReignLogsOk(s);
    MoreUpToDate(s.nodes[i], s.nodes[c], s.reigns, a.term, n);
  }

  lemma GrantImpliesUpToDate(n: Node, req: VoteRequest)
    requires HandleVote(n, req).1.granted
    ensures UpToDate(req, n.log) && n.term <= req.term
  {
  }

  lemma GrantedVoteKeeps(s: Cluster, step: Step, s': Cluster, v: Vote, a: Ack, n: nat)
    requires Inv(s) && KeepsInv(s) && Next(s, step, s') && step.AnswerVote?
    requires v in VotesCast(s.nodes[step.i], step) && a in s.acks && n <= a.index
    ensures CandidateKeeps(s', v, a, n)
  {
    var i, c, req := step.i, v.candidate, step.m.req;
    assert MessageOk(s, step.m) && NodeKeeps(s, a, n);
    GrantImpliesUpToDate(s.nodes[i], req);
    if && a.node == i && OwnEntry(s.reigns, a.term, n)
       && s.nodes[c].term == v.term && s.nodes[c].role == Candidate
    {
      HandedOver(s, i, c, req, a, n);
    }
  }

  lemma HandedOver(s: Cluster, i: nat, c: nat, req: VoteRequest, a: Ack, n: nat)
    requires NodesInv(s) && ReignsInv(s) && i < |s.nodes| && c < |s.nodes| && OwnEntry(s.reigns, a.term, n)
    requires s.reigns[a.term].log[..n] <= LogOf(s, i) || LostBy(s.reigns, a.term, n, s.nodes[i].term)
    requires UpToDate(req, s.nodes[i].log) && s.nodes[i].term <= s.nodes[c].term
    requires req.lastIndex == s.nodes[c].log.LastIndex() && req.lastTerm == s.nodes[c].log.LastTerm()
    ensures s.reigns[a.term].log[..n] <= LogOf(s, c) || LostBy(s.reigns, a.term, n, s.nodes[c].term)
  {
    if s.reigns[a.term].log[..n] <= LogOf(s, i) {
      VoterHandsOver(s, i, c, req, a, n);
    } else {
      LostStays(s.reigns, s.reigns, a.term, n, s.nodes[i].term, s.nodes[c].term);
    }
  }

  lemma OwnVoteKeeps(s: Cluster, step: Step, s': Cluster, v: Vote, a: Ack, n: nat)
    requires Inv(s) && KeepsInv(s) && Next(s, step, s') && step.Timeout?
    requires v in VotesCast(s.nodes[step.i], step) && a in s.acks && n <= a.index
    ensures CandidateKeeps(s', v, a, n)
  {
    assert NodeKeeps(s, a, n);
    if a.node == step.i && OwnEntry(s.reigns, a.term, n) {
      LostStays(s.reigns, s.reigns, a.term, n, s.nodes[step.i].term, v.term);
    }
  }

  lemma CandidateKeepsStays(s: Cluster, s': Cluster, v: Vote, a: Ack, n: nat)
    requires |s'.nodes| == |s.nodes| && Extends(s.reigns, s'.reigns) && CandidateKeeps(s, v, a, n)
    requires v.candidate < |s.nodes| && Evolves(s.nodes[v.candidate], s'.nodes[v.candidate])
    requires v.term <= s.nodes[v.candidate].term
    requires a.term in s.reigns && n <= a.index <= |s.reigns[a.term].log|
    ensures CandidateKeeps(s', v, a, n)
  {
  }

  lemma OldVoteKeeps(s: Cluster, step: Step, s': Cluster, v: Vote, a: Ack, n: nat)
    requires Inv(s) && KeepsInv(s) && Next(s, step, s')
    requires v in s.votes && a in s'.acks && n <= a.index
    ensures CandidateKeeps(s', v, a, n)
  {
    assert VoteOk(s, v);
    if a in s.acks {
      assert CandidateKeeps(s, v, a, n) && AckOk(s, a);
      StepEvolves(s, step, s');
      ReignsExtend(s, step, s');
      CandidateKeepsStays(s, s', v, a, n);
    } else {
      NewAckIsCurrent(s, step, a);
    }
  }

  /** A confirmation is given in the node's own term. */
  lemma NewAckIsCurrent(s: Cluster, step: Step, a: Ack)
    requires WellFormed(s) && Enabled(s, step) && a in AcksGiven(s.nodes[step.i], step)
    ensures a.node == step.i && a.term >= s.nodes[step.i].term
  {
  }

  // ---- Leaders ----

  /** Blame for an entry that a new leader lacks falls on an earlier reign. */
  lemma FreshReignKeeps(reigns: map<nat, Reign>, reigns': map<nat, Reign>, t: nat, a: Ack, n: nat)
    requires t !in reigns && t in reigns' && Extends(reigns, reigns') && OwnEntry(reigns, a.term, n) && a.term < t
    requires reigns[a.term].log[..n] <= reigns'[t].initial || LostBy(reigns, a.term, n, t)
    ensures LeaderKeeps(reigns', t, a, n)
  {
  }

  lemma WinnerKeeps(s: Cluster, step: Step, a: Ack, n: nat)
    requires Inv(s) && KeepsInv(s) && Enabled(s, step) && step.Win? && a in s.acks && n <= a.index
    requires a.node in step.grants + {step.i} && a.term < s.nodes[step.i].term
    ensures OwnEntry(s.reigns, a.term, n) ==>
              || s.reigns[a.term].log[..n] <= LogOf(s, step.i)
              || LostBy(s.reigns, a.term, n, s.nodes[step.i].term)
  {
    WinIsFresh(s, step);
    assert CandidateKeeps(s, Vote(s.nodes[step.i].term, a.node, step.i), a, n);
  }

  lemma NewLeaderKeeps(s: Cluster, step: Step, s': Cluster, a: Ack, n: nat)
    requires Inv(s) && KeepsInv(s) && Next(s, step, s') && step.Win? && a in s.acks && n <= a.index
    ensures LeaderKeeps(s'.reigns, s.nodes[step.i].term, a, n)
  {
    var t := s.nodes[step.i].term;
    WinIsFresh(s, step);
    ReignsExtend(s, step, s');
    if OwnEntry(s'.reigns, a.term, n) && a.node in s'.reigns[t].voters && a.term < t {
      assert AckOk(s, a);
      WinnerKeeps(s, step, a, n);
      FreshReignKeeps(s.reigns, s'.reigns, t, a, n);
    }
  }

  lemma LeaderKeepsStays(reigns: map<nat, Reign>, reigns': map<nat, Reign>, t: nat, a: Ack, n: nat)
    requires t in reigns && Extends(reigns, reigns') && LeaderKeeps(reigns, t, a, n)
    requires a.term in reigns && n <= a.index <= |reigns[a.term].log|
    ensures LeaderKeeps(reigns', t, a, n)
  {
  }

  lemma OldLeaderKeeps(s: Cluster, step: Step, s': Cluster, t: nat, a: Ack, n: nat)
    requires Inv(s) && KeepsInv(s) && Next(s, step, s') && t in s.reigns && a in s'.acks && n <= a.index
    ensures LeaderKeeps(s'.reigns, t, a, n)
  {
    ReignsExtend(s, step, s');
    if a in s.acks {
      assert LeaderKeeps(s.reigns, t, a, n) && AckOk(s, a);
      LeaderKeepsStays(s.reigns, s'.reigns, t, a, n);
    } else {
      NewAckIsCurrent(s, step, a);
      if step.i in s.reigns[t].voters { VoterHasTerm(s, t, step.i); }
      assert Continues(s.reigns[t], s'.reigns[t]);
    }
  }

  lemma VoterHasTerm(s: Cluster, t: nat, i: nat)
    requires Inv(s) && t in s.reigns && i in s.reigns[t].voters
    ensures i < |s.nodes| && t <= s.nodes[i].term
  {
  }

  lemma KeepsStays(s: Cluster, step: Step, s': Cluster)
    requires Inv(s) && KeepsInv(s) && Next(s, step, s') && InOrder(s, step)
    ensures KeepsInv(s')
  {
    ReignsExtend(s, step, s');
    forall a, n: nat | a in s'.acks && n <= a.index ensures NodeKeeps(s', a, n) {
      if a in s.acks { OldAckKept(s, step, s', a, n); } else { NewAckKept(s, step, s', a, n); }
    }
    forall v, a, n: nat | v in s'.votes && a in s'.acks && n <= a.index ensures CandidateKeeps(s', v, a, n) {
      if v in s.votes { OldVoteKeeps(s, step, s', v, a, n); }
      else if step.Timeout? { OwnVoteKeeps(s, step, s', v, a, n); }
      else { GrantedVoteKeeps(s, step, s', v, a, n); }
    }
    forall t, a, n: nat | t in s'.reigns && a in s'.acks && n <= a.index ensures LeaderKeeps(s'.reigns, t, a, n) {
      if t in s.reigns { OldLeaderKeeps(s, step, s', t, a, n); } else { NewLeaderKeeps(s, step, s', a, n); }
    }
  }

  // ---- Leader completeness ----

  ghost predicate Confirmed(s: Cluster, term: nat, i: nat, n: nat) {
    exists a :: a in s.acks && a.term == term && a.node == i && n <= a.index
  }

  /** A majority confirmed index n to the leader of `term`, and the entry there is that leader's own. */
  ghost predicate QuorumHolds(s: Cluster, term: nat, n: nat, quorum: set<nat>) {
    && OwnEntry(s.reigns, term, n)
    && quorum <= Members(|s.nodes|) && |quorum| >= Majority(|s.nodes|)
    && forall i :: i in quorum ==> Confirmed(s, term, i, n)
  }

  /** No leader after `term` is elected without what a majority confirmed: the first one that was
      would have got the vote of a node which had confirmed it and still had it. */
  lemma {:induction false} LaterLeadersHold(s: Cluster, term: nat, n: nat, quorum: set<nat>, t: nat)
    requires Inv(s) && KeepsInv(s) && QuorumHolds(s, term, n, quorum) && t in s.reigns && term < t
    ensures s.reigns[term].log[..n] <= s.reigns[t].initial
    decreases t
  {
    assert ReignOk(s, t, s.reigns[t]);
    var p := SetsMeet(quorum, s.reigns[t].voters, |s.nodes|);
    assert Confirmed(s, term, p, n);
    var a :| a in s.acks && a.term == term && a.node == p && n <= a.index;
    assert LeaderKeeps(s.reigns, t, a, n);
    if LostBy(s.reigns, term, n, t - 1) {
      var earlier :| earlier in s.reigns && term < earlier <= t - 1
                     && !(s.reigns[term].log[..n] <= s.reigns[earlier].initial);
      LaterLeadersHold(s, term, n, quorum, earlier);
    }
  }
}
