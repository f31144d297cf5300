/** The cluster keeps the promises that `Alignment` asks for: each step of an in-order run is an event of
    its node that fits what the whole cluster has committed. */
module ClusterAlignment {
  import opened RaftLogs
  import opened RaftNodes
  import opened RaftCluster
  import opened RaftInvariants
  import opened LeaderCompleteness
  import opened StateMachineSafety
  import Alignment

  /** The longest list of entries that any leader has committed. */
  ghost predicate CommittedList(s: Cluster, list: seq<Entry>) {
    && (forall t :: t in s.reigns ==> s.reigns[t].committed <= |list|)
    && (list != [] ==> exists t :: CommittedBy(s.reigns, t, |list|, list))
  }

  lemma {:induction false} LongestAmong(s: Cluster, terms: set<nat>) returns (list: seq<Entry>)
    requires terms <= s.reigns.Keys && forall t :: t in s.reigns ==> s.reigns[t].committed <= |s.reigns[t].log|
    ensures forall t :: t in terms ==> s.reigns[t].committed <= |list|
    ensures list != [] ==> exists t :: CommittedBy(s.reigns, t, |list|, list)
  {
    if terms == {} {
      list := [];
    } else {
      var t :| t in terms;
      list := LongestAmong(s, terms - {t});
      var r := s.reigns[t];
      if r.committed > |list| {
        list := r.log[..r.committed];
        assert CommittedBy(s.reigns, t, |list|, list);
      }
    }
  }

  lemma CommittedListExists(s: Cluster) returns (list: seq<Entry>)
    requires SafeInv(s)
    ensures CommittedList(s, list)
  {
    forall t | t in s.reigns ensures s.reigns[t].committed <= |s.reigns[t].log| {
      assert ReignCommitOk(s, t);
    }
    list := LongestAmong(s, s.reigns.Keys);
  }

  /** What any leader committed is on the list. */
  lemma OnTheList(s: Cluster, list: seq<Entry>, term: nat, c: nat, log: seq<Entry>)
    requires SafeInv(s) && CommittedList(s, list) && CommittedBy(s.reigns, term, c, log)
    ensures Alignment.AgreeUpTo(log, list, c)
  {
    if list != [] {
      var t: nat :| CommittedBy(s.reigns, t, |list|, list);
      assert ReignCommitOk(s, t) && ReignCommitOk(s, term);
      CommittedAgree(s, term, c, log, t, |list|, list);
    }
  }

  lemma NodeIsOnTheList(s: Cluster, list: seq<Entry>, i: nat)
    requires SafeInv(s) && CommittedList(s, list) && i < |s.nodes|
    ensures s.nodes[i].log.snapIndex == 0 && Alignment.AgreeUpTo(LogOf(s, i), list, s.nodes[i].commitIndex)
  {
    assert NodeCommitOk(s, i);
    if s.nodes[i].commitIndex > 0 {
      var term: nat :| Source(s, i, term);
      OnTheList(s, list, term, s.nodes[i].commitIndex, LogOf(s, i));
    }
  }

  lemma NodeHoldsList(s: Cluster, list: seq<Entry>, i: nat)
    requires SafeInv(s) && CommittedList(s, list) && i < |s.nodes|
    ensures s.nodes[i].log.snapIndex == 0 && Alignment.Holds(s.nodes[i].log, s.nodes[i].commitIndex, list)
  {
    NodeIsOnTheList(s, list, i);
  }

  /** The list only grows. */
  lemma ListGrows(s: Cluster, s': Cluster, list: seq<Entry>, list': seq<Entry>)
    requires SafeInv(s') && Extends(s.reigns, s'.reigns)
    requires CommittedList(s, list) && CommittedList(s', list')
    ensures list <= list'
  {
    if list != [] {
      var t: nat :| CommittedBy(s.reigns, t, |list|, list);
      assert ReignCommitOk(s', t);
      CommittedStays(s.reigns, s'.reigns, t, |list|, list);
      OnTheList(s', list', t, |list|, list);
      assert list[..|list|] == list;
    }
  }

  // ---- A step as an event ----

  /** The step changes its node, and a crash finds no snapshot: the logs of the cluster are full. */
  predicate IsEvent(step: Step) {
    !step.Send? && !step.SendPrefix? && (step.Crash? ==> step.kept == 0)
  }

  /** The step as its node sees it. `leaderLog` is the sender's log as far as a request covers it. */
  function EventOf(n: Node, step: Step, leaderLog: seq<Entry>): Alignment.Event
    requires Ready(n, step) && IsEvent(step)
  {
    match step
    case Timeout(_) => Alignment.OnTimeout
    case AnswerVote(_, m) => Alignment.OnVote(m.req)
    case Win(_, grants) => Alignment.OnWin(n.term, |grants| + 1)
    case Submit(_, command) => Alignment.OnPropose(command)
    case AnswerAppend(_, m) => Alignment.OnAppend(m.append, leaderLog)
    case ReceiveReply(_, m) => Alignment.OnReply(m.requestTerm, m.from, m.matched, m.reply)
    case Learn(_, m) => Alignment.OnHigherTerm(TermOf(m))
    case ReceivePrefixReply(_, m) => Alignment.OnSnapshotReply(m.requestTerm, m.from, m.matched, m.reply.term)
    case Crash(_, _) => Alignment.OnRestart
  }

  lemma EventIsReady(n: Node, step: Step, leaderLog: seq<Entry>)
    requires n.Valid() && Ready(n, step) && IsEvent(step)
    ensures Alignment.Ready(n, EventOf(n, step, leaderLog))
  {
  }

  // The event does what the step does. The two functions unfold to the same handler in every case; with one
  // lemma for each handler only that one is unfolded.

  lemma ReplyEvent(n: Node, step: Step, leaderLog: seq<Entry>)
    requires n.Valid() && Ready(n, step) && step.ReceiveReply?
    requires Alignment.Ready(n, EventOf(n, step, leaderLog))
    ensures Alignment.Handle(n, EventOf(n, step, leaderLog)) == After(n, step)
  {
  }

  lemma AppendEvent(n: Node, step: Step, leaderLog: seq<Entry>)
    requires n.Valid() && Ready(n, step) && step.AnswerAppend?
    requires Alignment.Ready(n, EventOf(n, step, leaderLog))
    ensures Alignment.Handle(n, EventOf(n, step, leaderLog)) == After(n, step)
  {
  }

  lemma VoteEvent(n: Node, step: Step, leaderLog: seq<Entry>)
    requires n.Valid() && Ready(n, step) && step.AnswerVote?
    requires Alignment.Ready(n, EventOf(n, step, leaderLog))
    ensures Alignment.Handle(n, EventOf(n, step, leaderLog)) == After(n, step)
  {
  }

  lemma SubmitEvent(n: Node, step: Step, leaderLog: seq<Entry>)
    requires n.Valid() && Ready(n, step) && step.Submit?
    requires Alignment.Ready(n, EventOf(n, step, leaderLog))
    ensures Alignment.Handle(n, EventOf(n, step, leaderLog)) == After(n, step)
  {
  }

  lemma WinEvent(n: Node, step: Step, leaderLog: seq<Entry>)
    requires n.Valid() && Ready(n, step) && step.Win?
    requires Alignment.Ready(n, EventOf(n, step, leaderLog))
    ensures Alignment.Handle(n, EventOf(n, step, leaderLog)) == After(n, step)
  {
  }

  lemma LearnEvent(n: Node, step: Step, leaderLog: seq<Entry>)
    requires n.Valid() && Ready(n, step) && (step.Learn? || step.ReceivePrefixReply?)
    requires Alignment.Ready(n, EventOf(n, step, leaderLog))
    ensures Alignment.Handle(n, EventOf(n, step, leaderLog)) == After(n, step)
  {
  }

  lemma LocalEvent(n: Node, step: Step, leaderLog: seq<Entry>)
    requires n.Valid() && Ready(n, step) && (step.Timeout? || (step.Crash? && step.kept == 0)) && n.log.snapIndex == 0
    requires Alignment.Ready(n, EventOf(n, step, leaderLog))
    ensures Alignment.Handle(n, EventOf(n, step, leaderLog)) == After(n, step)
  {
  }

  lemma EventIsStep(n: Node, step: Step, leaderLog: seq<Entry>)
    requires n.Valid() && Ready(n, step) && IsEvent(step) && n.log.snapIndex == 0 && Alignment.Ready(n, EventOf(n, step, leaderLog))
    ensures Alignment.Handle(n, EventOf(n, step, leaderLog)) == After(n, step)
  {
    if step.AnswerAppend? {
      AppendEvent(n, step, leaderLog);
    } else if step.ReceiveReply? {
      ReplyEvent(n, step, leaderLog);
    } else if step.AnswerVote? {
      VoteEvent(n, step, leaderLog);
    } else if step.Submit? {
      SubmitEvent(n, step, leaderLog);
    } else if step.Win? {
      WinEvent(n, step, leaderLog);
    } else if step.Learn? || step.ReceivePrefixReply? {
      LearnEvent(n, step, leaderLog);
    } else {
      LocalEvent(n, step, leaderLog);
    }
  }

  /** The log of the sender of a request, as far as the request covers it. */
  function SenderLog(s: Cluster, step: Step): seq<Entry> {
    if step.AnswerAppend? && step.m.AppendMsg? && step.m.append.term in s.reigns &&
       LastCovered(step.m.append) <= |s.reigns[step.m.append.term].log|
    then s.reigns[step.m.append.term].log[..LastCovered(step.m.append)] else []
  }

  lemma RequestShape(s: Cluster, i: nat, m: Message)
    requires SafeInv(s) && i < |s.nodes| && m in s.msgs && m.AppendMsg?
    ensures var log, a := SenderLog(s, AnswerAppend(i, m)), m.append;
            a.term in s.reigns && log <= s.reigns[a.term].log && |log| == LastCovered(a) && log[a.prevIndex..] == a.entries
  {
    assert MessageOk(s, m);
  }

  lemma AnnouncedIsCommitted(reigns: map<nat, Reign>, term: nat, t: nat, c: nat, log: seq<Entry>)
    requires t in reigns && CommittedBy(reigns, term, c, reigns[t].log) && c <= |log| && log <= reigns[t].log
    ensures CommittedBy(reigns, term, c, log)
  {
    assert log[..c] == reigns[t].log[..c];
  }

  lemma AnnouncedCommitFits(s: Cluster, list: seq<Entry>, i: nat, m: Message)
    requires SafeInv(s) && CommittedList(s, list) && i < |s.nodes| && m in s.msgs && m.AppendMsg?
    ensures Alignment.AgreeUpTo(SenderLog(s, AnswerAppend(i, m)), list, m.append.leaderCommit)
  {
    var t, c := m.append.term, m.append.leaderCommit;
    RequestShape(s, i, m);
    assert RequestCommitOk(s, m.append);
    if c > 0 {
      var term: nat :| term <= t && CommittedBy(s.reigns, term, c, s.reigns[t].log);
      AnnouncedIsCommitted(s.reigns, term, t, c, SenderLog(s, AnswerAppend(i, m)));
      OnTheList(s, list, term, c, SenderLog(s, AnswerAppend(i, m)));
    }
  }

  lemma SenderHoldsCommitted(s: Cluster, i: nat, m: Message)
    requires SafeInv(s) && i < |s.nodes| && m in s.msgs && m.AppendMsg? && m.to == i
    requires InOrder(s, AnswerAppend(i, m)) && m.append.term >= s.nodes[i].term && m.append.entries != []
    ensures Alignment.AgreeUpTo(SenderLog(s, AnswerAppend(i, m)), LogOf(s, i), s.nodes[i].commitIndex)
  {
    var log, c := SenderLog(s, AnswerAppend(i, m)), s.nodes[i].commitIndex;
    assert NodeCommitOk(s, i);
    if c > 0 {
      var term: nat :| Source(s, i, term);
      CommittedIsCovered(s, i, m, term);
      assert log == s.reigns[m.append.term].log[..LastCovered(m.append)];
      PrefixOfPrefix(log, s.reigns[m.append.term].log, |log|, c);
    }
  }

  lemma CoveredCommitFits(s: Cluster, list: seq<Entry>, i: nat, m: Message)
    requires SafeInv(s) && CommittedList(s, list) && i < |s.nodes| && m in s.msgs && m.AppendMsg? && m.to == i
    requires InOrder(s, AnswerAppend(i, m)) && m.append.term >= s.nodes[i].term && m.append.entries != []
    ensures Alignment.AgreeUpTo(SenderLog(s, AnswerAppend(i, m)), list, s.nodes[i].commitIndex)
  {
    NodeIsOnTheList(s, list, i);
    SenderHoldsCommitted(s, i, m);
  }

  /** An accepted request matches the node's log up to the previous entry. */
  lemma AcceptedMatches(s: Cluster, i: nat, m: Message)
    requires SafeInv(s) && i < |s.nodes| && m in s.msgs && m.AppendMsg? && m.to == i
    requires Alignment.Accepts(s.nodes[i], m.append) && m.append.prevIndex <= |LogOf(s, i)|
    ensures m.append.prevIndex <= |SenderLog(s, AnswerAppend(i, m))|
    ensures LogOf(s, i)[..m.append.prevIndex] == SenderLog(s, AnswerAppend(i, m))[..m.append.prevIndex]
  {
    var n, a := s.nodes[i], m.append;
    RequestShape(s, i, m);
    AppendEffect(s, i, m);
    assert NodeOk(s, i);
    HandleAppendLog(n, a);
    var log' := HandleAppend(n, a).0.log.entries;
    assert log'[..a.prevIndex] == LogOf(s, i)[..a.prevIndex];
    PrefixOfPrefix(log', s.reigns[a.term].log, LastCovered(a), a.prevIndex);
  }

  lemma AppendFits(s: Cluster, list: seq<Entry>, i: nat, m: Message)
    requires SafeInv(s) && CommittedList(s, list) && i < |s.nodes| && m in s.msgs && m.AppendMsg? && m.to == i
    requires InOrder(s, AnswerAppend(i, m)) && Alignment.Accepts(s.nodes[i], m.append)
    ensures Alignment.RequestFits(s.nodes[i], m.append, SenderLog(s, AnswerAppend(i, m)), list)
  {
    RequestShape(s, i, m);
    AnnouncedCommitFits(s, list, i, m);
    if m.append.entries != [] { CoveredCommitFits(s, list, i, m); }
    NodeIsOnTheList(s, list, i);
    if s.nodes[i].log.HasRealEntryAt(m.append.prevIndex) { AcceptedMatches(s, i, m); }
  }

  lemma LeaderStepFits(s': Cluster, list: seq<Entry>, n: Node, e: Alignment.Event, i: nat)
    requires SafeInv(s') && CommittedList(s', list) && i < |s'.nodes| && (e.OnPropose? || e.OnReply?)
    requires Alignment.Ready(n, e) && s'.nodes[i] == Alignment.Handle(n, e)
    ensures Alignment.Fits(n, e, list)
  {
    NodeHoldsList(s', list, i);
  }

  lemma RequestStepFits(s: Cluster, step: Step, list: seq<Entry>)
    requires SafeInv(s) && CommittedList(s, list) && Enabled(s, step) && step.AnswerAppend? && InOrder(s, step)
    requires Alignment.Ready(s.nodes[step.i], EventOf(s.nodes[step.i], step, SenderLog(s, step)))
    ensures Alignment.Fits(s.nodes[step.i], EventOf(s.nodes[step.i], step, SenderLog(s, step)), list)
  {
    assert NodeOk(s, step.i) && step == AnswerAppend(step.i, step.m);
    if Alignment.Accepts(s.nodes[step.i], step.m.append) { AppendFits(s, list, step.i, step.m); }
  }

  lemma RequestLeavesList(s: Cluster, step: Step, s': Cluster, list: seq<Entry>)
    requires WellFormed(s) && Next(s, step, s') && step.AnswerAppend? && CommittedList(s', list)
    ensures CommittedList(s, list)
  {
  }

  /** Every step of an in-order run is an event of its node that fits the committed list. */
  lemma StepFits(s: Cluster, step: Step, s': Cluster, list: seq<Entry>)
    requires SafeInv(s) && SafeInv(s') && Next(s, step, s') && InOrder(s, step) && IsEvent(step) && CommittedList(s', list)
    ensures var n, e := s.nodes[step.i], EventOf(s.nodes[step.i], step, SenderLog(s, step));
            && step.i < |s'.nodes| && Alignment.Ready(n, e) && s'.nodes[step.i] == Alignment.Handle(n, e)
            && Alignment.Fits(n, e, list)
  {
    var n, e := s.nodes[step.i], EventOf(s.nodes[step.i], step, SenderLog(s, step));
    StepMoves(s, step, s');
    EventIsReady(n, step, SenderLog(s, step));
    EventIsStep(n, step, SenderLog(s, step));
    if step.AnswerAppend? {
      RequestLeavesList(s, step, s', list);
      RequestStepFits(s, step, list);
    } else if e.OnPropose? || e.OnReply? {
      LeaderStepFits(s', list, n, e, step.i);
    }
  }

  /** So the runs of `Alignment` are those of the nodes of such a cluster, where no command is empty. */
  lemma RunStepIsNodeStep(trace: seq<Cluster>, steps: seq<Step>, k: nat, list: seq<Entry>, list': seq<Entry>)
    requires InOrderRun(trace, steps) && k < |steps| && IsEvent(steps[k])
    requires CommittedList(trace[k], list) && CommittedList(trace[k + 1], list') && Alignment.NonEmpty(list')
    ensures steps[k].i < |trace[k].nodes|
    ensures var n, step := trace[k].nodes[steps[k].i], steps[k];
            && step.i < |trace[k + 1].nodes| && n.Valid() && Ready(n, step)
            && Alignment.NodeStep(n, EventOf(n, step, SenderLog(trace[k], step)), trace[k + 1].nodes[step.i], list, list')
  {
    var s, step, s' := trace[k], steps[k], trace[k + 1];
    assert NextAt(trace, steps, k);
    RunSafe(trace, steps, k);
    RunSafe(trace, steps, k + 1);
    assert NodeOk(s, step.i);
    ReignsExtend(s, step, s');
    ListGrows(s, s', list, list');
    StepFits(s, step, s', list');
  }

  /** At every time of such a run each node has applied exactly the committed commands up to its commit index. */
  lemma NodesStayAligned(trace: seq<Cluster>, steps: seq<Step>, k: nat, i: nat, list: seq<Entry>)
    requires InOrderRun(trace, steps) && k < |trace| && i < |trace[k].nodes|
    requires CommittedList(trace[k], list) && Alignment.NonEmpty(list)
    ensures Alignment.Aligned(trace[k].nodes[i], list)
  {
    RunSafe(trace, steps, k);
    NodeIsAligned(trace[k], i, list);
  }

  lemma NodeIsAligned(s: Cluster, i: nat, list: seq<Entry>)
    requires SafeInv(s) && i < |s.nodes| && CommittedList(s, list) && Alignment.NonEmpty(list)
    ensures Alignment.Aligned(s.nodes[i], list)
  {
    var n := s.nodes[i];
    assert NodeCommitOk(s, i);
    NodeHoldsList(s, list, i);
    Alignment.AppliesCommitted(n.log, 0, n.commitIndex, list);
  }
}
