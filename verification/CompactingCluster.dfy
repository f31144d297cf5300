/** A cluster whose nodes compact their logs and send each other snapshots (cluster/raft_node.hpp,
    cluster/raft_log.hpp). Every run of it is, on full logs, a run of `RaftCluster`; so nodes that have
    committed an index agree on it, whatever they have compacted, installed or lost in a crash. */
module CompactingCluster {
  import opened RaftLogs
  import opened RaftNodes
  import opened RaftCluster
  import opened RaftInvariants
  import opened LeaderCompleteness
  import opened StateMachineSafety
  import opened CompactingNode
  import Alignment

  datatype SnapPacket =
    | Snapshot(to: nat, req: SnapshotRequest, number: nat)
    | SnapshotReply(from: nat, to: nat, requestTerm: nat, index: nat, term: nat)

  /** A call of send_append_entries_to_peer between its two locked blocks: node i led `term` and found the
      peer's next index above its snapshot, which then ended at `snap`. */
  datatype Going = Going(i: nat, peer: nat, term: nat, next: nat, snap: nat)

  /** `handled` records who has handled a request or snapshot of which term and number; no act reads it. */
  datatype System = System(
    nodes: seq<Node>, msgs: set<Message>, snaps: set<SnapPacket>, going: set<Going>, sent: nat,
    handled: set<(nat, nat, nat)>)

  datatype Act =
    | Plainly(step: Step)                        // as in a cluster that does not compact
    | CompactIt(i: nat, upTo: nat, data: string) // compact
    | ChooseFor(i: nat, peer: nat, term: nat, next: nat) // send_append_entries_to_peer, first block
    | AnswerSnapshot(i: nat, p: SnapPacket)      // handle_install_snapshot
    | ReceiveAnswer(i: nat, p: SnapPacket)       // send_install_snapshot_to_peer, last block

  function Actor(act: Act): nat {
    match act
    case Plainly(step) => step.i
    case CompactIt(i, _, _) => i
    case ChooseFor(i, _, _, _) => i
    case AnswerSnapshot(i, _) => i
    case ReceiveAnswer(i, _) => i
  }

  /** The nodes and messages, for the guards that the two kinds of cluster share. */
  function View(sys: System): Cluster {
    Cluster(sys.nodes, sys.msgs, sys.sent, {}, {}, {}, map[])
  }

  ghost predicate Possible(sys: System, act: Act) {
    && Actor(act) < |sys.nodes| && sys.nodes[Actor(act)].Valid()
    && var n := sys.nodes[Actor(act)];
       match act
       case Plainly(step) =>
         && !step.SendPrefix? && !step.ReceivePrefixReply? && Enabled(View(sys), step)
         && (step.Crash? ==> step.kept == n.log.snapIndex)
         && (step.Send? ==> exists snap :: Going(step.i, step.peer, n.term, step.next, snap) in sys.going)
       case CompactIt(_, _, _) => true
       case ChooseFor(_, peer, _, next) => peer in Peers(n.id, n.size) && next > 0
       case AnswerSnapshot(i, p) => p in sys.snaps && p.Snapshot? && p.to == i
       case ReceiveAnswer(i, p) => p in sys.snaps && p.SnapshotReply? && p.to == i && p.from in Peers(n.id, n.size)
  }

  /** What the code relies on without checking it: no compaction between its two locked blocks has passed the
      next index of a request, the requests of one leader are handled in order, a snapshot is installed where
      the code does what the paper says, and no command is empty. */
  ghost predicate Orderly(sys: System, act: Act)
    requires Possible(sys, act)
  {
    var n := sys.nodes[Actor(act)];
    && (act.Plainly? && act.step.Send? ==>
          || Going(act.step.i, act.step.peer, n.term, act.step.next, n.log.snapIndex) in sys.going
          || act.step.next > n.log.snapIndex)
    && (act.Plainly? && act.step.Submit? ==> act.step.command != "")
    && (act.Plainly? && act.step.AnswerAppend? ==>
          forall h :: h in sys.handled && h.0 == act.step.i && h.1 == act.step.m.append.term ==> h.2 <= act.step.m.number)
    && (act.AnswerSnapshot? ==> PaperLike(n, act.p.req))
  }

  /** A restart with what the snapshot covers applied is the restart of the source (`RestartSim`). */
  function Perform(sys: System, act: Act): System
    requires Possible(sys, act)
  {
    var i, n := Actor(act), sys.nodes[Actor(act)];
    match act
    case Plainly(step) =>
      sys.(nodes := sys.nodes[i := After(n, step)], msgs := sys.msgs + Outgoing(n, step, sys.sent),
           sent := if step.Send? then sys.sent + 1 else sys.sent,
           handled := if step.AnswerAppend? then sys.handled + {(i, step.m.append.term, step.m.number)} else sys.handled)
    case CompactIt(_, upTo, data) => sys.(nodes := sys.nodes[i := CompactNode(n, upTo, data).0])
    case ChooseFor(_, peer, term, next) =>
      (match Choose(n, term, next)
       case DropIt => sys
       case SendSnapshot(req) => sys.(snaps := sys.snaps + {Snapshot(peer, req, sys.sent)}, sent := sys.sent + 1)
       case GoOn => sys.(going := sys.going + {Going(i, peer, term, next, n.log.snapIndex)}))
    case AnswerSnapshot(_, p) =>
      var n' := HandleSnapshot(n, p.req);
      sys.(nodes := sys.nodes[i := n'], handled := sys.handled + {(i, p.req.term, p.number)},
           snaps := sys.snaps + {SnapshotReply(i, p.req.leader, p.req.term, p.req.lastIndex, n'.term)})
    case ReceiveAnswer(_, p) =>
      sys.(nodes := sys.nodes[i := HandleSnapshotReply(n, p.requestTerm, p.from, p.index, p.term)])
  }

  ghost predicate Start(sys: System) {
    && (forall i :: 0 <= i < |sys.nodes| ==>
          sys.nodes[i] == Node(i, |sys.nodes|, 0, -1, Uncompacted([]), Follower, -1, 0, 0, [], map[], map[]))
    && sys == System(sys.nodes, {}, {}, {}, 0, {})
  }

  ghost predicate ActAt(trace: seq<System>, acts: seq<Act>, k: nat) {
    && k < |acts| && k + 1 < |trace|
    && Possible(trace[k], acts[k]) && Orderly(trace[k], acts[k]) && trace[k + 1] == Perform(trace[k], acts[k])
  }

  ghost predicate CompactingRun(trace: seq<System>, acts: seq<Act>) {
    && |trace| == |acts| + 1 && Start(trace[0])
    && forall k: nat :: k < |acts| ==> ActAt(trace, acts, k)
  }

  // ---- The same cluster with full logs ----

  /** A snapshot stands for a prefix of its sender's log, sent in both forms. */
  ghost predicate Prefixed(s: Cluster, to: nat, req: SnapshotRequest, number: nat, prefix: seq<Entry>) {
    && 0 < |prefix| == req.lastIndex && prefix[|prefix| - 1].term == req.lastTerm
    && AppendMsg(to, Whole(req, prefix), number, true) in s.msgs && AppendMsg(to, News(req), number, true) in s.msgs
  }

  ghost predicate SnapOk(p: SnapPacket, s: Cluster) {
    match p
    case Snapshot(to, req, number) => exists prefix :: Prefixed(s, to, req, number, prefix)
    case SnapshotReply(from, to, requestTerm, index, term) =>
      exists success: bool :: Answered(s, from, to, requestTerm, index, term, success)
  }

  ghost predicate Answered(s: Cluster, from: nat, to: nat, requestTerm: nat, index: nat, term: nat, success: bool) {
    AppendReplyMsg(from, to, requestTerm, index, AppendReply(term, success)) in s.msgs && (success || term > requestTerm)
  }

  ghost predicate SimNodes(cs: seq<Node>, ns: seq<Node>) {
    |cs| == |ns| && forall i :: 0 <= i < |cs| ==> SimNode(cs[i], ns[i])
  }

  ghost predicate SimMsgs(sys: System, s: Cluster) {
    && sys.msgs <= s.msgs && sys.sent == s.sent
    && (forall m :: m in sys.msgs && m.AppendMsg? ==> !m.part)
    && (forall p :: p in sys.snaps ==> SnapOk(p, s))
    && (forall h :: h in s.handled && h.1.AppendMsg? ==> (h.0, h.1.append.term, h.1.number) in sys.handled)
    && (forall g :: g in sys.going ==> g.next > g.snap)
  }

  ghost predicate Sim(sys: System, s: Cluster) {
    SimNodes(sys.nodes, s.nodes) && SimMsgs(sys, s)
  }

  ghost predicate RealLogs(s: Cluster) {
    forall t :: t in s.reigns ==> Real(s.reigns[t].log)
  }

  ghost predicate Good(s: Cluster) {
    SafeInv(s) && RealLogs(s)
  }

  lemma NodeLogIsReal(s: Cluster, i: nat)
    requires Inv(s) && RealLogs(s) && i < |s.nodes|
    ensures Real(LogOf(s, i))
  {
    assert NodeOk(s, i);
    forall k | 0 <= k < |LogOf(s, i)| ensures LogOf(s, i)[k].command != "" {
      assert AnchoredAt(LogOf(s, i), k, s.reigns);
      assert LogOf(s, i)[k] == LogOf(s, i)[..k + 1][k];
    }
  }

  lemma NewReignLog(s: Cluster, step: Step, s': Cluster, t: nat)
    requires Inv(s) && Next(s, step, s') && t in s'.reigns && t !in s.reigns
    ensures s'.reigns[t].log == LogOf(s, step.i)
  {
    ReignsExtend(s, step, s');
  }

  lemma RealLogsStay(s: Cluster, step: Step, s': Cluster)
    requires Inv(s) && RealLogs(s) && Next(s, step, s') && (step.Submit? ==> step.command != "")
    ensures RealLogs(s')
  {
    forall t | t in s'.reigns ensures Real(s'.reigns[t].log) {
      if t !in s.reigns {
        NewReignLog(s, step, s', t);
        NodeLogIsReal(s, step.i);
      } else {
        OldReignLog(s, step, s', t);
      }
    }
  }

  lemma OldReignLog(s: Cluster, step: Step, s': Cluster, t: nat)
    requires Inv(s) && RealLogs(s) && Next(s, step, s') && (step.Submit? ==> step.command != "") && t in s.reigns
    ensures t in s'.reigns && Real(s'.reigns[t].log)
  {
    ReignsExtend(s, step, s');
    if s'.reigns[t].log != s.reigns[t].log { RealAppend(s.reigns[t].log, Entry(t, step.command)); }
  }

  lemma RealAppend(log: seq<Entry>, e: Entry)
    requires Real(log) && e.command != ""
    ensures Real(log + [e])
  {
  }

  /** One step of the cluster with full logs. */
  lemma GoodStep(s: Cluster, step: Step, s': Cluster)
    requires Good(s) && Next(s, step, s') && InOrder(s, step) && (step.Submit? ==> step.command != "")
    ensures Good(s') && Later(s, s')
  {
    InvStays(s, step, s');
    StepIsSafe(s, step, s');
    StepIsLater(s, step, s');
    RealLogsStay(s, step, s');
  }

  lemma NodeFacts(s: Cluster, i: nat)
    requires Good(s) && i < |s.nodes|
    ensures s.nodes[i].Valid() && s.nodes[i].id == i && s.nodes[i].size == |s.nodes|
    ensures Real(LogOf(s, i)) && s.nodes[i].commitIndex <= |LogOf(s, i)|
  {
    assert NodeOk(s, i) && NodeCommitOk(s, i);
    NodeLogIsReal(s, i);
  }

  // ---- One act, one step ----

  /** Nodes and messages after an act, where the step of the full cluster sends at least as much. */
  lemma Rejoin(sys: System, sys': System, s: Cluster, s': Cluster, i: nat)
    requires Sim(sys, s) && i < |s.nodes| && |s'.nodes| == |s.nodes| == |sys'.nodes|
    requires sys'.nodes == sys.nodes[i := sys'.nodes[i]] && s'.nodes == s.nodes[i := s'.nodes[i]]
    requires SimNode(sys'.nodes[i], s'.nodes[i]) && SimMsgs(sys', s')
    ensures Sim(sys', s')
  {
    forall k | 0 <= k < |s'.nodes| ensures SimNode(sys'.nodes[k], s'.nodes[k]) {
      if k != i { assert sys'.nodes[k] == sys.nodes[k] && s'.nodes[k] == s.nodes[k]; }
    }
  }

  lemma SnapStays(p: SnapPacket, s: Cluster, s': Cluster)
    requires SnapOk(p, s) && s.msgs <= s'.msgs
    ensures SnapOk(p, s')
  {
    match p
    case Snapshot(to, req, number) =>
      var prefix :| Prefixed(s, to, req, number, prefix);
      assert Prefixed(s', to, req, number, prefix);
    case SnapshotReply(from, to, requestTerm, index, term) =>
      var success: bool :| Answered(s, from, to, requestTerm, index, term, success);
      assert Answered(s', from, to, requestTerm, index, term, success);
  }

  /** A step that the node with the compacted log can take, the one with the full log can take. */
  lemma ReadySim(c: Node, n: Node, step: Step)
    requires SimNode(c, n) && Ready(c, step) && !step.SendPrefix? && (step.Crash? ==> step.kept == c.log.snapIndex)
    ensures Ready(n, step)
  {
    RepresentsObservations(c.log, n.log.entries);
  }

  lemma EnabledSim(sys: System, s: Cluster, step: Step)
    requires Sim(sys, s) && Enabled(View(sys), step) && !step.SendPrefix? && !step.ReceivePrefixReply?
    requires step.Crash? ==> step.kept == sys.nodes[step.i].log.snapIndex
    ensures Enabled(s, step)
  {
    assert SimNode(sys.nodes[step.i], s.nodes[step.i]);
    ReadySim(sys.nodes[step.i], s.nodes[step.i], step);
  }

  /** A request that the node has handled in order agrees with it on what its snapshot covers. */
  lemma RequestAgrees(s: Cluster, i: nat, m: Message, c: Log)
    requires Good(s) && i < |s.nodes| && m in s.msgs && m.AppendMsg? && m.to == i && !m.part
    requires InOrder(s, AnswerAppend(i, m)) && m.append.term >= s.nodes[i].term
    requires Represents(c, LogOf(s, i)) && c.snapIndex <= s.nodes[i].commitIndex
    ensures AgreesInside(c, s.nodes[i].log, m.append)
  {
    assert NodeCommitOk(s, i) && MessageOk(s, m);
    if c.snapIndex > 0 {
      var term: nat :| Source(s, i, term);
      CommittedIsCovered(s, i, m, term);
      SharedInside(s.reigns[m.append.term], m.append, s.nodes[i].log, c, s.nodes[i].commitIndex);
    }
  }

  lemma SharedInside(r: Reign, a: AppendRequest, n: Log, c: Log, commit: nat)
    requires Covered(r, a) && n.snapIndex == 0 && c.snapIndex <= commit <= LastCovered(a) && commit <= |n.entries|
    requires r.log[..commit] == n.entries[..commit]
    ensures AgreesInside(c, n, a)
  {
    forall k | 0 <= k < commit ensures r.log[k] == n.entries[k] {
      assert r.log[..commit][k] == n.entries[..commit][k];
    }
  }

  lemma AnswerAppendSim(s: Cluster, i: nat, m: Message, c: Node)
    requires Good(s) && i < |s.nodes| && m in s.msgs && m.AppendMsg? && m.to == i && !m.part
    requires InOrder(s, AnswerAppend(i, m)) && SimNode(c, s.nodes[i])
    requires Real(HandleAppend(s.nodes[i], m.append).0.log.entries)
    ensures var n, a := s.nodes[i], m.append;
            SimNode(HandleAppend(c, a).0, HandleAppend(n, a).0) && HandleAppend(c, a).1 == HandleAppend(n, a).1
  {
    var n, a := s.nodes[i], m.append;
    HandleAppendIs(n, a);
    HandleAppendIs(c, a);
    if a.term >= n.term {
      RequestAgrees(s, i, m, c.log);
      AppendKeepsCommitted(s, i, m);
      assert TakeCommit(Accept(n, a), a.leaderCommit).log == Accept(n, a).log;
      AppendSim(c, n, a);
    }
  }

  lemma VotingSim(c: Node, n: Node, step: Step, sent: nat)
    requires SimNode(c, n) && c.Valid() && n.Valid() && Ready(c, step) && Ready(n, step)
    requires step.Timeout? || step.AnswerVote? || step.Win?
    ensures SimNode(After(c, step), After(n, step)) && Outgoing(c, step, sent) == Outgoing(n, step, sent)
  {
    match step
    case Timeout(_) => ElectionSim(c, n);
    case AnswerVote(_, m) => VoteSim(c, n, m.req);
    case Win(_, grants) => WinSim(c, n, n.term, |grants| + 1);
  }

  lemma QuietSim(c: Node, n: Node, step: Step, sent: nat)
    requires SimNode(c, n) && c.Valid() && n.Valid() && Ready(c, step) && Ready(n, step) && Real(n.log.entries)
    requires step.Send? || step.Learn? || step.Crash?
    requires (step.Crash? ==> step.kept == c.log.snapIndex) && (step.Send? ==> step.next > c.log.snapIndex)
    ensures SimNode(After(c, step), After(n, step)) && Outgoing(c, step, sent) == Outgoing(n, step, sent)
  {
    match step
    case Send(_, _, next) => RequestSim(c, n, next);
    case Learn(_, _) =>
    case Crash(_, _) => RestartSim(c, n);
  }

  lemma LeadingSim(c: Node, n: Node, step: Step, sent: nat)
    requires SimNode(c, n) && c.Valid() && n.Valid() && Ready(c, step) && Ready(n, step) && Real(n.log.entries)
    requires step.Submit? || step.ReceiveReply?
    requires (step.Submit? ==> step.command != "") && After(n, step).commitIndex <= |After(n, step).log.entries|
    ensures SimNode(After(c, step), After(n, step)) && Outgoing(c, step, sent) == Outgoing(n, step, sent)
  {
    if step.Submit? {
      ProposeAppends(n, step.command);
      ProposeSim(c, n, step.command);
    } else {
      HandleReplyEvolves(n, step.m.requestTerm, step.m.from, step.m.matched, step.m.reply);
      ReplySim(c, n, step.m.requestTerm, step.m.from, step.m.matched, step.m.reply);
    }
  }

  lemma AnsweringSim(s: Cluster, step: Step, c: Node)
    requires Good(s) && Enabled(s, step) && step.AnswerAppend? && InOrder(s, step) && !step.m.part
    requires SimNode(c, s.nodes[step.i]) && Ready(c, step) && c.Valid() && s.nodes[step.i].Valid()
    requires Real(After(s.nodes[step.i], step).log.entries)
    ensures SimNode(After(c, step), After(s.nodes[step.i], step))
    ensures Outgoing(c, step, s.sent) == Outgoing(s.nodes[step.i], step, s.sent)
  {
    assert step == AnswerAppend(step.i, step.m);
    NodeFacts(s, step.i);
    AnswerAppendSim(s, step.i, step.m, c);
  }

  /** The node's own part of a step that both clusters have. */
  lemma PlainNodeSim(s: Cluster, step: Step, s': Cluster, c: Node)
    requires Good(s) && Good(s') && Next(s, step, s') && InOrder(s, step) && SimNode(c, s.nodes[step.i]) && Ready(c, step)
    requires c.Valid() && !step.SendPrefix? && !step.ReceivePrefixReply?
    requires (step.Crash? ==> step.kept == c.log.snapIndex) && (step.Send? ==> step.next > c.log.snapIndex)
    requires (step.Submit? ==> step.command != "") && (step.AnswerAppend? ==> !step.m.part)
    ensures step.i < |s'.nodes| && SimNode(After(c, step), s'.nodes[step.i])
    ensures Outgoing(c, step, s.sent) == Outgoing(s.nodes[step.i], step, s.sent)
  {
    var n := s.nodes[step.i];
    GoodIsFormed(s);
    StepMoves(s, step, s');
    NodeFacts(s, step.i);
    NodeFacts(s', step.i);
    if step.Timeout? || step.AnswerVote? || step.Win? {
      VotingSim(c, n, step, s.sent);
    } else if step.Send? || step.Learn? || step.Crash? {
      QuietSim(c, n, step, s.sent);
    } else if step.AnswerAppend? {
      AnsweringSim(s, step, c);
    } else {
      LeadingSim(c, n, step, s.sent);
    }
  }

  lemma PlainMsgsSim(sys: System, s: Cluster, step: Step, s': Cluster)
    requires Sim(sys, s) && Possible(sys, Plainly(step)) && Next(s, step, s')
    requires Outgoing(sys.nodes[step.i], step, s.sent) == Outgoing(s.nodes[step.i], step, s.sent)
    ensures SimMsgs(Perform(sys, Plainly(step)), s')
  {
    forall p | p in sys.snaps ensures SnapOk(p, s') { SnapStays(p, s, s'); }
  }

  lemma InOrderSim(sys: System, s: Cluster, step: Step)
    requires Sim(sys, s) && Possible(sys, Plainly(step)) && Orderly(sys, Plainly(step))
    ensures InOrder(s, step) && (step.AnswerAppend? ==> !step.m.part)
  {
  }

  /** What the first locked block has found still holds in the second. */
  lemma BuiltAboveSnapshot(sys: System, s: Cluster, step: Step)
    requires Sim(sys, s) && Possible(sys, Plainly(step)) && Orderly(sys, Plainly(step)) && step.Send?
    ensures step.next > sys.nodes[step.i].log.snapIndex
  {
  }

  lemma TakeStep(s: Cluster, step: Step) returns (s': Cluster)
    requires Good(s) && Enabled(s, step) && InOrder(s, step) && (step.Submit? ==> step.command != "")
    ensures Next(s, step, s') && Good(s') && Later(s, s') && s'.nodes == s.nodes[step.i := s'.nodes[step.i]]
  {
    GoodIsFormed(s);
    s' := Do(s, step);
    GoodStep(s, step, s');
    HistoryGrows(s, step, s');
  }

  lemma PlainSim(sys: System, s: Cluster, step: Step) returns (s': Cluster)
    requires Sim(sys, s) && Good(s) && Possible(sys, Plainly(step)) && Orderly(sys, Plainly(step))
    ensures Good(s') && Later(s, s') && Sim(Perform(sys, Plainly(step)), s')
  {
    EnabledSim(sys, s, step);
    InOrderSim(sys, s, step);
    if step.Send? { BuiltAboveSnapshot(sys, s, step); }
    assert SimNode(sys.nodes[step.i], s.nodes[step.i]);
    s' := TakeStep(s, step);
    PlainNodeSim(s, step, s', sys.nodes[step.i]);
    PlainMsgsSim(sys, s, step, s');
    Rejoin(sys, Perform(sys, Plainly(step)), s, s', step.i);
  }

  // ---- Acts that only this cluster has ----

  lemma LaterThanItself(s: Cluster)
    requires SafeInv(s)
    ensures Later(s, s)
  {
    forall t | t in s.reigns ensures ReignCommitOk(s, t) { }
  }

  lemma CompactItSim(sys: System, s: Cluster, act: Act)
    requires Sim(sys, s) && Good(s) && Possible(sys, act) && act.CompactIt?
    ensures Sim(Perform(sys, act), s)
  {
    assert SimNode(sys.nodes[act.i], s.nodes[act.i]);
    NodeFacts(s, act.i);
    CompactSim(sys.nodes[act.i], s.nodes[act.i], act.upTo, act.data);
    Rejoin(sys, Perform(sys, act), s, s, act.i);
  }

  /** A snapshot of a compacted log is a committed prefix of the full one. */
  lemma SnapshotIsPrefix(c: Node, n: Node, term: nat, next: nat)
    requires SimNode(c, n) && n.commitIndex <= |n.log.entries| && next > 0 && Choose(c, term, next).SendSnapshot?
    ensures c.role == Leader && 0 < c.log.snapIndex
    ensures var prefix, req := n.log.entries[..c.log.snapIndex], Choose(c, term, next).req;
            && 0 < |prefix| == req.lastIndex && prefix[|prefix| - 1].term == req.lastTerm
            && PrefixRequest(n, c.log.snapIndex) == Whole(req, prefix) && PrefixNews(n, c.log.snapIndex) == News(req)
  {
    RepresentsObservations(c.log, n.log.entries);
  }

  lemma SentMsgs(sys: System, s: Cluster, act: Act, s': Cluster, prefix: seq<Entry>)
    requires Sim(sys, s) && Possible(sys, act) && act.ChooseFor? && Choose(sys.nodes[act.i], act.term, act.next).SendSnapshot?
    requires s.msgs <= s'.msgs && s'.handled == s.handled && s'.sent == s.sent + 1
    requires Prefixed(s', act.peer, Choose(sys.nodes[act.i], act.term, act.next).req, s.sent, prefix)
    ensures SimMsgs(Perform(sys, act), s')
  {
    forall p | p in sys.snaps ensures SnapOk(p, s') { SnapStays(p, s, s'); }
  }

  lemma SendPrefixStep(s: Cluster, i: nat, peer: nat, last: nat) returns (s': Cluster)
    requires Good(s) && Enabled(s, SendPrefix(i, peer, last))
    ensures Good(s') && Later(s, s') && s'.nodes == s.nodes && s.msgs <= s'.msgs && s'.handled == s.handled && s'.sent == s.sent + 1
    ensures AppendMsg(peer, PrefixRequest(s.nodes[i], last), s.sent, true) in s'.msgs
    ensures AppendMsg(peer, PrefixNews(s.nodes[i], last), s.sent, true) in s'.msgs
  {
    GoodIsFormed(s);
    s' := SendPrefixEffect(s, i, peer, last);
    GoodStep(s, SendPrefix(i, peer, last), s');
  }

  lemma GoodIsFormed(s: Cluster)
    requires Good(s)
    ensures WellFormed(s)
  {
  }

  lemma SendPrefixEffect(s: Cluster, i: nat, peer: nat, last: nat) returns (s': Cluster)
    requires WellFormed(s) && Enabled(s, SendPrefix(i, peer, last))
    ensures Next(s, SendPrefix(i, peer, last), s')
    ensures s'.nodes == s.nodes && s.msgs <= s'.msgs && s'.handled == s.handled && s'.sent == s.sent + 1
    ensures AppendMsg(peer, PrefixRequest(s.nodes[i], last), s.sent, true) in s'.msgs
    ensures AppendMsg(peer, PrefixNews(s.nodes[i], last), s.sent, true) in s'.msgs
  {
    s' := Do(s, SendPrefix(i, peer, last));
    assert s.nodes[i := s.nodes[i]] == s.nodes;
  }

  lemma SendSnapshotSim(sys: System, s: Cluster, act: Act) returns (s': Cluster)
    requires Sim(sys, s) && Good(s) && Possible(sys, act) && act.ChooseFor?
    requires Choose(sys.nodes[act.i], act.term, act.next).SendSnapshot?
    ensures Good(s') && Later(s, s') && Sim(Perform(sys, act), s')
  {
    var c, n := sys.nodes[act.i], s.nodes[act.i];
    assert SimNode(c, n);
    NodeFacts(s, act.i);
    SnapshotIsPrefix(c, n, act.term, act.next);
    s' := SendPrefixStep(s, act.i, act.peer, c.log.snapIndex);
    SentMsgs(sys, s, act, s', n.log.entries[..c.log.snapIndex]);
  }

  lemma ChooseSim(sys: System, s: Cluster, act: Act) returns (s': Cluster)
    requires Sim(sys, s) && Good(s) && Possible(sys, act) && act.ChooseFor?
    ensures Good(s') && Later(s, s') && Sim(Perform(sys, act), s')
  {
    if Choose(sys.nodes[act.i], act.term, act.next).SendSnapshot? {
      s' := SendSnapshotSim(sys, s, act);
    } else {
      LaterThanItself(s);
      s' := s;
    }
  }

  /** The prefix is one of the sender's log. */
  lemma PrefixOfReign(s: Cluster, i: nat, req: SnapshotRequest, number: nat, prefix: seq<Entry>)
    requires Good(s) && Prefixed(s, i, req, number, prefix)
    ensures req.term in s.reigns && prefix <= s.reigns[req.term].log && Real(prefix)
  {
    var m := AppendMsg(i, Whole(req, prefix), number, true);
    assert MessageOk(s, m);
    var log := s.reigns[req.term].log;
    assert prefix == log[0..|prefix|] == log[..|prefix|];
    PrefixIsReal(log, prefix);
  }

  lemma PrefixIsReal(log: seq<Entry>, prefix: seq<Entry>)
    requires Real(log) && prefix <= log
    ensures Real(prefix)
  {
  }

  lemma CommittedEntryInSender(s: Cluster, i: nat, t: nat, index: nat)
    requires Good(s) && i < |s.nodes| && t in s.reigns && t >= s.nodes[i].term && 0 < index <= s.nodes[i].commitIndex
    ensures index <= |LogOf(s, i)| && index <= |s.reigns[t].log| && LogOf(s, i)[index - 1] == s.reigns[t].log[index - 1]
  {
    assert NodeCommitOk(s, i);
    var c := s.nodes[i].commitIndex;
    var term: nat :| Source(s, i, term);
    CommittedInSender(s, i, t, term);
    assert LogOf(s, i)[index - 1] == LogOf(s, i)[..c][index - 1] && s.reigns[t].log[index - 1] == s.reigns[t].log[..c][index - 1];
  }

  /** What a snapshot stands for agrees with what the node has committed. */
  lemma PrefixAgrees(s: Cluster, i: nat, req: SnapshotRequest, number: nat, prefix: seq<Entry>)
    requires Good(s) && i < |s.nodes| && s.nodes[i].log.snapIndex == 0 && Prefixed(s, i, req, number, prefix)
    ensures Stands(s.nodes[i], req, prefix)
  {
    PrefixOfReign(s, i, req, number, prefix);
    if req.term >= s.nodes[i].term && req.lastIndex <= s.nodes[i].commitIndex {
      CommittedPrefixAgrees(s, i, req.term, prefix);
    }
  }

  lemma CommittedPrefixAgrees(s: Cluster, i: nat, t: nat, prefix: seq<Entry>)
    requires Good(s) && i < |s.nodes| && s.nodes[i].log.snapIndex == 0 && t in s.reigns && t >= s.nodes[i].term
    requires prefix != [] && prefix <= s.reigns[t].log && |prefix| <= s.nodes[i].commitIndex
    ensures s.nodes[i].log.TermAt(|prefix|) == prefix[|prefix| - 1].term
  {
    CommittedEntryInSender(s, i, t, |prefix|);
    SameLast(s.nodes[i].log, s.reigns[t].log, prefix);
  }

  lemma SameLast(log: Log, leaderLog: seq<Entry>, prefix: seq<Entry>)
    requires log.snapIndex == 0 && prefix != [] && prefix <= leaderLog && |prefix| <= |log.entries|
    requires log.entries[|prefix| - 1] == leaderLog[|prefix| - 1]
    ensures log.TermAt(|prefix|) == prefix[|prefix| - 1].term
  {
  }

  lemma AnswerSnapshotNode(s: Cluster, i: nat, c: Node, req: SnapshotRequest, number: nat, prefix: seq<Entry>)
    requires Good(s) && i < |s.nodes| && SimNode(c, s.nodes[i]) && Prefixed(s, i, req, number, prefix) && PaperLike(c, req)
    ensures var n, a := s.nodes[i], Standing(c, req, prefix);
            && n.Valid() && n.id == i && CutsNothing(n, a) && AppendMsg(i, a, number, true) in s.msgs
            && SimNode(HandleSnapshot(c, req), HandleAppend(n, a).0)
            && HandleAppend(n, a).1 == AppendReply(HandleSnapshot(c, req).term, req.term >= c.term)
  {
    NodeFacts(s, i);
    PrefixAgrees(s, i, req, number, prefix);
    SnapshotSim(c, s.nodes[i], req, prefix);
  }

  /** The form of a snapshot that does to the full log what the snapshot does to the compacted one. */
  lemma FormOf(s: Cluster, i: nat, c: Node, req: SnapshotRequest, number: nat) returns (a: AppendRequest)
    requires Good(s) && i < |s.nodes| && SimNode(c, s.nodes[i]) && SnapOk(Snapshot(i, req, number), s) && PaperLike(c, req)
    ensures a.leader == req.leader && a.term == req.term && LastCovered(a) == req.lastIndex
    ensures s.nodes[i].Valid() && s.nodes[i].id == i && CutsNothing(s.nodes[i], a) && AppendMsg(i, a, number, true) in s.msgs
    ensures SimNode(HandleSnapshot(c, req), HandleAppend(s.nodes[i], a).0)
    ensures HandleAppend(s.nodes[i], a).1 == AppendReply(HandleSnapshot(c, req).term, req.term >= c.term)
  {
    var prefix :| Prefixed(s, i, req, number, prefix);
    AnswerSnapshotNode(s, i, c, req, number, prefix);
    a := Standing(c, req, prefix);
  }

  /** The step of the full cluster that handles one form of a snapshot. */
  lemma AnswerPartStep(s: Cluster, i: nat, a: AppendRequest, number: nat) returns (s': Cluster)
    requires Good(s) && i < |s.nodes| && s.nodes[i].Valid() && s.nodes[i].id == i
    requires CutsNothing(s.nodes[i], a) && AppendMsg(i, a, number, true) in s.msgs
    ensures Good(s') && Later(s, s') && s'.nodes == s.nodes[i := HandleAppend(s.nodes[i], a).0] && s.msgs <= s'.msgs
    ensures s'.sent == s.sent && s'.handled == s.handled + {(i, AppendMsg(i, a, number, true))}
    ensures AppendReplyMsg(i, a.leader, a.term, LastCovered(a), HandleAppend(s.nodes[i], a).1) in s'.msgs
  {
    var step := AnswerAppend(i, AppendMsg(i, a, number, true));
    s' := Do(s, step);
    GoodStep(s, step, s');
  }

  lemma TermAfterSnapshot(c: Node, req: SnapshotRequest)
    ensures req.term < c.term ==> HandleSnapshot(c, req).term == c.term
  {
  }

  lemma ReplyIsAnswer(s': Cluster, i: nat, c: Node, req: SnapshotRequest, a: AppendRequest)
    requires a.leader == req.leader && a.term == req.term && LastCovered(a) == req.lastIndex
    requires AppendReplyMsg(i, a.leader, a.term, LastCovered(a), AppendReply(HandleSnapshot(c, req).term, req.term >= c.term)) in s'.msgs
    ensures SnapOk(SnapshotReply(i, req.leader, req.term, req.lastIndex, HandleSnapshot(c, req).term), s')
  {
    TermAfterSnapshot(c, req);
    assert Answered(s', i, req.leader, req.term, req.lastIndex, HandleSnapshot(c, req).term, req.term >= c.term);
  }

  lemma AnsweredMsgs(sys: System, s: Cluster, act: Act, a: AppendRequest, s': Cluster)
    requires Sim(sys, s) && Possible(sys, act) && act.AnswerSnapshot? && a.term == act.p.req.term
    requires s.msgs <= s'.msgs && s'.sent == s.sent && s'.handled == s.handled + {(act.i, AppendMsg(act.i, a, act.p.number, true))}
    requires SnapOk(SnapshotReply(act.i, act.p.req.leader, act.p.req.term, act.p.req.lastIndex,
                                  HandleSnapshot(sys.nodes[act.i], act.p.req).term), s')
    ensures SimMsgs(Perform(sys, act), s')
  {
    forall p | p in sys.snaps ensures SnapOk(p, s') { SnapStays(p, s, s'); }
  }

  lemma AnswerSnapshotSim(sys: System, s: Cluster, act: Act) returns (s': Cluster)
    requires Sim(sys, s) && Good(s) && Possible(sys, act) && Orderly(sys, act) && act.AnswerSnapshot?
    ensures Good(s') && Later(s, s') && Sim(Perform(sys, act), s')
  {
    var i, c, req, number := act.i, sys.nodes[act.i], act.p.req, act.p.number;
    assert SimNode(c, s.nodes[i]) && SnapOk(act.p, s);
    var a := FormOf(s, i, c, req, number);
    s' := AnswerPartStep(s, i, a, number);
    ReplyIsAnswer(s', i, c, req, a);
    AnsweredMsgs(sys, s, act, a, s');
    Rejoin(sys, Perform(sys, act), s, s', i);
  }

  /** An answer that the full cluster does not have to handle changes nothing. */
  lemma StaleAnswer(c: Node, p: SnapPacket)
    requires c.Valid() && p.SnapshotReply? && p.from in Peers(c.id, c.size) && p.requestTerm < p.term <= c.term
    ensures HandleSnapshotReply(c, p.requestTerm, p.from, p.index, p.term) == c
  {
  }

  lemma ReceiveAnswerSim(sys: System, s: Cluster, act: Act) returns (s': Cluster)
    requires Sim(sys, s) && Good(s) && Possible(sys, act) && act.ReceiveAnswer?
    ensures Good(s') && Later(s, s') && Sim(Perform(sys, act), s')
  {
    var i, c, n, p := act.i, sys.nodes[act.i], s.nodes[act.i], act.p;
    assert SimNode(c, n) && SnapOk(p, s);
    NodeFacts(s, i);
    var success: bool :| Answered(s, p.from, p.to, p.requestTerm, p.index, p.term, success);
    if success || p.term > n.term {
      var step := ReceivePrefixReply(i, AppendReplyMsg(p.from, p.to, p.requestTerm, p.index, AppendReply(p.term, success)));
      s' := Do(s, step);
      GoodStep(s, step, s');
      SnapshotReplySim(c, n, p.requestTerm, p.from, p.index, p.term);
      forall q | q in sys.snaps ensures SnapOk(q, s') { SnapStays(q, s, s'); }
      Rejoin(sys, Perform(sys, act), s, s', i);
    } else {
      StaleAnswer(c, p);
      s' := s;
      LaterThanItself(s);
      assert sys.nodes[i := c] == sys.nodes;
    }
  }

  /** Whatever happens in this cluster happens in the one with full logs. */
  lemma ActSim(sys: System, s: Cluster, act: Act) returns (s': Cluster)
    requires Sim(sys, s) && Good(s) && Possible(sys, act) && Orderly(sys, act)
    ensures Good(s') && Later(s, s') && Sim(Perform(sys, act), s')
  {
    match act
    case Plainly(step) => s' := PlainSim(sys, s, step);
    case CompactIt(_, _, _) =>
      CompactItSim(sys, s, act);
      LaterThanItself(s);
      s' := s;
    case ChooseFor(_, _, _, _) => s' := ChooseSim(sys, s, act);
    case AnswerSnapshot(_, _) => s' := AnswerSnapshotSim(sys, s, act);
    case ReceiveAnswer(_, _) => s' := ReceiveAnswerSim(sys, s, act);
  }

  // ---- Whole runs ----

  ghost predicate Beside(trace: seq<System>, shadow: seq<Cluster>, k: nat) {
    k < |trace| && k < |shadow| && Good(shadow[k]) && Sim(trace[k], shadow[k])
  }

  ghost predicate Onward(shadow: seq<Cluster>, k: nat) {
    k + 1 < |shadow| && Later(shadow[k], shadow[k + 1])
  }

  /** A cluster with full logs beside each state of the run. */
  ghost predicate Shadowed(trace: seq<System>, shadow: seq<Cluster>) {
    && |shadow| == |trace| && (forall k: nat :: k < |trace| ==> Beside(trace, shadow, k))
    && forall k: nat :: k + 1 < |trace| ==> Onward(shadow, k)
  }

  lemma StartSim(sys: System) returns (s: Cluster)
    requires Start(sys)
    ensures Good(s) && Sim(sys, s)
  {
    s := Cluster(sys.nodes, {}, 0, {}, {}, {}, map[]);
    assert Init(s) && RaftCluster.Run([s], []);
    assert InOrderRun([s], []);
    RunSafe([s], [], 0);
  }

  lemma OneMore(trace: seq<System>, shadow: seq<Cluster>, sys: System, s: Cluster)
    requires Shadowed(trace, shadow) && trace != [] && Good(s) && Sim(sys, s) && Later(shadow[|shadow| - 1], s)
    ensures Shadowed(trace + [sys], shadow + [s])
  {
    var trace', shadow' := trace + [sys], shadow + [s];
    forall k: nat | k < |trace'| ensures Beside(trace', shadow', k) {
      if k < |trace| { assert Beside(trace, shadow, k); }
    }
    forall k: nat | k + 1 < |trace'| ensures Onward(shadow', k) {
      if k + 1 < |trace| { assert Onward(shadow, k); }
    }
  }

  lemma RunFront(trace: seq<System>, acts: seq<Act>)
    requires CompactingRun(trace, acts) && acts != []
    ensures CompactingRun(trace[..|acts|], acts[..|acts| - 1]) && trace[..|acts|] + [trace[|acts|]] == trace
  {
    var trace', acts' := trace[..|acts|], acts[..|acts| - 1];
    forall k: nat | k < |acts'| ensures ActAt(trace', acts', k) { ActInFront(trace, acts, k); }
  }

  lemma ActInFront(trace: seq<System>, acts: seq<Act>, k: nat)
    requires k + 1 < |acts| < |trace| && ActAt(trace, acts, k)
    ensures ActAt(trace[..|acts|], acts[..|acts| - 1], k)
  {
  }

  lemma NextShadow(trace: seq<System>, acts: seq<Act>, front: seq<Cluster>) returns (s: Cluster)
    requires CompactingRun(trace, acts) && acts != [] && Shadowed(trace[..|acts|], front)
    ensures Good(s) && Sim(trace[|acts|], s) && Later(front[|acts| - 1], s)
  {
    var k := |acts| - 1;
    assert Beside(trace[..|acts|], front, k) && trace[..|acts|][k] == trace[k];
    assert ActAt(trace, acts, k);
    s := ActSim(trace[k], front[k], acts[k]);
  }

  /** Every run has a shadow: a run with full logs whose steps are those of this one. */
  lemma {:induction false} Shadow(trace: seq<System>, acts: seq<Act>) returns (shadow: seq<Cluster>)
    requires CompactingRun(trace, acts)
    ensures Shadowed(trace, shadow)
    decreases |acts|
  {
    if acts == [] {
      var s := StartSim(trace[0]);
      shadow := [s];
      assert Beside(trace, shadow, 0);
    } else {
      RunFront(trace, acts);
      var front := Shadow(trace[..|acts|], acts[..|acts| - 1]);
      var s := NextShadow(trace, acts, front);
      shadow := front + [s];
      OneMore(trace[..|acts|], front, trace[|acts|], s);
    }
  }

  lemma ShadowIsLater(trace: seq<System>, shadow: seq<Cluster>, j: nat, k: nat)
    requires Shadowed(trace, shadow) && j <= k < |trace|
    ensures Later(shadow[j], shadow[k])
  {
    assert Beside(trace, shadow, j);
    LaterThanItself(shadow[j]);
    forall i: nat | j <= i < k ensures Later(shadow[i], shadow[i + 1]) { assert Onward(shadow, i); }
    ChainIsLater(shadow, j, k);
  }

  lemma ShadowCommits(trace: seq<System>, shadow: seq<Cluster>, k: nat, i: nat)
    requires Shadowed(trace, shadow) && k < |trace| && i < |shadow[k].nodes|
    ensures SafeInv(shadow[k]) && NodeCommitOk(shadow[k], i) && shadow[k].nodes[i].commitIndex <= |LogOf(shadow[k], i)|
  {
    assert Beside(trace, shadow, k);
  }

  /** Full logs agree up to the lower commit index, whenever the nodes are looked at. */
  lemma ShadowsAgree(trace: seq<System>, shadow: seq<Cluster>, j: nat, k: nat, a: nat, b: nat)
    requires Shadowed(trace, shadow) && j < |trace| && k < |trace|
    requires a < |shadow[j].nodes| && b < |shadow[k].nodes| && |shadow[j].nodes| == |shadow[k].nodes|
    requires shadow[j].nodes[a].commitIndex <= shadow[k].nodes[b].commitIndex
    ensures var c := shadow[j].nodes[a].commitIndex;
            && c <= |LogOf(shadow[j], a)| && c <= |LogOf(shadow[k], b)|
            && LogOf(shadow[j], a)[..c] == LogOf(shadow[k], b)[..c]
  {
    var end := if j < k then k else j;
    ShadowIsLater(trace, shadow, j, end);
    ShadowIsLater(trace, shadow, k, end);
    ShadowCommits(trace, shadow, j, a);
    ShadowCommits(trace, shadow, k, b);
    ShadowCommits(trace, shadow, end, a);
    CommittedLogsAgree(shadow[end], shadow[j], shadow[k], a, b);
  }

  /** What a node holds of an index that it has committed and not compacted. */
  lemma HeldEntry(c: Node, n: Node, index: nat)
    requires SimNode(c, n) && n.commitIndex <= |n.log.entries| && n.applied == CommandsIn(n.log, 0, n.commitIndex)
    requires Real(n.log.entries) && c.log.snapIndex < index <= c.commitIndex
    ensures index <= c.log.LastIndex() && |c.applied| == c.commitIndex - c.log.snapIndex
    ensures c.log.entries[index - 1 - c.log.snapIndex] == n.log.entries[index - 1]
    ensures c.applied[index - 1 - c.log.snapIndex] == n.log.entries[index - 1].command
  {
    forall i: nat | 0 < i <= n.commitIndex ensures n.log.CommandAt(i) != "" { }
    Alignment.AppliesEachIndex(n.log, 0, n.commitIndex);
    assert n.applied[index - 1] == n.log.CommandAt(index);
  }

  /** State machine safety with compaction and snapshots: two nodes that have committed an index, at any
      two times of any run, and that still hold it, hold the same entry and have applied its command. */
  lemma CompactingSafety(trace: seq<System>, acts: seq<Act>, j: nat, k: nat, a: nat, b: nat, index: nat)
    requires CompactingRun(trace, acts) && j < |trace| && k < |trace| && a < |trace[0].nodes| && b < |trace[0].nodes|
    ensures |trace[j].nodes| == |trace[k].nodes| == |trace[0].nodes|
    ensures var n, n' := trace[j].nodes[a], trace[k].nodes[b];
            n.log.snapIndex < index <= n.commitIndex && n'.log.snapIndex < index <= n'.commitIndex ==>
              && index <= n.log.LastIndex() && index <= n'.log.LastIndex()
              && |n.applied| == n.commitIndex - n.log.snapIndex && |n'.applied| == n'.commitIndex - n'.log.snapIndex
              && n.log.entries[index - 1 - n.log.snapIndex] == n'.log.entries[index - 1 - n'.log.snapIndex]
              && n.applied[index - 1 - n.log.snapIndex] == n'.applied[index - 1 - n'.log.snapIndex]
                 == n.log.entries[index - 1 - n.log.snapIndex].command
  {
    var shadow := Shadow(trace, acts);
    SameSize(trace, shadow, j);
    SameSize(trace, shadow, k);
    var n, n' := trace[j].nodes[a], trace[k].nodes[b];
    if n.log.snapIndex < index <= n.commitIndex && n'.log.snapIndex < index <= n'.commitIndex {
      HeldInShadow(trace, shadow, j, a, index);
      HeldInShadow(trace, shadow, k, b, index);
      ShadowEntriesAgree(trace, shadow, j, k, a, b, index);
    }
  }

  lemma ShadowEntriesAgree(trace: seq<System>, shadow: seq<Cluster>, j: nat, k: nat, a: nat, b: nat, index: nat)
    requires Shadowed(trace, shadow) && j < |trace| && k < |trace|
    requires a < |shadow[j].nodes| && b < |shadow[k].nodes| && |shadow[j].nodes| == |shadow[k].nodes|
    requires 0 < index <= shadow[j].nodes[a].commitIndex && index <= shadow[k].nodes[b].commitIndex
    requires index <= |LogOf(shadow[j], a)| && index <= |LogOf(shadow[k], b)|
    ensures LogOf(shadow[j], a)[index - 1] == LogOf(shadow[k], b)[index - 1]
  {
    if shadow[j].nodes[a].commitIndex <= shadow[k].nodes[b].commitIndex {
      ShadowsAgree(trace, shadow, j, k, a, b);
      SameBelow(LogOf(shadow[j], a), LogOf(shadow[k], b), shadow[j].nodes[a].commitIndex, index - 1);
    } else {
      ShadowsAgree(trace, shadow, k, j, b, a);
      SameBelow(LogOf(shadow[k], b), LogOf(shadow[j], a), shadow[k].nodes[b].commitIndex, index - 1);
    }
  }

  lemma SameBelow(x: seq<Entry>, y: seq<Entry>, c: nat, k: nat)
    requires k < c <= |x| && c <= |y| && x[..c] == y[..c]
    ensures x[k] == y[k]
  {
    assert x[..c][k] == y[..c][k];
  }

  lemma SameSize(trace: seq<System>, shadow: seq<Cluster>, k: nat)
    requires Shadowed(trace, shadow) && k < |trace|
    ensures |shadow[k].nodes| == |trace[k].nodes| == |trace[0].nodes|
  {
    ShadowIsLater(trace, shadow, 0, k);
    assert Beside(trace, shadow, k) && Beside(trace, shadow, 0);
  }

  lemma HeldBeside(s: Cluster, i: nat, c: Node, index: nat)
    requires Good(s) && i < |s.nodes| && SimNode(c, s.nodes[i]) && c.log.snapIndex < index <= c.commitIndex
    ensures var log := LogOf(s, i);
            && c.commitIndex == s.nodes[i].commitIndex && index <= c.log.LastIndex() && index <= |log|
            && |c.applied| == c.commitIndex - c.log.snapIndex
            && c.log.entries[index - 1 - c.log.snapIndex] == log[index - 1]
            && c.applied[index - 1 - c.log.snapIndex] == log[index - 1].command
  {
    NodeFacts(s, i);
    assert NodeCommitOk(s, i);
    HeldEntry(c, s.nodes[i], index);
  }

  lemma HeldInShadow(trace: seq<System>, shadow: seq<Cluster>, k: nat, i: nat, index: nat)
    requires Shadowed(trace, shadow) && k < |trace| && i < |trace[k].nodes| == |shadow[k].nodes|
    requires trace[k].nodes[i].log.snapIndex < index <= trace[k].nodes[i].commitIndex
    ensures var c, log := trace[k].nodes[i], LogOf(shadow[k], i);
            && c.commitIndex == shadow[k].nodes[i].commitIndex && index <= c.log.LastIndex() && index <= |log|
            && |c.applied| == c.commitIndex - c.log.snapIndex
            && c.log.entries[index - 1 - c.log.snapIndex] == log[index - 1]
            && c.applied[index - 1 - c.log.snapIndex] == log[index - 1].command
  {
    assert Beside(trace, shadow, k);
    HeldBeside(shadow[k], i, trace[k].nodes[i], index);
  }

  // ---- Where the data of a snapshot comes from ----

  /** Some node was told, in the first k acts, to compact up to the index with this data. */
  ghost predicate Given(acts: seq<Act>, k: nat, index: nat, data: string) {
    exists j :: 0 <= j < k && j < |acts| && acts[j].CompactIt? && acts[j].upTo == index && acts[j].data == data
  }

  ghost predicate LogTraced(log: Log, acts: seq<Act>, k: nat) {
    log.snapIndex == 0 || Given(acts, k, log.snapIndex, log.snapData)
  }

  ghost predicate Traced(sys: System, acts: seq<Act>, k: nat) {
    && (forall i :: 0 <= i < |sys.nodes| ==> LogTraced(sys.nodes[i].log, acts, k))
    && (forall p :: p in sys.snaps && p.Snapshot? ==> Given(acts, k, p.req.lastIndex, p.req.data))
  }

  lemma GivenStays(acts: seq<Act>, k: nat, index: nat, data: string)
    requires Given(acts, k, index, data)
    ensures Given(acts, k + 1, index, data)
  {
  }

  lemma PlainKeepsSnapshot(n: Node, step: Step)
    requires n.Valid() && Ready(n, step)
    ensures var log := After(n, step).log; log.snapIndex == n.log.snapIndex && log.snapData == n.log.snapData
  {
    match step
    case Submit(_, command) => ProposeAppends(n, command);
    case ReceiveReply(_, m) => HandleReplyEvolves(n, m.requestTerm, m.from, m.matched, m.reply);
    case _ =>
  }

  /** The node that acts keeps its snapshot, or takes over data that was given. */
  lemma ActorTraced(sys: System, acts: seq<Act>, k: nat)
    requires k < |acts| && Possible(sys, acts[k]) && Traced(sys, acts, k)
    ensures LogTraced(Perform(sys, acts[k]).nodes[Actor(acts[k])].log, acts, k + 1)
  {
    var n := sys.nodes[Actor(acts[k])];
    assert LogTraced(n.log, acts, k);
    if acts[k].Plainly? { PlainKeepsSnapshot(n, acts[k].step); }
  }

  lemma ActTraced(sys: System, acts: seq<Act>, k: nat)
    requires k < |acts| && Possible(sys, acts[k]) && Traced(sys, acts, k)
    ensures Traced(Perform(sys, acts[k]), acts, k + 1)
  {
    var sys' := Perform(sys, acts[k]);
    ActorTraced(sys, acts, k);
    forall i | 0 <= i < |sys'.nodes| ensures LogTraced(sys'.nodes[i].log, acts, k + 1) {
      if i != Actor(acts[k]) { assert LogTraced(sys.nodes[i].log, acts, k); }
    }
    forall p | p in sys'.snaps && p.Snapshot? ensures Given(acts, k + 1, p.req.lastIndex, p.req.data) {
      if p in sys.snaps { GivenStays(acts, k, p.req.lastIndex, p.req.data); }
      else { assert LogTraced(sys.nodes[Actor(acts[k])].log, acts, k); }
    }
  }

  /** In every run the snapshot that a node holds or receives is one that some node was given for that index
      when it compacted. */
  lemma {:induction false} SnapshotsAreGiven(trace: seq<System>, acts: seq<Act>, k: nat)
    requires CompactingRun(trace, acts) && k < |trace|
    ensures Traced(trace[k], acts, k)
  {
    if k == 0 {
    } else {
      SnapshotsAreGiven(trace, acts, k - 1);
      assert ActAt(trace, acts, k - 1);
      ActTraced(trace[k - 1], acts, k - 1);
    }
  }

  /** No run comes to a state in which a node is not well formed. */
  lemma NodesStayValid(trace: seq<System>, acts: seq<Act>, k: nat, i: nat)
    requires CompactingRun(trace, acts) && k < |trace| && i < |trace[0].nodes|
    ensures |trace[k].nodes| == |trace[0].nodes| && trace[k].nodes[i].Valid()
  {
    var shadow := Shadow(trace, acts);
    SameSize(trace, shadow, k);
    assert Beside(trace, shadow, k) && SimNode(trace[k].nodes[i], shadow[k].nodes[i]);
    NodeFacts(shadow[k], i);
  }
}
