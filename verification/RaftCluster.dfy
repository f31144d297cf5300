/** A cluster of Raft nodes with full logs over an asynchronous network. What nodes that compact their logs
    do is the same on full logs (`CompactingCluster`): a snapshot stands for a prefix of the leader's log.

    Every block of cluster/raft_node.hpp that holds the node's mutex is one step. Messages stay in
    `msgs` for ever, so a step may act on one late, repeatedly, out of order or never. A crash keeps
    term, vote and log. The last four fields are history: no step reads them. */
module RaftCluster {
  import opened RaftLogs
  import opened CommitRule
  import opened RaftNodes

  datatype Message =
    | VoteReqMsg(req: VoteRequest)
    | VoteReplyMsg(from: nat, to: nat, electionTerm: nat, vote: VoteReply)
    | AppendMsg(to: nat, append: AppendRequest, number: nat, part: bool)
    | AppendReplyMsg(from: nat, to: nat, requestTerm: nat, matched: nat, reply: AppendReply)

  /** `voter` granted its vote to `candidate` in `term`. */
  datatype Vote = Vote(term: nat, voter: nat, candidate: nat)

  /** `node` confirmed that it holds the log of the leader of `term` up to `index`. */
  datatype Ack = Ack(term: nat, node: nat, index: nat)

  /** One leadership: who won, who voted, the log at the election and now, and the highest index
      the leader committed itself. */
  datatype Reign = Reign(leader: nat, voters: set<nat>, initial: seq<Entry>, log: seq<Entry>, committed: nat)

  datatype Cluster = Cluster(
    nodes: seq<Node>, msgs: set<Message>, sent: nat,
    handled: set<(nat, Message)>, votes: set<Vote>, acks: set<Ack>, reigns: map<nat, Reign>)

  datatype Step =
    | Timeout(i: nat)                              // start_election, first block
    | AnswerVote(i: nat, m: Message)               // handle_request_vote
    | Win(i: nat, grants: set<nat>)                // start_election, last block
    | Submit(i: nat, command: string)              // propose
    | Send(i: nat, peer: nat, next: nat)           // send_append_entries_to_peer, building the request
    | AnswerAppend(i: nat, m: Message)             // handle_append_entries
    | ReceiveReply(i: nat, m: Message)             // send_append_entries_to_peer, last block
    | Learn(i: nat, m: Message)                    // a reply with a higher term; also a crash right after storing it
    | SendPrefix(i: nat, peer: nat, last: nat)     // send_install_snapshot_to_peer, building the request
    | ReceivePrefixReply(i: nat, m: Message)       // send_install_snapshot_to_peer, last block
    | Crash(i: nat, kept: nat)                     // restart with what the node's snapshot covers applied

  /** Index of the last log entry a request covers. */
  function LastCovered(r: AppendRequest): nat {
    r.prevIndex + |r.entries|
  }

  function TermOf(m: Message): nat {
    match m
    case VoteReqMsg(req) => req.term
    case VoteReplyMsg(_, _, _, vote) => vote.term
    case AppendMsg(_, append, _, _) => append.term
    case AppendReplyMsg(_, _, _, _, reply) => reply.term
  }

  /** A node of a cluster in which nobody has compacted. */
  ghost predicate Formed(n: Node, i: nat, size: nat) {
    n.Valid() && n.id == i && n.size == size && n.log.snapIndex == 0 && n.log.snapTerm == 0
  }

  ghost predicate WellFormed(s: Cluster) {
    forall i :: 0 <= i < |s.nodes| ==> Formed(s.nodes[i], i, |s.nodes|)
  }

  ghost predicate Init(s: Cluster) {
    && (forall i :: 0 <= i < |s.nodes| ==>
          s.nodes[i] == Node(i, |s.nodes|, 0, -1, Uncompacted([]), Follower, -1, 0, 0, [], map[], map[]))
    && s == Cluster(s.nodes, {}, 0, {}, {}, {}, map[])
  }

  /** The part of a step's guard that its node can check. */
  predicate Ready(n: Node, step: Step) {
    match step
    case Timeout(_) => n.role != Leader
    case AnswerVote(_, m) => m.VoteReqMsg? && m.req.candidate != n.id
    case Win(_, grants) =>
      n.role == Candidate && grants <= Peers(n.id, n.size) && |grants| + 1 >= Majority(n.size)
    case Submit(_, _) => n.role == Leader
    case Send(_, peer, next) =>
      n.role == Leader && peer in Peers(n.id, n.size) && 1 <= next <= n.log.LastIndex() + 1
    case AnswerAppend(_, m) => m.AppendMsg? && m.to == n.id
    case ReceiveReply(_, m) => m.AppendReplyMsg? && m.to == n.id && m.from in Peers(n.id, n.size)
    case Learn(_, m) => TermOf(m) > n.term
    case SendPrefix(_, peer, last) =>
      n.role == Leader && peer in Peers(n.id, n.size) && 0 < last <= n.commitIndex && last <= |n.log.entries|
    case ReceivePrefixReply(_, m) =>
      && m.AppendReplyMsg? && m.to == n.id && m.from in Peers(n.id, n.size)
      && (m.reply.success || m.reply.term > n.term)
    case Crash(_, kept) => kept <= n.commitIndex
  }

  /** The messages a step acts on have been sent. */
  predicate Delivered(s: Cluster, step: Step)
    requires step.i < |s.nodes|
  {
    match step
    case AnswerVote(_, m) => m in s.msgs
    case Win(i, grants) =>
      var term := s.nodes[i].term;
      forall p :: p in grants ==> VoteReplyMsg(p, i, term, VoteReply(term, true)) in s.msgs
    case AnswerAppend(_, m) => m in s.msgs
    case ReceiveReply(_, m) => m in s.msgs
    case ReceivePrefixReply(_, m) => m in s.msgs
    case Learn(_, m) => m in s.msgs
    case _ => true
  }

  predicate Enabled(s: Cluster, step: Step) {
    step.i < |s.nodes| && Ready(s.nodes[step.i], step) && Delivered(s, step)
  }

  function After(n: Node, step: Step): Node
    requires n.Valid() && Ready(n, step)
  {
    match step
    case Timeout(_) => StartElection(n).0
    case AnswerVote(_, m) => HandleVote(n, m.req).0
    case Win(_, grants) => FinishElection(n, n.term, |grants| + 1)
    case Submit(_, command) => Propose(n, command)
    case Send(_, _, _) => n
    case AnswerAppend(_, m) => HandleAppend(n, m.append).0
    case ReceiveReply(_, m) => HandleAppendReply(n, m.requestTerm, m.from, m.matched, m.reply)
    case Learn(_, m) => BecomeFollower(n, TermOf(m))
    case SendPrefix(_, _, _) => n
    case ReceivePrefixReply(_, m) => HandleSnapshotReply(n, m.requestTerm, m.from, m.matched, m.reply.term)
    case Crash(_, kept) => RestartAt(n, kept)
  }

  /** A restart that finds the first `kept` commands applied. */
  function RestartAt(n: Node, kept: nat): Node {
    Restart(n).(commitIndex := kept, lastApplied := kept, applied := CommandsIn(n.log, 0, kept))
  }

  /** The two requests that a snapshot of the first `last` entries stands for: the entries themselves, and
      the news that they are committed for a peer that holds them. */
  function PrefixRequest(n: Node, last: nat): AppendRequest
    requires last <= |n.log.entries|
  {
    AppendRequest(n.term, n.id, 0, 0, n.log.entries[..last], last)
  }

  function PrefixNews(n: Node, last: nat): AppendRequest {
    AppendRequest(n.term, n.id, last, n.log.TermAt(last), [], last)
  }

  function Outgoing(n: Node, step: Step, sent: nat): set<Message>
    requires Ready(n, step)
  {
    match step
    case Timeout(_) => {VoteReqMsg(StartElection(n).1)}
    case AnswerVote(_, m) => {VoteReplyMsg(n.id, m.req.candidate, m.req.term, HandleVote(n, m.req).1)}
    case Send(_, peer, next) => {AppendMsg(peer, BuildAppend(n, next), sent, false)}
    case SendPrefix(_, peer, last) =>
      {AppendMsg(peer, PrefixRequest(n, last), sent, true), AppendMsg(peer, PrefixNews(n, last), sent, true)}
    case AnswerAppend(_, m) =>
      {AppendReplyMsg(n.id, m.append.leader, m.append.term, LastCovered(m.append), HandleAppend(n, m.append).1)}
    case _ => {}
  }

  function VotesCast(n: Node, step: Step): set<Vote>
    requires Ready(n, step)
  {
    match step
    case Timeout(_) => {Vote(n.term + 1, n.id, n.id)}
    case AnswerVote(_, m) => if HandleVote(n, m.req).1.granted then {Vote(m.req.term, n.id, m.req.candidate)} else {}
    case _ => {}
  }

  function AcksGiven(n: Node, step: Step): set<Ack>
    requires Ready(n, step)
  {
    match step
    case Submit(_, _) => {Ack(n.term, n.id, n.log.LastIndex() + 1)}
    case AnswerAppend(_, m) =>
      if HandleAppend(n, m.append).1.success then {Ack(m.append.term, n.id, LastCovered(m.append))} else {}
    case _ => {}
  }

  /** A new reign begins with `Win`; a leader's steps extend its log and its commit index. */
  function ReignsAfter(reigns: map<nat, Reign>, n: Node, step: Step): map<nat, Reign>
    requires n.Valid() && Ready(n, step)
  {
    if step.Win? then
      reigns[n.term := Reign(n.id, step.grants + {n.id}, n.log.entries, n.log.entries, 0)]
    else if (step.Submit? || step.ReceiveReply?) && n.role == Leader && n.term in reigns then
      var n', r := After(n, step), reigns[n.term];
      reigns[n.term := r.(log := n'.log.entries,
                          committed := if n'.commitIndex > n.commitIndex && n'.commitIndex > r.committed
                                       then n'.commitIndex else r.committed)]
    else reigns
  }

  function Do(s: Cluster, step: Step): Cluster
    requires WellFormed(s) && Enabled(s, step)
  {
    var n := s.nodes[step.i];
    Cluster(
      s.nodes[step.i := After(n, step)],
      s.msgs + Outgoing(n, step, s.sent),
      if step.Send? || step.SendPrefix? then s.sent + 1 else s.sent,
      if step.AnswerAppend? then s.handled + {(step.i, step.m)} else s.handled,
      s.votes + VotesCast(n, step),
      s.acks + AcksGiven(n, step),
      ReignsAfter(s.reigns, n, step))
  }

  ghost predicate Next(s: Cluster, step: Step, s': Cluster) {
    WellFormed(s) && Enabled(s, step) && s' == Do(s, step)
  }

  ghost predicate NextAt(trace: seq<Cluster>, steps: seq<Step>, k: nat) {
    k < |steps| && k + 1 < |trace| && Next(trace[k], steps[k], trace[k + 1])
  }

  /** Any finite run from the start, over a network that may lose, repeat and reorder messages. */
  ghost predicate Run(trace: seq<Cluster>, steps: seq<Step>) {
    && |trace| == |steps| + 1 && Init(trace[0])
    && forall k: nat :: k < |steps| ==> NextAt(trace, steps, k)
  }

  /** The request does not cut off anything that follows an entry it agrees with. */
  predicate CutsNothing(n: Node, a: AppendRequest) {
    || a.entries == [] || |n.log.entries| <= LastCovered(a)
    || n.log.entries[LastCovered(a) - 1].term != a.entries[|a.entries| - 1].term
  }

  /** The requests of one leader are handled by each follower in the order they were sent. What a snapshot
      stands for may come at any time and cuts nothing off. */
  predicate InOrder(s: Cluster, step: Step) {
    step.AnswerAppend? && step.m.AppendMsg? && step.i < |s.nodes| ==>
      if step.m.part then CutsNothing(s.nodes[step.i], step.m.append)
      else forall h :: h in s.handled && h.0 == step.i && h.1.AppendMsg? && h.1.append.term == step.m.append.term ==>
             h.1.number <= step.m.number
  }

  ghost predicate InOrderRun(trace: seq<Cluster>, steps: seq<Step>) {
    Run(trace, steps) && forall k :: 0 <= k < |steps| ==> InOrder(trace[k], steps[k])
  }

  lemma ProposeForms(n: Node, i: nat, size: nat, command: string)
    requires Formed(n, i, size)
    ensures Formed(Propose(n, command), i, size)
  {
  }

  lemma ReplyForms(n: Node, i: nat, size: nat, term: nat, peer: nat, matched: nat, reply: AppendReply)
    requires Formed(n, i, size) && peer in Peers(i, size)
    ensures Formed(HandleAppendReply(n, term, peer, matched, reply), i, size)
  {
  }

  lemma PrefixReplyForms(n: Node, i: nat, size: nat, term: nat, peer: nat, index: nat, replyTerm: nat)
    requires Formed(n, i, size) && peer in Peers(i, size)
    ensures Formed(HandleSnapshotReply(n, term, peer, index, replyTerm), i, size)
  {
  }

  lemma HandleAppendForms(n: Node, i: nat, size: nat, r: AppendRequest)
    requires Formed(n, i, size)
    ensures Formed(HandleAppend(n, r).0, i, size)
  {
  }

  lemma AfterForms(n: Node, i: nat, size: nat, step: Step)
    requires Formed(n, i, size) && Ready(n, step)
    ensures Formed(After(n, step), i, size)
  {
    match step
    case Submit(_, command) =>
      ProposeForms(n, i, size, command);
    case AnswerAppend(_, m) =>
      HandleAppendForms(n, i, size, m.append);
    case ReceiveReply(_, m) =>
      ReplyForms(n, i, size, m.requestTerm, m.from, m.matched, m.reply);
    case ReceivePrefixReply(_, m) =>
      PrefixReplyForms(n, i, size, m.requestTerm, m.from, m.matched, m.reply.term);
    case _ =>
  }

  /** No step leaves the states on which steps are defined. */
  lemma StaysWellFormed(s: Cluster, step: Step)
    requires WellFormed(s) && Enabled(s, step)
    ensures WellFormed(Do(s, step)) && |Do(s, step).nodes| == |s.nodes|
  {
    AfterForms(s.nodes[step.i], step.i, |s.nodes|, step);
    ReplaceForms(s.nodes, step.i, After(s.nodes[step.i], step));
  }

  lemma ReplaceForms(nodes: seq<Node>, i: nat, n: Node)
    requires i < |nodes| && Formed(n, i, |nodes|) && forall k :: 0 <= k < |nodes| ==> Formed(nodes[k], k, |nodes|)
    ensures var nodes' := nodes[i := n];
            forall k :: 0 <= k < |nodes'| ==> Formed(nodes'[k], k, |nodes'|)
  {
  }

  lemma InitIsWellFormed(s: Cluster)
    requires Init(s)
    ensures WellFormed(s)
  {
  }
}
