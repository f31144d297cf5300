/** What every run of the cluster keeps, whatever the network does: one leader a term, logs that
    agree wherever their terms agree, leaders that only append. */
module RaftInvariants {
  import opened RaftLogs
  import opened CommitRule
  import opened FiniteSets
  import opened RaftNodes
  import opened RaftCluster

  function LogOf(s: Cluster, i: nat): seq<Entry>
    requires i < |s.nodes|
  {
    s.nodes[i].log.entries
  }

  // ---- The invariant ----

  /** Up to index k the log is what the leader of that entry's term wrote. */
  ghost predicate AnchoredAt(log: seq<Entry>, k: nat, reigns: map<nat, Reign>)
    requires k < |log|
  {
    var t := log[k].term;
    t in reigns && k < |reigns[t].log| && log[..k + 1] == reigns[t].log[..k + 1]
  }

  ghost predicate Anchored(log: seq<Entry>, reigns: map<nat, Reign>) {
    forall k :: 0 <= k < |log| ==> AnchoredAt(log, k, reigns)
  }

  ghost predicate VoteOk(s: Cluster, v: Vote) {
    && v.voter < |s.nodes| && v.candidate < |s.nodes| && v.term > 0
    && v.term <= s.nodes[v.voter].term && v.term <= s.nodes[v.candidate].term
    && (v.term == s.nodes[v.voter].term ==> s.nodes[v.voter].votedFor == v.candidate)
  }

  ghost predicate VotesInv(s: Cluster) {
    && (forall v :: v in s.votes ==> VoteOk(s, v))
    && (forall v, w :: v in s.votes && w in s.votes && v.term == w.term && v.voter == w.voter
          ==> v.candidate == w.candidate)
  }

  /** The log of a reign: older entries first, then the leader's own. */
  ghost predicate ReignLogOk(term: nat, r: Reign) {
    && r.initial <= r.log
    && (forall k :: 0 <= k < |r.initial| ==> r.log[k].term < term)
    && (forall k :: |r.initial| <= k < |r.log| ==> r.log[k].term == term)
  }

  ghost predicate ReignOk(s: Cluster, term: nat, r: Reign) {
    && r.leader < |s.nodes| && term <= s.nodes[r.leader].term
    && (term == s.nodes[r.leader].term ==> s.nodes[r.leader].role != Candidate)
    && r.voters <= Members(|s.nodes|) && |r.voters| >= Majority(|s.nodes|)
    && (forall v :: v in r.voters ==> Vote(term, v, r.leader) in s.votes)
    && ReignLogOk(term, r) && Anchored(r.log, s.reigns)
  }

  ghost predicate ReignsInv(s: Cluster) {
    forall term :: term in s.reigns ==> ReignOk(s, term, s.reigns[term])
  }

  /** What a leader's tracked indices stand for. */
  ghost predicate TracksOk(n: Node, acks: set<Ack>)
    requires n.Valid() && n.role == Leader
  {
    forall p :: p in Peers(n.id, n.size) ==>
      && 1 <= n.nextIndex[p] <= n.log.LastIndex() + 1
      && (n.matchIndex[p] == 0 || Ack(n.term, p, n.matchIndex[p]) in acks)
  }

  ghost predicate LeaderOk(s: Cluster, i: nat)
    requires i < |s.nodes| && Formed(s.nodes[i], i, |s.nodes|)
  {
    var n := s.nodes[i];
    n.role == Leader ==>
      && n.term in s.reigns && s.reigns[n.term].leader == i && s.reigns[n.term].log == n.log.entries
      && (|s.reigns[n.term].initial| < |n.log.entries| ==> Ack(n.term, i, |n.log.entries|) in s.acks)
      && TracksOk(n, s.acks)
  }

  ghost predicate TermsWithin(log: seq<Entry>, term: nat) {
    forall k :: 0 <= k < |log| ==> log[k].term <= term
  }

  ghost predicate NodeOk(s: Cluster, i: nat)
    requires i < |s.nodes| && Formed(s.nodes[i], i, |s.nodes|)
  {
    var n := s.nodes[i];
    && Anchored(n.log.entries, s.reigns)
    && TermsWithin(n.log.entries, n.term)
    && (n.role == Candidate ==> Vote(n.term, i, i) in s.votes)
    && LeaderOk(s, i)
  }

  ghost predicate NodesInv(s: Cluster) {
    WellFormed(s) && forall i :: 0 <= i < |s.nodes| ==> NodeOk(s, i)
  }

  /** A request carries a stretch of the leader's log. */
  ghost predicate Covered(r: Reign, a: AppendRequest) {
    && LastCovered(a) <= |r.log|
    && a.entries == r.log[a.prevIndex..LastCovered(a)]
    && (a.prevIndex > 0 ==> a.prevTerm == r.log[a.prevIndex - 1].term)
  }

  ghost predicate MessageOk(s: Cluster, m: Message) {
    match m
    case VoteReqMsg(req) =>
      && req.candidate < |s.nodes| && 0 < req.term <= s.nodes[req.candidate].term
      && (req.term == s.nodes[req.candidate].term && s.nodes[req.candidate].role == Candidate ==>
            && req.lastIndex == s.nodes[req.candidate].log.LastIndex()
            && req.lastTerm == s.nodes[req.candidate].log.LastTerm())
    case VoteReplyMsg(from, to, term, vote) => vote.granted ==> Vote(term, from, to) in s.votes
    case AppendMsg(to, a, number, part) =>
      && a.term in s.reigns && s.reigns[a.term].leader == a.leader && to != a.leader
      && to < |s.nodes| && number < s.sent && Covered(s.reigns[a.term], a)
      && (!part ==> |s.reigns[a.term].initial| <= LastCovered(a))
    case AppendReplyMsg(from, to, term, matched, reply) => reply.success ==> Ack(term, from, matched) in s.acks
  }

  /** A request that carries the log to its end covers all that was sent before it. */
  ghost predicate SendOrder(s: Cluster) {
    forall x, y :: x in s.msgs && y in s.msgs && x.AppendMsg? && y.AppendMsg? && !y.part
                   && x.append.term == y.append.term && x.number <= y.number
      ==> LastCovered(x.append) <= LastCovered(y.append)
  }

  ghost predicate MessagesInv(s: Cluster) {
    && (forall m :: m in s.msgs ==> MessageOk(s, m))
    && (forall h :: h in s.handled ==> h.1 in s.msgs)
    && SendOrder(s)
  }

  /** The node has handled a request of that term which covers `index`. */
  ghost predicate HandledUpTo(s: Cluster, i: nat, term: nat, index: nat) {
    exists h :: h in s.handled && h.0 == i && h.1.AppendMsg? && h.1.append.term == term
                && index <= LastCovered(h.1.append)
  }

  ghost predicate AckOk(s: Cluster, a: Ack) {
    && a.node < |s.nodes| && a.term <= s.nodes[a.node].term
    && a.term in s.reigns && a.index <= |s.reigns[a.term].log|
    && (a.node != s.reigns[a.term].leader ==> HandledUpTo(s, a.node, a.term, a.index))
  }

  ghost predicate AcksInv(s: Cluster) {
    forall a :: a in s.acks ==> AckOk(s, a)
  }

  ghost predicate Inv(s: Cluster) {
    NodesInv(s) && VotesInv(s) && ReignsInv(s) && MessagesInv(s) && AcksInv(s)
  }

  // ---- Logs and quorums ----

  /** Log matching, section 5.3 of the Raft paper: one term at an index, one history up to it. */
  lemma SameTermSamePrefix(a: seq<Entry>, b: seq<Entry>, k: nat, reigns: map<nat, Reign>)
    requires Anchored(a, reigns) && Anchored(b, reigns)
    requires k < |a| && k < |b| && a[k].term == b[k].term
    ensures a[..k + 1] == b[..k + 1]
  {
    assert AnchoredAt(a, k, reigns) && AnchoredAt(b, k, reigns);
  }

  ghost predicate Continues(r: Reign, r': Reign) {
    && r'.leader == r.leader && r'.voters == r.voters && r'.initial == r.initial
    && r.log <= r'.log && r.committed <= r'.committed
  }

  /** Reigns stay and only append. */
  ghost predicate Extends(reigns: map<nat, Reign>, reigns': map<nat, Reign>) {
    forall t :: t in reigns ==> t in reigns' && Continues(reigns[t], reigns'[t])
  }

  lemma AnchoredStays(log: seq<Entry>, reigns: map<nat, Reign>, reigns': map<nat, Reign>)
    requires Anchored(log, reigns) && Extends(reigns, reigns')
    ensures Anchored(log, reigns')
  {
    forall k | 0 <= k < |log| ensures AnchoredAt(log, k, reigns') {
      assert AnchoredAt(log, k, reigns);
      var t := log[k].term;
      assert reigns[t].log == reigns'[t].log[..|reigns[t].log|];
    }
  }

  lemma AnchoredPrefix(log: seq<Entry>, m: nat, reigns: map<nat, Reign>)
    requires Anchored(log, reigns) && m <= |log|
    ensures Anchored(log[..m], reigns)
  {
    forall k | 0 <= k < m ensures AnchoredAt(log[..m], k, reigns) {
      assert AnchoredAt(log, k, reigns);
      assert log[..m][..k + 1] == log[..k + 1];
    }
  }

  // ---- How one node may change in a step ----

  ghost predicate Evolves(n: Node, n': Node) {
    && n.term <= n'.term
    && (n'.term == n.term && n.votedFor != -1 ==> n'.votedFor == n.votedFor)
    && (n'.term == n.term && n'.role == Candidate ==> n.role == Candidate && n'.log == n.log)
  }

  lemma HandleAppendEvolves(n: Node, a: AppendRequest)
    ensures Evolves(n, HandleAppend(n, a).0)
    ensures HandleAppend(n, a).0.role == Candidate ==> HandleAppend(n, a).0 == n
  {
  }

  lemma HandleReplyEvolves(n: Node, term: nat, peer: nat, matched: nat, reply: AppendReply)
    requires n.Valid() && peer in Peers(n.id, n.size)
    ensures Evolves(n, HandleAppendReply(n, term, peer, matched, reply))
    ensures HandleAppendReply(n, term, peer, matched, reply).log == n.log
  {
  }

  lemma HandlePrefixReplyEvolves(n: Node, term: nat, peer: nat, index: nat, replyTerm: nat)
    requires n.Valid() && peer in Peers(n.id, n.size)
    ensures Evolves(n, HandleSnapshotReply(n, term, peer, index, replyTerm))
    ensures HandleSnapshotReply(n, term, peer, index, replyTerm).log == n.log
  {
  }

  lemma AfterEvolves(n: Node, step: Step)
    requires n.Valid() && Ready(n, step)
    ensures Evolves(n, After(n, step))
  {
    match step
    case AnswerAppend(_, m) => HandleAppendEvolves(n, m.append);
    case ReceiveReply(_, m) => HandleReplyEvolves(n, m.requestTerm, m.from, m.matched, m.reply);
    case ReceivePrefixReply(_, m) => HandlePrefixReplyEvolves(n, m.requestTerm, m.from, m.matched, m.reply.term);
    case _ =>
  }

  lemma StepEvolves(s: Cluster, step: Step, s': Cluster)
    requires Next(s, step, s')
    ensures |s'.nodes| == |s.nodes| && WellFormed(s')
    ensures forall i :: 0 <= i < |s.nodes| ==> Evolves(s.nodes[i], s'.nodes[i])
    ensures forall i :: 0 <= i < |s.nodes| && i != step.i ==> s'.nodes[i] == s.nodes[i]
    ensures s.msgs <= s'.msgs && s.votes <= s'.votes && s.acks <= s'.acks && s.handled <= s'.handled
    ensures s.sent <= s'.sent
  {
    StaysWellFormed(s, step);
    HistoryGrows(s, step, s');
    StepMoves(s, step, s');
    AfterEvolves(s.nodes[step.i], step);
    NodesEvolve(s.nodes, s'.nodes, step.i);
  }

  lemma HistoryGrows(s: Cluster, step: Step, s': Cluster)
    requires Next(s, step, s')
    ensures s.msgs <= s'.msgs && s.votes <= s'.votes && s.acks <= s'.acks && s.handled <= s'.handled && s.sent <= s'.sent
    ensures s'.nodes == s.nodes[step.i := s'.nodes[step.i]]
  {
    Assigned(s.nodes, step.i, After(s.nodes[step.i], step));
  }

  lemma Assigned<T>(values: seq<T>, i: nat, x: T)
    requires i < |values|
    ensures values[i := x] == values[i := values[i := x][i]]
  {
  }

  lemma NodesEvolve(nodes: seq<Node>, nodes': seq<Node>, i: nat)
    requires |nodes| == |nodes'| && i < |nodes| && nodes' == nodes[i := nodes'[i]] && Evolves(nodes[i], nodes'[i])
    ensures forall k :: 0 <= k < |nodes| ==> Evolves(nodes[k], nodes'[k])
  {
    forall k | 0 <= k < |nodes| ensures Evolves(nodes[k], nodes'[k]) {
      if k != i { SameEvolves(nodes[k]); }
    }
  }

  lemma SameEvolves(n: Node)
    ensures Evolves(n, n)
  {
  }

  lemma StepMoves(s: Cluster, step: Step, s': Cluster)
    requires WellFormed(s) && Next(s, step, s')
    ensures step.i < |s.nodes| == |s'.nodes| && Formed(s.nodes[step.i], step.i, |s.nodes|) && Ready(s.nodes[step.i], step)
    ensures s'.nodes[step.i] == After(s.nodes[step.i], step) && s'.reigns == ReignsAfter(s.reigns, s.nodes[step.i], step)
    ensures s'.acks == s.acks + AcksGiven(s.nodes[step.i], step)
  {
    Assigned(s.nodes, step.i, After(s.nodes[step.i], step));
  }

  // ---- Elections ----

  /** Two majorities share a voter, who votes once a term: a term that has a leader gets no other. */
  lemma NoSecondWinner(s: Cluster, term: nat, i: nat, voters: set<nat>)
    requires VotesInv(s) && ReignsInv(s) && i < |s.nodes| && s.nodes[i].term == term
    requires voters <= Members(|s.nodes|) && |voters| >= Majority(|s.nodes|)
    requires forall v :: v in voters ==> Vote(term, v, i) in s.votes
    ensures term in s.reigns ==> s.nodes[i].role != Candidate
  {
    if term in s.reigns {
      var r := s.reigns[term];
      assert ReignOk(s, term, r);
      var p := SetsMeet(r.voters, voters, |s.nodes|);
      assert Vote(term, p, r.leader) in s.votes && Vote(term, p, i) in s.votes;
    }
  }

  lemma WinIsFresh(s: Cluster, step: Step)
    requires Inv(s) && WellFormed(s) && Enabled(s, step) && step.Win?
    ensures s.nodes[step.i].term !in s.reigns
    ensures forall v :: v in step.grants + {step.i} ==> Vote(s.nodes[step.i].term, v, step.i) in s.votes
    ensures step.grants + {step.i} <= Members(|s.nodes|) && |step.grants + {step.i}| >= Majority(|s.nodes|)
  {
    var i, term, voters := step.i, s.nodes[step.i].term, step.grants + {step.i};
    assert NodeOk(s, i);
    forall v | v in step.grants ensures Vote(term, v, i) in s.votes {
      assert MessageOk(s, VoteReplyMsg(v, i, term, VoteReply(term, true)));
    }
    NoSecondWinner(s, term, i, voters);
  }

  /** A vote that is new in this step. */
  lemma NewVoteOk(s: Cluster, step: Step, s': Cluster, v: Vote)
    requires Inv(s) && Next(s, step, s') && v in VotesCast(s.nodes[step.i], step)
    ensures VoteOk(s', v) && v.voter == step.i && v.term >= s.nodes[step.i].term
    ensures v.term == s.nodes[step.i].term ==> s.nodes[step.i].votedFor == -1 || s.nodes[step.i].votedFor == v.candidate
  {
  }

  lemma VotesStayOk(s: Cluster, step: Step, s': Cluster)
    requires Inv(s) && Next(s, step, s')
    ensures forall v :: v in s'.votes ==> VoteOk(s', v)
  {
    StepEvolves(s, step, s');
    forall v | v in s'.votes ensures VoteOk(s', v) {
      if v in s.votes { assert VoteOk(s, v); } else { NewVoteOk(s, step, s', v); }
    }
  }

  lemma VotesStay(s: Cluster, step: Step, s': Cluster)
    requires Inv(s) && Next(s, step, s')
    ensures VotesInv(s')
  {
    StepEvolves(s, step, s');
    VotesStayOk(s, step, s');
    forall v, w | v in s'.votes && w in s'.votes && v.term == w.term && v.voter == w.voter
      ensures v.candidate == w.candidate
    {
      if v in s.votes { assert VoteOk(s, v); } else { NewVoteOk(s, step, s', v); }
      if w in s.votes { assert VoteOk(s, w); } else { NewVoteOk(s, step, s', w); }
    }
  }

  // ---- Reigns ----

  lemma AppendStaysAnchored(log: seq<Entry>, e: Entry, reigns: map<nat, Reign>, reigns': map<nat, Reign>)
    requires Anchored(log, reigns) && Extends(reigns, reigns')
    requires e.term in reigns' && reigns'[e.term].log == log + [e]
    ensures Anchored(log + [e], reigns')
  {
    AnchoredStays(log, reigns, reigns');
    forall k | 0 <= k < |log| + 1 ensures AnchoredAt(log + [e], k, reigns') {
      if k < |log| {
        assert AnchoredAt(log, k, reigns');
        assert (log + [e])[..k + 1] == log[..k + 1];
      }
    }
  }

  lemma ProposeAppends(n: Node, command: string)
    requires n.Valid() && n.role == Leader
    ensures var n' := Propose(n, command);
            && n'.log == n.log.Append(n.term, command) && n.commitIndex <= n'.commitIndex
            && n'.term == n.term && n'.role == Leader
            && n'.nextIndex == n.nextIndex && n'.matchIndex == n.matchIndex
  {
  }

  /** The reigns go on; only the leader's own changes, by a win, or in its log by a proposal. */
  ghost predicate ReignsGoOn(reigns: map<nat, Reign>, n: Node, step: Step, reigns': map<nat, Reign>) {
    && Extends(reigns, reigns')
    && (forall t :: t in reigns && (n.role != Leader || n.term != t) ==> reigns'[t] == reigns[t])
    && (forall t :: t in reigns' && t !in reigns ==> step.Win? && t == n.term)
    && (forall t :: t in reigns && reigns'[t].log != reigns[t].log ==>
          step.Submit? && t == n.term && reigns'[t].log == reigns[t].log + [Entry(t, step.command)])
  }

  lemma OwnReignGoesOn(reigns: map<nat, Reign>, n: Node, step: Step, r: Reign)
    requires n.role == Leader && n.term in reigns && Continues(reigns[n.term], r)
    requires r.log == reigns[n.term].log || (step.Submit? && r.log == reigns[n.term].log + [Entry(n.term, step.command)])
    ensures ReignsGoOn(reigns, n, step, reigns[n.term := r])
  {
  }

  lemma LeaderExtendsReigns(reigns: map<nat, Reign>, n: Node, step: Step)
    requires n.Valid() && Ready(n, step) && (step.Submit? || step.ReceiveReply?) && n.role == Leader && n.term in reigns
    requires reigns[n.term].leader == n.id && reigns[n.term].log == n.log.entries
    ensures ReignsGoOn(reigns, n, step, ReignsAfter(reigns, n, step))
  {
    if step.Submit? {
      ProposeAppends(n, step.command);
    } else {
      HandleReplyEvolves(n, step.m.requestTerm, step.m.from, step.m.matched, step.m.reply);
    }
    OwnReignGoesOn(reigns, n, step, ReignsAfter(reigns, n, step)[n.term]);
  }

  /** What a node's step does to the reigns. */
  lemma NodeExtendsReigns(reigns: map<nat, Reign>, n: Node, step: Step)
    requires n.Valid() && Ready(n, step)
    requires step.Win? ==> n.term !in reigns
    requires n.role == Leader && n.term in reigns ==> reigns[n.term].leader == n.id && reigns[n.term].log == n.log.entries
    ensures ReignsGoOn(reigns, n, step, ReignsAfter(reigns, n, step))
  {
    if (step.Submit? || step.ReceiveReply?) && n.role == Leader && n.term in reigns {
      LeaderExtendsReigns(reigns, n, step);
    }
  }

  lemma ReignsExtend(s: Cluster, step: Step, s': Cluster)
    requires Inv(s) && Next(s, step, s')
    ensures Extends(s.reigns, s'.reigns)
    ensures forall t :: t in s.reigns && (s.nodes[step.i].role != Leader || s.nodes[step.i].term != t)
              ==> s'.reigns[t] == s.reigns[t]
    ensures forall t :: t in s'.reigns && t !in s.reigns ==> step.Win? && t == s.nodes[step.i].term
    ensures forall t :: t in s.reigns && s'.reigns[t].log != s.reigns[t].log ==>
              step.Submit? && t == s.nodes[step.i].term
              && s'.reigns[t].log == s.reigns[t].log + [Entry(t, step.command)]
  {
    assert NodeOk(s, step.i);
    if step.Win? { WinIsFresh(s, step); }
    NodeExtendsReigns(s.reigns, s.nodes[step.i], step);
  }

  lemma ReignsStay(s: Cluster, step: Step, s': Cluster)
    requires Inv(s) && Next(s, step, s')
    ensures ReignsInv(s')
  {
    StepEvolves(s, step, s');
    ReignsExtend(s, step, s');
    forall term | term in s'.reigns ensures ReignOk(s', term, s'.reigns[term]) {
      if term !in s.reigns {
        NewReignOk(s, step, s');
      } else {
        OldReignOk(s, step, s', term);
      }
    }
  }

  lemma NewReignOk(s: Cluster, step: Step, s': Cluster)
    requires Inv(s) && Next(s, step, s') && step.Win?
    ensures s.nodes[step.i].term in s'.reigns
    ensures ReignOk(s', s.nodes[step.i].term, s'.reigns[s.nodes[step.i].term])
  {
    StepEvolves(s, step, s');
    ReignsExtend(s, step, s');
    WinIsFresh(s, step);
    var n := s.nodes[step.i];
    var log := n.log.entries;
    assert NodeOk(s, step.i);
    AnchoredStays(log, s.reigns, s'.reigns);
    forall k | 0 <= k < |log| ensures log[k].term < n.term {
      assert AnchoredAt(log, k, s.reigns);
    }
  }

  lemma ReignLogGrows(term: nat, r: Reign, r': Reign, command: string)
    requires ReignLogOk(term, r) && r'.initial == r.initial && r'.log == r.log + [Entry(term, command)]
    ensures ReignLogOk(term, r')
  {
  }

  lemma ReignLogStays(s: Cluster, step: Step, s': Cluster, term: nat)
    requires Inv(s) && Next(s, step, s') && term in s.reigns
    ensures term in s'.reigns && ReignLogOk(term, s'.reigns[term]) && Anchored(s'.reigns[term].log, s'.reigns)
  {
    ReignsExtend(s, step, s');
    var r, r' := s.reigns[term], s'.reigns[term];
    assert ReignOk(s, term, r) && Continues(r, r');
    if r'.log == r.log {
      AnchoredStays(r.log, s.reigns, s'.reigns);
    } else {
      ReignLogGrows(term, r, r', step.command);
      AppendStaysAnchored(r.log, Entry(term, step.command), s.reigns, s'.reigns);
    }
  }

  lemma OldReignOk(s: Cluster, step: Step, s': Cluster, term: nat)
    requires Inv(s) && Next(s, step, s') && term in s.reigns
    ensures term in s'.reigns && ReignOk(s', term, s'.reigns[term])
  {
    StepEvolves(s, step, s');
    ReignsExtend(s, step, s');
    ReignLogStays(s, step, s', term);
    assert ReignOk(s, term, s.reigns[term]);
    assert Evolves(s.nodes[s.reigns[term].leader], s'.nodes[s.reigns[term].leader]);
  }

  // ---- Messages and acknowledgements ----

  lemma CoveredStays(r: Reign, r': Reign, a: AppendRequest)
    requires Covered(r, a) && Continues(r, r')
    ensures Covered(r', a)
  {
  }

  /** A request built from a log that was never compacted is the log's own tail. */
  lemma BuiltIsCovered(n: Node, next: nat, r: Reign)
    requires n.log.snapIndex == 0 && 1 <= next <= n.log.LastIndex() + 1
    requires r.log == n.log.entries && r.initial <= r.log
    ensures Covered(r, BuildAppend(n, next)) && LastCovered(BuildAppend(n, next)) == |r.log|
  {
    var slice := LogSlice(n.log, next);
    assert |slice| == |n.log.entries| + 1 - next;
    forall k | 0 <= k < |slice| ensures slice[k] == n.log.entries[next - 1 + k] {
      assert slice[k] == Entry(n.log.TermAt(next + k), n.log.CommandAt(next + k));
    }
    assert slice == n.log.entries[next - 1..];
  }

  lemma OldMessageOk(s: Cluster, step: Step, s': Cluster, m: Message)
    requires Inv(s) && Next(s, step, s') && m in s.msgs
    ensures MessageOk(s', m)
  {
    StepEvolves(s, step, s');
    ReignsExtend(s, step, s');
    assert MessageOk(s, m);
    if m.AppendMsg? {
      CoveredStays(s.reigns[m.append.term], s'.reigns[m.append.term], m.append);
    }
  }

  /** What a leader with the log of reign r sends in one step. */
  lemma SentIsCovered(n: Node, step: Step, sent: nat, m: Message, r: Reign)
    requires n.Valid() && n.log.snapIndex == 0 && Ready(n, step) && (step.Send? || step.SendPrefix?)
    requires m in Outgoing(n, step, sent) && r.log == n.log.entries && r.initial <= r.log
    ensures m.AppendMsg? && m.number == sent && m.to in Peers(n.id, n.size) && m.append.term == n.term && m.append.leader == n.id
    ensures Covered(r, m.append) && (!m.part ==> LastCovered(m.append) == |r.log|)
  {
    if step.Send? {
      BuiltIsCovered(n, step.next, r);
    } else {
      PrefixIsCovered(n, step.last, r);
    }
  }

  lemma NewRequestOk(s: Cluster, step: Step, s': Cluster, m: Message)
    requires Inv(s) && Next(s, step, s') && m in Outgoing(s.nodes[step.i], step, s.sent) && (step.Send? || step.SendPrefix?)
    ensures m.AppendMsg? && MessageOk(s', m) && m.number == s.sent && m.append.term in s.reigns
    ensures LastCovered(m.append) <= |s.reigns[m.append.term].log|
    ensures !m.part ==> LastCovered(m.append) == |s.reigns[m.append.term].log|
  {
    var n := s.nodes[step.i];
    assert NodeOk(s, step.i);
    assert ReignOk(s, n.term, s.reigns[n.term]);
    SentIsCovered(n, step, s.sent, m, s.reigns[n.term]);
  }

  lemma NewAnswerOk(s: Cluster, step: Step, s': Cluster, m: Message)
    requires Inv(s) && Next(s, step, s') && m in Outgoing(s.nodes[step.i], step, s.sent) && !step.Send? && !step.SendPrefix?
    ensures !m.AppendMsg? && MessageOk(s', m)
  {
    assert NodeOk(s, step.i);
  }

  lemma NewMessageOk(s: Cluster, step: Step, s': Cluster, m: Message)
    requires Inv(s) && Next(s, step, s') && m in Outgoing(s.nodes[step.i], step, s.sent)
    ensures MessageOk(s', m)
    ensures m.AppendMsg? ==> m.number == s.sent && m.append.term in s.reigns
                             && LastCovered(m.append) <= |s.reigns[m.append.term].log|
                             && (!m.part ==> LastCovered(m.append) == |s.reigns[m.append.term].log|)
  {
    if step.Send? || step.SendPrefix? {
      NewRequestOk(s, step, s', m);
    } else {
      NewAnswerOk(s, step, s', m);
    }
  }

  lemma PrefixIsCovered(n: Node, last: nat, r: Reign)
    requires n.log.snapIndex == 0 && 0 < last <= |n.log.entries| && r.log == n.log.entries
    ensures Covered(r, PrefixRequest(n, last)) && LastCovered(PrefixRequest(n, last)) == last
    ensures Covered(r, PrefixNews(n, last)) && LastCovered(PrefixNews(n, last)) == last
  {
    assert r.log[0..last] == r.log[..last] && r.log[last..last] == [];
  }

  lemma MessagesStay(s: Cluster, step: Step, s': Cluster)
    requires Inv(s) && Next(s, step, s')
    ensures MessagesInv(s')
  {
    var fresh' := Outgoing(s.nodes[step.i], step, s.sent);
    forall m | m in s'.msgs ensures MessageOk(s', m) {
      if m in s.msgs { OldMessageOk(s, step, s', m); } else { NewMessageOk(s, step, s', m); }
    }
    forall x, y | x in s'.msgs && y in s'.msgs && x.AppendMsg? && y.AppendMsg? && !y.part
                  && x.append.term == y.append.term && x.number <= y.number
      ensures LastCovered(x.append) <= LastCovered(y.append)
    {
      if x in s.msgs { assert MessageOk(s, x); } else { NewMessageOk(s, step, s', x); }
      if y in s.msgs { assert MessageOk(s, y); } else { NewMessageOk(s, step, s', y); }
    }
  }

  lemma HandledStays(s: Cluster, s': Cluster, i: nat, term: nat, index: nat)
    requires s.handled <= s'.handled && HandledUpTo(s, i, term, index)
    ensures HandledUpTo(s', i, term, index)
  {
  }

  lemma AcksStay(s: Cluster, step: Step, s': Cluster)
    requires Inv(s) && Next(s, step, s')
    ensures AcksInv(s')
  {
    StepEvolves(s, step, s');
    ReignsExtend(s, step, s');
    forall a | a in s'.acks ensures AckOk(s', a) {
      if a in s.acks {
        assert AckOk(s, a);
        if a.node != s.reigns[a.term].leader {
          HandledStays(s, s', a.node, a.term, a.index);
        }
      } else {
        NewAckOk(s, step, s', a);
      }
    }
  }

  lemma NewAckOk(s: Cluster, step: Step, s': Cluster, a: Ack)
    requires Inv(s) && Next(s, step, s') && a in AcksGiven(s.nodes[step.i], step)
    ensures AckOk(s', a)
  {
    ReignsExtend(s, step, s');
    if step.AnswerAppend? {
      AnsweredAckOk(s, step, s', a);
    } else {
      OwnAckOk(s, step, s', a);
    }
  }

  lemma OwnAckOk(s: Cluster, step: Step, s': Cluster, a: Ack)
    requires Inv(s) && Next(s, step, s') && !step.AnswerAppend? && a in AcksGiven(s.nodes[step.i], step)
    requires Extends(s.reigns, s'.reigns)
    ensures AckOk(s', a)
  {
    assert NodeOk(s, step.i);
    StepMoves(s, step, s');
    var n', reigns' := AfterSubmit(s.nodes[step.i], step, s.reigns, s.acks);
  }

  lemma AnsweredAckOk(s: Cluster, step: Step, s': Cluster, a: Ack)
    requires Inv(s) && Next(s, step, s') && step.AnswerAppend? && a in AcksGiven(s.nodes[step.i], step)
    requires Extends(s.reigns, s'.reigns)
    ensures AckOk(s', a)
  {
    assert MessageOk(s, step.m);
    HandleAppendTerm(s.nodes[step.i], step.m.append);
    assert (step.i, step.m) in s'.handled;
  }

  lemma HandleAppendTerm(n: Node, a: AppendRequest)
    ensures HandleAppend(n, a).1.success ==> HandleAppend(n, a).0.term == a.term && HandleAppend(n, a).0.role == Follower
    ensures HandleAppend(n, a).0.term == if a.term > n.term then a.term else n.term
  {
  }

  // ---- Nodes ----

  lemma HandleAppendLog(n: Node, a: AppendRequest)
    requires n.log.snapIndex == 0
    ensures var (n', reply) := HandleAppend(n, a);
            && (!reply.success ==> n'.log == n.log)
            && (reply.success ==>
                  && a.prevIndex <= |n.log.entries|
                  && (a.prevIndex > 0 ==> n.log.entries[a.prevIndex - 1].term == a.prevTerm)
                  && n'.log.entries == if a.entries == [] then n.log.entries
                                       else n.log.entries[..a.prevIndex] + a.entries)
  {
  }

  /** A batch put after a matching entry continues the leader's log. */
  lemma BatchContinues(log: seq<Entry>, r: Reign, a: AppendRequest, reigns: map<nat, Reign>)
    requires Anchored(log, reigns) && Anchored(r.log, reigns) && Covered(r, a) && a.prevIndex <= |log|
    requires a.prevIndex > 0 ==> log[a.prevIndex - 1].term == a.prevTerm
    ensures log[..a.prevIndex] == r.log[..a.prevIndex]
    ensures log[..a.prevIndex] + a.entries == r.log[..LastCovered(a)]
  {
    if a.prevIndex > 0 {
      SameTermSamePrefix(log, r.log, a.prevIndex - 1, reigns);
    }
    assert r.log[..LastCovered(a)] == r.log[..a.prevIndex] + r.log[a.prevIndex..LastCovered(a)];
  }

  lemma AppendedLog(n: Node, a: AppendRequest, r: Reign, reigns: map<nat, Reign>)
    requires n.log.snapIndex == 0 && Anchored(n.log.entries, reigns) && Anchored(r.log, reigns) && Covered(r, a)
    ensures var log', last := HandleAppend(n, a).0.log.entries, LastCovered(a);
            && (log' == n.log.entries || log' == r.log[..last])
            && (HandleAppend(n, a).1.success ==> last <= |log'| && log'[..last] == r.log[..last])
  {
    HandleAppendLog(n, a);
    if HandleAppend(n, a).1.success {
      BatchContinues(n.log.entries, r, a, reigns);
    }
  }

  /** Handling a request leaves the log as it was or makes it the leader's, up to what the request covers. */
  lemma AppendEffect(s: Cluster, i: nat, m: Message)
    requires Inv(s) && i < |s.nodes| && m in s.msgs && m.AppendMsg? && m.to == i
    ensures m.append.term in s.reigns
    ensures var log' := HandleAppend(s.nodes[i], m.append).0.log.entries;
            var leaderLog, last := s.reigns[m.append.term].log, LastCovered(m.append);
            && last <= |leaderLog|
            && (log' == LogOf(s, i) || log' == leaderLog[..last])
            && (HandleAppend(s.nodes[i], m.append).1.success ==>
                  last <= |log'| && log'[..last] == leaderLog[..last])
  {
    assert MessageOk(s, m) && NodeOk(s, i);
    assert ReignOk(s, m.append.term, s.reigns[m.append.term]);
    AppendedLog(s.nodes[i], m.append, s.reigns[m.append.term], s.reigns);
  }

  lemma LogOkAfterAppend(s: Cluster, i: nat, m: Message)
    requires Inv(s) && i < |s.nodes| && m in s.msgs && m.AppendMsg? && m.to == i
    ensures var n' := HandleAppend(s.nodes[i], m.append).0;
            Anchored(n'.log.entries, s.reigns) && TermsWithin(n'.log.entries, n'.term)
  {
    var a := m.append;
    AppendEffect(s, i, m);
    assert NodeOk(s, i) && ReignOk(s, a.term, s.reigns[a.term]);
    HandleAppendTerm(s.nodes[i], a);
    if HandleAppend(s.nodes[i], a).0.log.entries != LogOf(s, i) {
      HandleAppendLeads(s.nodes[i], a);
      AnchoredPrefix(s.reigns[a.term].log, LastCovered(a), s.reigns);
    }
  }

  lemma NodeOkAfterAppend(s: Cluster, step: Step, s': Cluster)
    requires Inv(s) && Next(s, step, s') && step.AnswerAppend?
    ensures Formed(s'.nodes[step.i], step.i, |s'.nodes|) && NodeOk(s', step.i)
  {
    StepEvolves(s, step, s');
    assert NodeOk(s, step.i);
    LogOkAfterAppend(s, step.i, step.m);
    HandleAppendLeads(s.nodes[step.i], step.m.append);
  }

  /** Only a stale request leaves a leader or a candidate in office. */
  lemma HandleAppendLeads(n: Node, a: AppendRequest)
    ensures HandleAppend(n, a).0.role != Follower ==> a.term < n.term && HandleAppend(n, a).0 == n
    ensures a.term < n.term ==> HandleAppend(n, a).0 == n && !HandleAppend(n, a).1.success
  {
  }

  lemma TracksOkHeard(n: Node, acks: set<Ack>, peer: nat, matched: nat)
    requires n.Valid() && n.role == Leader && TracksOk(n, acks) && peer in Peers(n.id, n.size)
    requires Ack(n.term, peer, matched) in acks && matched <= n.log.LastIndex()
    ensures TracksOk(Heard(n, peer, matched), acks)
  {
  }

  lemma TracksOkAdvanced(n: Node, acks: set<Ack>)
    requires n.Valid() && n.role == Leader && TracksOk(n, acks)
    ensures AdvanceCommit(n).Valid() && AdvanceCommit(n).role == Leader && TracksOk(AdvanceCommit(n), acks)
  {
  }

  lemma TracksOkAfterReply(n: Node, acks: set<Ack>, term: nat, peer: nat, matched: nat, reply: AppendReply)
    requires n.Valid() && n.role == Leader && TracksOk(n, acks) && peer in Peers(n.id, n.size)
    requires reply.success && term == n.term ==> Ack(term, peer, matched) in acks && matched <= n.log.LastIndex()
    ensures var n' := HandleAppendReply(n, term, peer, matched, reply);
            n'.Valid() && (n'.role == Leader ==> TracksOk(n', acks))
  {
    if reply.term <= n.term && n.term == term && reply.success {
      TracksOkHeard(n, acks, peer, matched);
      TracksOkAdvanced(Heard(n, peer, matched), acks);
    }
  }

  lemma ReplyIsConfirmed(s: Cluster, i: nat, m: Message)
    requires Inv(s) && i < |s.nodes| && s.nodes[i].role == Leader && m in s.msgs && m.AppendReplyMsg?
    ensures m.reply.success && m.requestTerm == s.nodes[i].term ==>
              Ack(m.requestTerm, m.from, m.matched) in s.acks && m.matched <= s.nodes[i].log.LastIndex()
  {
    assert MessageOk(s, m) && NodeOk(s, i);
    if m.reply.success && m.requestTerm == s.nodes[i].term {
      assert AckOk(s, Ack(m.requestTerm, m.from, m.matched));
    }
  }

  lemma LeaderOkAfterReply(s: Cluster, step: Step, s': Cluster)
    requires Inv(s) && Next(s, step, s') && step.ReceiveReply?
    ensures Formed(s'.nodes[step.i], step.i, |s'.nodes|) && LeaderOk(s', step.i)
  {
    var i, n, m := step.i, s.nodes[step.i], step.m;
    StepEvolves(s, step, s');
    ReplyKeepsTracking(n, m.requestTerm, m.from, m.matched, m.reply);
    if s'.nodes[i].role == Leader {
      assert NodeOk(s, i);
      ReignsExtend(s, step, s');
      ReplyIsConfirmed(s, i, m);
      HandleReplyEvolves(n, m.requestTerm, m.from, m.matched, m.reply);
      TracksOkAfterReply(n, s.acks, m.requestTerm, m.from, m.matched, m.reply);
    }
  }

  lemma NodeOkAfterReply(s: Cluster, step: Step, s': Cluster)
    requires Inv(s) && Next(s, step, s') && step.ReceiveReply?
    ensures Formed(s'.nodes[step.i], step.i, |s'.nodes|) && NodeOk(s', step.i)
  {
    var n, m := s.nodes[step.i], step.m;
    StepEvolves(s, step, s');
    ReignsExtend(s, step, s');
    LeaderOkAfterReply(s, step, s');
    assert NodeOk(s, step.i);
    HandleReplyEvolves(n, m.requestTerm, m.from, m.matched, m.reply);
    ReplyKeepsTracking(n, m.requestTerm, m.from, m.matched, m.reply);
    AnchoredStays(n.log.entries, s.reigns, s'.reigns);
  }

  /** How a reply changes what a leader tracks. */
  lemma ReplyKeepsTracking(n: Node, term: nat, peer: nat, matched: nat, reply: AppendReply)
    requires n.Valid() && peer in Peers(n.id, n.size)
    ensures var n' := HandleAppendReply(n, term, peer, matched, reply);
            && (n'.role != Follower ==> n.role == n'.role && n'.term == n.term)
            && (n'.role == Leader ==>
                  (forall p :: p in Peers(n.id, n.size) ==>
                     && (n'.matchIndex[p] == n.matchIndex[p]
                         || (p == peer && reply.success && term == n.term && n'.matchIndex[p] == matched))
                     && (n'.nextIndex[p] == n.nextIndex[p] || 1 <= n'.nextIndex[p] < n.nextIndex[p]
                         || (p == peer && reply.success && term == n.term && n'.nextIndex[p] == matched + 1))))
  {
  }

  lemma TracksOkAfterSubmit(n: Node, command: string, acks: set<Ack>, acks': set<Ack>)
    requires n.Valid() && n.role == Leader && TracksOk(n, acks) && acks <= acks' && Propose(n, command).Valid()
    ensures Propose(n, command).role == Leader && TracksOk(Propose(n, command), acks')
  {
    ProposeAppends(n, command);
  }

  /** What a leader that has taken a command in looks like, and what is recorded of its reign. */
  lemma AfterSubmit(n: Node, step: Step, reigns: map<nat, Reign>, acks: set<Ack>) returns (n': Node, reigns': map<nat, Reign>)
    requires n.Valid() && Ready(n, step) && step.Submit? && n.role == Leader && n.log.snapIndex == 0
    requires n.term in reigns && TracksOk(n, acks)
    ensures n' == After(n, step) && n'.Valid() && n'.role == Leader && n'.term == n.term
    ensures reigns' == ReignsAfter(reigns, n, step) && n.term in reigns' && reigns'[n.term].log == n'.log.entries
    ensures reigns'[n.term].leader == reigns[n.term].leader && reigns'[n.term].initial == reigns[n.term].initial
    ensures Ack(n.term, n.id, |n'.log.entries|) in AcksGiven(n, step)
    ensures TracksOk(n', acks + AcksGiven(n, step))
  {
    n', reigns' := After(n, step), ReignsAfter(reigns, n, step);
    ProposeAppends(n, step.command);
    TracksOkAfterSubmit(n, step.command, acks, acks + AcksGiven(n, step));
    ReignAfterSubmit(reigns, n, step);
  }

  lemma ReignAfterSubmit(reigns: map<nat, Reign>, n: Node, step: Step)
    requires n.Valid() && step.Submit? && Ready(n, step) && n.term in reigns
    ensures var reigns' := ReignsAfter(reigns, n, step);
            && n.term in reigns' && reigns'[n.term].log == After(n, step).log.entries
            && reigns'[n.term].leader == reigns[n.term].leader && reigns'[n.term].initial == reigns[n.term].initial
    ensures Ack(n.term, n.id, n.log.LastIndex() + 1) in AcksGiven(n, step)
  {
  }

  lemma NodeOkAfterSubmit(s: Cluster, step: Step, s': Cluster)
    requires Inv(s) && Next(s, step, s') && step.Submit?
    ensures Formed(s'.nodes[step.i], step.i, |s'.nodes|) && NodeOk(s', step.i)
  {
    var term := s.nodes[step.i].term;
    StepEvolves(s, step, s');
    ReignsExtend(s, step, s');
    assert NodeOk(s, step.i);
    StepMoves(s, step, s');
    var n', reigns' := AfterSubmit(s.nodes[step.i], step, s.reigns, s.acks);
    ReignLogStays(s, step, s', term);
  }

  lemma TracksOkAfterPrefixReply(n: Node, acks: set<Ack>, term: nat, peer: nat, index: nat, replyTerm: nat)
    requires n.Valid() && n.role == Leader && TracksOk(n, acks) && peer in Peers(n.id, n.size)
    requires replyTerm <= n.term && term == n.term ==> Ack(term, peer, index) in acks && index <= n.log.LastIndex()
    ensures var n' := HandleSnapshotReply(n, term, peer, index, replyTerm);
            n'.Valid() && (n'.role == Leader ==> n'.term == n.term && TracksOk(n', acks))
  {
  }

  lemma PrefixReplyRole(n: Node, term: nat, peer: nat, index: nat, replyTerm: nat)
    requires n.Valid() && peer in Peers(n.id, n.size)
    ensures var n' := HandleSnapshotReply(n, term, peer, index, replyTerm);
            n'.role != Follower ==> n.role == n'.role && n'.term == n.term
  {
  }

  lemma NodeOkAfterPrefixReply(s: Cluster, step: Step, s': Cluster)
    requires Inv(s) && Next(s, step, s') && step.ReceivePrefixReply?
    ensures Formed(s'.nodes[step.i], step.i, |s'.nodes|) && NodeOk(s', step.i)
  {
    var n, m := s.nodes[step.i], step.m;
    StepEvolves(s, step, s');
    assert NodeOk(s, step.i) && s'.reigns == s.reigns && s'.acks == s.acks;
    HandlePrefixReplyEvolves(n, m.requestTerm, m.from, m.matched, m.reply.term);
    PrefixReplyRole(n, m.requestTerm, m.from, m.matched, m.reply.term);
    if n.role == Leader {
      ReplyIsConfirmed(s, step.i, m);
      TracksOkAfterPrefixReply(n, s.acks, m.requestTerm, m.from, m.matched, m.reply.term);
    }
  }

  lemma NodeOkAfterWin(s: Cluster, step: Step, s': Cluster)
    requires Inv(s) && Next(s, step, s') && step.Win?
    ensures Formed(s'.nodes[step.i], step.i, |s'.nodes|) && NodeOk(s', step.i)
  {
    StepEvolves(s, step, s');
    ReignsExtend(s, step, s');
    assert NodeOk(s, step.i);
    AnchoredStays(LogOf(s, step.i), s.reigns, s'.reigns);
  }

  lemma NodeOkAfterRest(s: Cluster, step: Step, s': Cluster)
    requires Inv(s) && Next(s, step, s') && !step.Submit? && !step.ReceiveReply? && !step.AnswerAppend?
    requires !step.ReceivePrefixReply? && !step.Win?
    ensures Formed(s'.nodes[step.i], step.i, |s'.nodes|) && NodeOk(s', step.i)
  {
    StepEvolves(s, step, s');
    StepMoves(s, step, s');
    RestKeeps(s.nodes[step.i], step);
    assert NodeOk(s, step.i) && s'.reigns == s.reigns;
    if step.Timeout? { assert Vote(s.nodes[step.i].term + 1, step.i, step.i) in VotesCast(s.nodes[step.i], step); }
  }

  /** What the other steps leave alone. */
  lemma RestKeeps(n: Node, step: Step)
    requires n.Valid() && Ready(n, step) && !step.Submit? && !step.ReceiveReply? && !step.AnswerAppend?
    requires !step.ReceivePrefixReply? && !step.Win?
    ensures var n' := After(n, step);
            && n'.log == n.log && n.term <= n'.term
            && (n'.role == Leader ==> n' == n.(votedFor := n'.votedFor))
            && (n'.role == Candidate ==> if step.Timeout? then n'.term == n.term + 1 else n.role == Candidate && n'.term == n.term)
  {
  }

  lemma OtherNodeOk(s: Cluster, step: Step, s': Cluster, i: nat)
    requires Inv(s) && Next(s, step, s') && i < |s.nodes| && i != step.i
    ensures i < |s'.nodes| && Formed(s'.nodes[i], i, |s'.nodes|) && NodeOk(s', i)
  {
    StepEvolves(s, step, s');
    ReignsExtend(s, step, s');
    assert NodeOk(s, i) && NodeOk(s, step.i);
    AnchoredStays(LogOf(s, i), s.reigns, s'.reigns);
  }

  lemma NodesStay(s: Cluster, step: Step, s': Cluster)
    requires Inv(s) && Next(s, step, s')
    ensures NodesInv(s')
  {
    StepEvolves(s, step, s');
    forall i | 0 <= i < |s'.nodes| ensures NodeOk(s', i) {
      if i != step.i { OtherNodeOk(s, step, s', i); }
      else if step.Submit? { NodeOkAfterSubmit(s, step, s'); }
      else if step.ReceiveReply? { NodeOkAfterReply(s, step, s'); }
      else if step.AnswerAppend? { NodeOkAfterAppend(s, step, s'); }
      else if step.ReceivePrefixReply? { NodeOkAfterPrefixReply(s, step, s'); }
      else if step.Win? { NodeOkAfterWin(s, step, s'); }
      else { NodeOkAfterRest(s, step, s'); }
    }
  }

  // ---- Every run ----

  lemma InvStays(s: Cluster, step: Step, s': Cluster)
    requires Inv(s) && Next(s, step, s')
    ensures Inv(s')
  {
    NodesStay(s, step, s');
    VotesStay(s, step, s');
    ReignsStay(s, step, s');
    MessagesStay(s, step, s');
    AcksStay(s, step, s');
  }

  lemma {:induction false} RunInv(trace: seq<Cluster>, steps: seq<Step>, k: nat)
    requires Run(trace, steps) && k < |trace|
    ensures Inv(trace[k]) && |trace[k].nodes| == |trace[0].nodes|
  {
    if k == 0 {
      InitIsWellFormed(trace[0]);
    } else {
      RunInv(trace, steps, k - 1);
      assert NextAt(trace, steps, k - 1);
      StepEvolves(trace[k - 1], steps[k - 1], trace[k]);
      InvStays(trace[k - 1], steps[k - 1], trace[k]);
    }
  }

  lemma ContinuesTransitively(a: map<nat, Reign>, b: map<nat, Reign>, c: map<nat, Reign>)
    requires Extends(a, b) && Extends(b, c)
    ensures Extends(a, c)
  {
  }

  lemma RunStepExtends(trace: seq<Cluster>, steps: seq<Step>, k: nat)
    requires Run(trace, steps) && k < |steps|
    ensures Extends(trace[k].reigns, trace[k + 1].reigns)
  {
    RunInv(trace, steps, k);
    assert NextAt(trace, steps, k);
    ReignsExtend(trace[k], steps[k], trace[k + 1]);
  }

  lemma {:induction false} ChainExtends(trace: seq<Cluster>, j: nat, k: nat)
    requires j <= k < |trace| && forall i :: j <= i < k ==> Extends(trace[i].reigns, trace[i + 1].reigns)
    ensures Extends(trace[j].reigns, trace[k].reigns)
    decreases k - j
  {
    if j == k {
    } else {
      ChainExtends(trace, j, k - 1);
      ContinuesTransitively(trace[j].reigns, trace[k - 1].reigns, trace[k].reigns);
    }
  }

  lemma RunExtends(trace: seq<Cluster>, steps: seq<Step>, j: nat, k: nat)
    requires Run(trace, steps) && j <= k < |trace|
    ensures Extends(trace[j].reigns, trace[k].reigns)
  {
    forall i | j <= i < k ensures Extends(trace[i].reigns, trace[i + 1].reigns) {
      RunStepExtends(trace, steps, i);
    }
    ChainExtends(trace, j, k);
  }

  /** Election safety, section 5.2 of the Raft paper: over a whole run a term has at most one leader,
      and a leader only ever appends to its own log during its term. */
  lemma ElectionSafety(trace: seq<Cluster>, steps: seq<Step>, j: nat, k: nat, a: nat, b: nat)
    requires Run(trace, steps) && j <= k < |trace| && a < |trace[0].nodes| && b < |trace[0].nodes|
    ensures |trace[j].nodes| == |trace[k].nodes| == |trace[0].nodes|
    ensures var n, n' := trace[j].nodes[a], trace[k].nodes[b];
            n.role == Leader && n'.role == Leader && n.term == n'.term ==>
              a == b && n.log.entries <= n'.log.entries
  {
    RunInv(trace, steps, j);
    RunInv(trace, steps, k);
    RunExtends(trace, steps, j, k);
    assert NodeOk(trace[j], a) && NodeOk(trace[k], b);
  }

  /** Log matching, section 5.3 of the Raft paper, between any two nodes at any two times of a run:
      the same term at an index means the same entries up to that index. */
  lemma LogMatching(trace: seq<Cluster>, steps: seq<Step>, j: nat, k: nat, a: nat, b: nat, index: nat)
    requires Run(trace, steps) && j <= k < |trace| && a < |trace[0].nodes| && b < |trace[0].nodes|
    ensures |trace[j].nodes| == |trace[k].nodes| == |trace[0].nodes|
    ensures var log, log' := LogOf(trace[j], a), LogOf(trace[k], b);
            1 <= index <= |log| && index <= |log'| && log[index - 1].term == log'[index - 1].term ==>
              log[..index] == log'[..index]
  {
    RunInv(trace, steps, j);
    RunInv(trace, steps, k);
    RunExtends(trace, steps, j, k);
    assert NodeOk(trace[j], a) && NodeOk(trace[k], b);
    var log, log' := LogOf(trace[j], a), LogOf(trace[k], b);
    AnchoredStays(log, trace[j].reigns, trace[k].reigns);
    if 1 <= index <= |log| && index <= |log'| && log[index - 1].term == log'[index - 1].term {
      SameTermSamePrefix(log, log', index - 1, trace[k].reigns);
    }
  }
}
