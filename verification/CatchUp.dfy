/** How a leader brings one follower up to date: request, answer and reply in turn
    (cluster/raft_node.hpp:128-202, 413-503). */
module CatchUp {
  import opened RaftLogs
  import opened RaftNodes
  import opened RaftCluster
  import opened RaftInvariants
  import opened SnapshotTransfer

  // ---- By AppendEntries ----

  predicate Full(log: Log) {
    log.snapIndex == 0 && log.snapTerm == 0
  }

  /** A leader and a follower of no higher term, with full logs and any next index that may be tracked. */
  ghost predicate Talking(l: Node, f: Node) {
    && l.Valid() && l.role == Leader && f.id in Peers(l.id, l.size) && f.term <= l.term
    && Full(l.log) && Full(f.log)
    && 1 <= l.nextIndex[f.id] <= |l.log.entries| + 1
  }

  /** One request, its answer, and what the leader makes of it; the last component says if it was accepted. */
  function Exchange(l: Node, f: Node): (Node, Node, bool)
    requires l.Valid() && l.role == Leader && f.id in Peers(l.id, l.size) && l.nextIndex[f.id] > 0
  {
    var a := BuildAppend(l, l.nextIndex[f.id]);
    var (f', reply) := HandleAppend(f, a);
    (HandleAppendReply(l, a.term, f.id, LastCovered(a), reply), f', reply.success)
  }

  /** The logs have the same term at the index, or it is the beginning. */
  predicate AgreeAt(a: seq<Entry>, b: seq<Entry>, index: nat) {
    index == 0 || (index <= |a| && index <= |b| && a[index - 1].term == b[index - 1].term)
  }

  /** What a request built from a full log carries. */
  lemma RequestIs(l: Node, next: nat)
    requires Full(l.log) && 1 <= next <= |l.log.entries| + 1
    ensures Carries(l, next, BuildAppend(l, next)) && LastCovered(BuildAppend(l, next)) == |l.log.entries|
  {
    SliceAboveSnapshot(l.log, l.log.entries, next);
  }

  /** What a follower of no higher term answers, and its log afterwards. */
  lemma AnswerIs(f: Node, a: AppendRequest)
    requires Full(f.log) && f.term <= a.term
    ensures Answers(f, a, HandleAppend(f, a).0, HandleAppend(f, a).1)
  {
  }

  /** A refusal in the leader's term lowers the next index of that peer by one, and nothing else. */
  lemma RefusalStepsBack(l: Node, peer: nat, matched: nat, replyTerm: nat)
    requires l.Valid() && l.role == Leader && peer in Peers(l.id, l.size) && replyTerm <= l.term
    ensures var next, l' := l.nextIndex[peer], HandleAppendReply(l, l.term, peer, matched, AppendReply(replyTerm, false));
            && l'.nextIndex == l.nextIndex[peer := if next > 1 then next - 1 else next]
            && l' == l.(nextIndex := l'.nextIndex)
  {
    assert l.nextIndex[peer := l.nextIndex[peer]] == l.nextIndex;
  }

  lemma AcceptanceMovesOn(l: Node, peer: nat, matched: nat, replyTerm: nat)
    requires l.Valid() && l.role == Leader && peer in Peers(l.id, l.size) && replyTerm <= l.term
    ensures var l' := HandleAppendReply(l, l.term, peer, matched, AppendReply(replyTerm, true));
            && Leads(l', l) && l'.nextIndex == l.nextIndex[peer := matched + 1] && l'.matchIndex[peer] >= matched
  {
  }

  /** Still the same leader with the same log. */
  ghost predicate Leads(l': Node, l: Node) {
    && l'.Valid() && l'.role == Leader && l'.log == l.log
    && l'.id == l.id && l'.size == l.size && l'.term == l.term
  }

  /** The follower keeps its log up to where the leader's entries begin and takes those in, if there are any. */
  function Joined(leader: seq<Entry>, follower: seq<Entry>, at: nat): seq<Entry>
    requires at <= |leader| && at <= |follower|
  {
    if at < |leader| then follower[..at] + leader[at..] else follower
  }

  /** A request is refused exactly if the logs do not agree just before its entries. */
  ghost predicate Refused(l: Node, f: Node, l': Node, f': Node)
    requires Talking(l, f)
  {
    && l.nextIndex[f.id] > 1 && l' == l.(nextIndex := l.nextIndex[f.id := l.nextIndex[f.id] - 1])
    && f'.id == f.id && f'.term == l.term && f'.log == f.log && f'.commitIndex == f.commitIndex
  }

  ghost predicate Accepted(l: Node, f: Node, l': Node, f': Node)
    requires Talking(l, f)
  {
    var at := l.nextIndex[f.id] - 1;
    && at <= |f.log.entries| && f'.log == f.log.(entries := Joined(l.log.entries, f.log.entries, at))
    && f'.commitIndex == Learned(f, l.commitIndex, f'.log) && f'.leaderId == l.id
    && Leads(l', l) && l'.nextIndex == l.nextIndex[f.id := |l.log.entries| + 1] && l'.matchIndex[f.id] >= |l.log.entries|
  }

  /** A request as `RequestIs` has it. */
  ghost predicate Carries(l: Node, next: nat, a: AppendRequest) {
    && 1 <= next <= |l.log.entries| + 1 && a.term == l.term && a.leader == l.id && a.prevIndex == next - 1
    && a.entries == l.log.entries[next - 1..] && a.prevTerm == l.log.TermAt(next - 1) && a.leaderCommit == l.commitIndex
  }

  /** An answer as `AnswerIs` has it. */
  ghost predicate Answers(f: Node, a: AppendRequest, f': Node, reply: AppendReply) {
    var log, prev := f.log.entries, a.prevIndex;
    && f'.id == f.id && f'.term == a.term == reply.term && f'.role == Follower && f'.leaderId == a.leader
    && (reply.success <==> prev == 0 || (prev <= |log| && log[prev - 1].term == a.prevTerm))
    && f'.log == (if reply.success && a.entries != [] then f.log.(entries := log[..prev] + a.entries) else f.log)
    && f'.commitIndex == if reply.success then Learned(f, a.leaderCommit, f'.log) else f.commitIndex
  }

  /** The commit index of a follower that hears the leader's and then has that log. */
  function Learned(f: Node, leaderCommit: nat, log: Log): nat {
    if leaderCommit > f.commitIndex then Min(leaderCommit, log.LastIndex()) else f.commitIndex
  }

  /** What a reply in its term does to a leader, as `ReplyIs` has it. */
  ghost predicate Hears(l: Node, peer: nat, matched: nat, reply: AppendReply, l': Node)
    requires l.Valid() && l.role == Leader && peer in Peers(l.id, l.size)
  {
    var next := l.nextIndex[peer];
    if reply.success then Leads(l', l) && l'.nextIndex == l.nextIndex[peer := matched + 1] && l'.matchIndex[peer] >= matched
    else l' == l.(nextIndex := l.nextIndex[peer := if next > 1 then next - 1 else next])
  }

  lemma ExchangeEnds(l: Node, f: Node, a: AppendRequest, l': Node, f': Node, reply: AppendReply)
    requires Talking(l, f) && Carries(l, l.nextIndex[f.id], a) && Answers(f, a, f', reply)
    requires Hears(l, f.id, |l.log.entries|, reply, l')
    ensures reply.success <==> AgreeAt(l.log.entries, f.log.entries, l.nextIndex[f.id] - 1)
    ensures if reply.success then Accepted(l, f, l', f') else Refused(l, f, l', f')
  {
  }

  lemma ExchangeIs(l: Node, f: Node)
    requires Talking(l, f)
    ensures var e := Exchange(l, f);
            && (e.2 <==> AgreeAt(l.log.entries, f.log.entries, l.nextIndex[f.id] - 1))
            && if e.2 then Accepted(l, f, e.0, e.1) else Refused(l, f, e.0, e.1)
  {
    var next := l.nextIndex[f.id];
    var a := BuildAppend(l, next);
    RequestIs(l, next);
    AnswerIs(f, a);
    var f', reply := HandleAppend(f, a).0, HandleAppend(f, a).1;
    ReplyIs(l, f.id, |l.log.entries|, reply);
    ExchangeEnds(l, f, a, HandleAppendReply(l, l.term, f.id, |l.log.entries|, reply), f', reply);
  }

  lemma ReplyIs(l: Node, peer: nat, matched: nat, reply: AppendReply)
    requires l.Valid() && l.role == Leader && peer in Peers(l.id, l.size) && reply.term == l.term
    ensures Hears(l, peer, matched, reply, HandleAppendReply(l, l.term, peer, matched, reply))
  {
    if reply.success {
      AcceptanceMovesOn(l, peer, matched, reply.term);
    } else {
      RefusalStepsBack(l, peer, matched, reply.term);
    }
  }

  /** Some exchanges have ended where the two logs last agree before the next index. */
  ghost predicate CaughtUp(l: Node, f: Node, l': Node, f': Node, rounds: nat)
    requires Talking(l, f)
  {
    var next, at := l.nextIndex[f.id], l.nextIndex[f.id] - rounds;
    && 1 <= rounds <= next && Leads(l', l)
    && AgreeAt(l.log.entries, f.log.entries, at)
    && (forall i: nat :: at < i < next ==> !AgreeAt(l.log.entries, f.log.entries, i))
    && at <= |f.log.entries| && f'.log == f.log.(entries := Joined(l.log.entries, f.log.entries, at))
    && f'.commitIndex == Learned(f, l.commitIndex, f'.log) && f'.leaderId == l.id
    && l'.nextIndex == l.nextIndex[f.id := |l.log.entries| + 1] && l'.matchIndex[f.id] >= |l.log.entries|
  }

  lemma FirstExchange(l: Node, f: Node, l': Node, f': Node)
    requires Talking(l, f) && Accepted(l, f, l', f') && AgreeAt(l.log.entries, f.log.entries, l.nextIndex[f.id] - 1)
    ensures CaughtUp(l, f, l', f', 1)
  {
  }

  lemma OneMoreExchange(l: Node, f: Node, l1: Node, f1: Node, l': Node, f': Node, rounds: nat)
    requires Talking(l, f) && Refused(l, f, l1, f1) && !AgreeAt(l.log.entries, f.log.entries, l.nextIndex[f.id] - 1)
    requires Talking(l1, f1) && CaughtUp(l1, f1, l', f', rounds)
    ensures CaughtUp(l, f, l', f', rounds + 1)
  {
    var last := |l.log.entries|;
    assert l1.nextIndex[f.id := last + 1] == l.nextIndex[f.id := last + 1];
  }

  lemma RefusedStillTalk(l: Node, f: Node, l': Node, f': Node)
    requires Talking(l, f) && Refused(l, f, l', f')
    ensures Talking(l', f') && l'.nextIndex[f'.id] == l.nextIndex[f.id] - 1
  {
  }

  lemma ExchangeGoesOn(l: Node, f: Node)
    requires Talking(l, f)
    ensures var e := Exchange(l, f);
            !e.2 ==> Talking(e.0, e.1) && e.0.nextIndex[e.1.id] < l.nextIndex[f.id]
  {
    ExchangeIs(l, f);
    var e := Exchange(l, f);
    if !e.2 { RefusedStillTalk(l, f, e.0, e.1); }
  }

  /** Exchanges until one is accepted, and how many there are. */
  ghost function UntilAccepted(l: Node, f: Node): (Node, Node, nat)
    requires Talking(l, f)
    decreases l.nextIndex[f.id]
  {
    var e := Exchange(l, f);
    ExchangeGoesOn(l, f);
    if e.2 then (e.0, e.1, 1)
    else
      var r := UntilAccepted(e.0, e.1);
      (r.0, r.1, r.2 + 1)
  }

  /** The exchanges end where the two logs last agree before the next index. */
  lemma {:induction false} EndsAtLastAgreement(l: Node, f: Node)
    requires Talking(l, f)
    ensures var r := UntilAccepted(l, f); CaughtUp(l, f, r.0, r.1, r.2)
    decreases l.nextIndex[f.id]
  {
    var e := Exchange(l, f);
    ExchangeIs(l, f);
    if e.2 {
      FirstExchange(l, f, e.0, e.1);
    } else {
      RefusedStillTalk(l, f, e.0, e.1);
      EndsAtLastAgreement(e.0, e.1);
      var r := UntilAccepted(e.0, e.1);
      OneMoreExchange(l, f, e.0, e.1, r.0, r.1, r.2);
    }
  }

  lemma JoinedIsLeaders(leader: seq<Entry>, follower: seq<Entry>, at: nat)
    requires Matching(leader, follower) && AgreeAt(leader, follower, at) && at <= |leader| && at <= |follower|
    ensures leader <= Joined(leader, follower, at)
    ensures Joined(leader, follower, at) == leader <==> at < |leader| || |follower| == |leader|
  {
    if at > 0 {
      assert leader[..at] == follower[..at];
    }
    assert leader[..at] + leader[at..] == leader;
    if at == |leader| && |follower| == |leader| { assert follower[..at] == follower; }
  }

  /** From any next index, after at most that many exchanges a request is accepted, and the follower's log
      then begins with the leader's, and it knows what the leader has committed. The log is the leader's unless
      the first request carries no entry, is accepted and finds a longer log, which such a request does not cut. */
  lemma FollowerCatchesUp(l: Node, f: Node)
    requires Talking(l, f) && Matching(l.log.entries, f.log.entries)
    ensures var (l', f', rounds), last := UntilAccepted(l, f), |l.log.entries|;
            && 1 <= rounds <= l.nextIndex[f.id]
            && Leads(l', l) && l'.nextIndex[f.id] == last + 1 && l'.matchIndex[f.id] >= last
            && l.log.entries <= f'.log.entries
            && (f.commitIndex <= l.commitIndex <= last ==> f'.commitIndex == l.commitIndex)
            && (f'.log.entries == l.log.entries <==>
                l.nextIndex[f.id] <= last || |f.log.entries| <= last || !AgreeAt(l.log.entries, f.log.entries, last))
  {
    EndsAtLastAgreement(l, f);
    var (l', f', rounds) := UntilAccepted(l, f);
    LogCaughtUp(l, f, l', f', rounds);
  }

  lemma LogCaughtUp(l: Node, f: Node, l': Node, f': Node, rounds: nat)
    requires Talking(l, f) && Matching(l.log.entries, f.log.entries) && CaughtUp(l, f, l', f', rounds)
    ensures l.log.entries <= f'.log.entries
    ensures f.commitIndex <= l.commitIndex <= |l.log.entries| ==> f'.commitIndex == l.commitIndex
    ensures f'.log.entries == l.log.entries <==>
            || l.nextIndex[f.id] <= |l.log.entries| || |f.log.entries| <= |l.log.entries|
            || !AgreeAt(l.log.entries, f.log.entries, |l.log.entries|)
  {
    JoinedIsLeaders(l.log.entries, f.log.entries, l.nextIndex[f.id] - rounds);
  }

  /** With a follower of a higher term no exchange is accepted: the first one ends the reign, by a request as by a
      snapshot. */
  lemma HigherTermEndsReign(l: Node, f: Node)
    requires l.Valid() && l.role == Leader && f.id in Peers(l.id, l.size) && f.term > l.term && l.nextIndex[f.id] > 0
    ensures var e := Exchange(l, f);
            && !e.2 && e.1 == f
            && e.0 == l.(term := f.term, votedFor := -1, role := Follower)
    ensures forall req: SnapshotRequest :: req.term == l.term ==>
              && HandleSnapshot(f, req) == f
              && HandleSnapshotReply(l, l.term, f.id, req.lastIndex, f.term) == l.(term := f.term, votedFor := -1, role := Follower)
  {
  }

  /** The nodes of every run are such, so whoever leads can bring everyone of no higher term up to date. */
  lemma EveryoneCatchesUp(trace: seq<Cluster>, steps: seq<Step>, k: nat, i: nat, j: nat)
    requires Run(trace, steps) && k < |trace| && i < |trace[k].nodes| && j < |trace[k].nodes| && i != j
    requires trace[k].nodes[i].role == Leader && trace[k].nodes[j].term <= trace[k].nodes[i].term
    ensures Talking(trace[k].nodes[i], trace[k].nodes[j])
    ensures trace[k].nodes[i].log.entries <= UntilAccepted(trace[k].nodes[i], trace[k].nodes[j]).1.log.entries
  {
    RunInv(trace, steps, k);
    LeaderTalks(trace[k], i, j);
    LogsMatch(trace, steps, k, i, j);
    FollowerCatchesUp(trace[k].nodes[i], trace[k].nodes[j]);
  }

  lemma LeaderTalks(s: Cluster, i: nat, j: nat)
    requires Inv(s) && i < |s.nodes| && j < |s.nodes| && i != j && s.nodes[i].role == Leader && s.nodes[j].term <= s.nodes[i].term
    ensures Talking(s.nodes[i], s.nodes[j])
  {
    assert NodeOk(s, i) && NodeOk(s, j);
  }

  lemma LogsMatch(trace: seq<Cluster>, steps: seq<Step>, k: nat, i: nat, j: nat)
    requires Run(trace, steps) && k < |trace| && i < |trace[k].nodes| && j < |trace[k].nodes|
    requires |trace[k].nodes| == |trace[0].nodes|
    ensures Matching(trace[k].nodes[i].log.entries, trace[k].nodes[j].log.entries)
  {
    var a, b := trace[k].nodes[i].log.entries, trace[k].nodes[j].log.entries;
    forall x | 0 <= x < |a| && x < |b| && a[x].term == b[x].term ensures a[..x + 1] == b[..x + 1] {
      LogMatching(trace, steps, k, k, i, j, x + 1);
    }
  }

  /** A new leader tracks no match and begins with the end of its log, so it finds every follower's last
      agreement, in at most as many exchanges as it has entries and one more. */
  lemma WinnerBegins(n: Node, votes: nat, f: Node)
    requires n.Valid() && n.role == Candidate && votes >= n.size / 2 + 1 && f.id in Peers(n.id, n.size) && f.term <= n.term
    requires Full(n.log) && Full(f.log)
    ensures var l := FinishElection(n, n.term, votes);
            && l == n.(role := Leader, leaderId := n.id, nextIndex := l.nextIndex, matchIndex := l.matchIndex)
            && (forall p :: p in Peers(n.id, n.size) ==>
                  p in l.nextIndex && l.nextIndex[p] == |n.log.entries| + 1 && p in l.matchIndex && l.matchIndex[p] == 0)
            && Talking(l, f)
  {
  }

  // ---- By a snapshot ----

  /** A leader that sends a snapshot goes on with requests exactly if it did not know the peer at the
      snapshot yet. A late refusal can bring the next index below a match index that is beyond the snapshot;
      the peer then gets the snapshot again and again. */
  lemma SnapshotUnblocks(l: Node, f: Node)
    requires l.Valid() && l.role == Leader && f.id in Peers(l.id, l.size) && f.term <= l.term
    requires 1 <= l.nextIndex[f.id] <= l.log.snapIndex
    ensures var choice := Choose(l, l.term, l.nextIndex[f.id]);
            && choice.SendSnapshot? && HandleSnapshot(f, choice.req).term == l.term
            && var l' := HandleSnapshotReply(l, l.term, f.id, choice.req.lastIndex, l.term);
               && l'.role == Leader && l'.term == l.term && l'.log == l.log && l'.Valid()
               && (l.matchIndex[f.id] < l.log.snapIndex ==> l'.nextIndex == l.nextIndex[f.id := l.log.snapIndex + 1])
               && (l.matchIndex[f.id] >= l.log.snapIndex ==> l' == l)
               && (Choose(l', l.term, l'.nextIndex[f.id]) == GoOn <==> l.matchIndex[f.id] < l.log.snapIndex)
  {
  }

  /** Snapshot and request in turn bring a follower behind the snapshot up to date: the request is accepted,
      and the follower then has the leader's log and snapshot, unless the request carried no entry and the
      follower kept entries of its own behind the snapshot. */
  lemma SnapshotThenRequest(l: Node, f: Node)
    requires l.Valid() && l.role == Leader && f.id in Peers(l.id, l.size) && f.term <= l.term
    requires 1 <= l.nextIndex[f.id] <= l.log.snapIndex && l.matchIndex[f.id] < l.log.snapIndex
    requires f.log.snapIndex < l.log.snapIndex
    ensures var f' := HandleSnapshot(f, Choose(l, l.term, l.nextIndex[f.id]).req);
            var l' := HandleSnapshotReply(l, l.term, f.id, l.log.snapIndex, f'.term);
            && l'.Valid() && l'.role == Leader && l'.nextIndex[f.id] > 0
            && Exchange(l', f').2
            && (Exchange(l', f').1.log == l.log <==> l.log.entries != [] || f.log.LastIndex() <= l.log.snapIndex)
  {
    SnapshotUnblocks(l, f);
    var f' := HandleSnapshot(f, Choose(l, l.term, l.nextIndex[f.id]).req);
    var l' := HandleSnapshotReply(l, l.term, f.id, l.log.snapIndex, f'.term);
    SliceIsEntries(l'.log);
    TakenIn(f', BuildAppend(l', l'.nextIndex[f.id]), l.log);
  }

  lemma SliceIsEntries(log: Log)
    ensures LogSlice(log, log.snapIndex + 1) == log.entries
  {
    var slice := LogSlice(log, log.snapIndex + 1);
    forall k: nat | k < |slice| ensures slice[k] == log.entries[k] { SliceAt(log, log.snapIndex + 1, k); }
  }

  lemma TakenIn(f: Node, a: AppendRequest, log: Log)
    requires a.term == f.term && a.prevIndex == f.log.snapIndex == log.snapIndex && a.entries == log.entries
    requires f.log == log.(entries := f.log.entries)
    ensures HandleAppend(f, a).1.success
    ensures HandleAppend(f, a).0.log == log <==> log.entries != [] || f.log.entries == []
  {
  }
}
