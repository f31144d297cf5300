/** Why in-order requests are needed: handle_append_entries truncates whenever a request carries
    entries (cluster/raft_node.hpp:155-157), not only where an entry conflicts as in section 5.3 of
    the Raft paper. A late shorter request then removes entries the follower has confirmed. */
module ReorderingRun {
  import opened RaftLogs
  import opened CommitRule
  import opened FiniteSets
  import opened RaftNodes
  import opened RaftCluster
  import opened RaftInvariants

  /** Exactly when an accepted request leaves k confirmed entries in place: `leaderLog` is the log of
      the leader that sent it, whose first k entries the node holds. */
  lemma RequestKeepsConfirmed(n: Node, a: AppendRequest, leaderLog: seq<Entry>, k: nat)
    requires n.log.snapIndex == 0 && HandleAppend(n, a).1.success
    requires LastCovered(a) <= |leaderLog| && a.entries == leaderLog[a.prevIndex..LastCovered(a)]
    requires k <= |leaderLog| && leaderLog[..k] <= n.log.entries
    requires leaderLog[..a.prevIndex] <= n.log.entries
    ensures leaderLog[..k] <= HandleAppend(n, a).0.log.entries <==> a.entries == [] || k <= LastCovered(a)
  {
    HandleAppendLog(n, a);
    var log' := HandleAppend(n, a).0.log.entries;
    if a.entries == [] {
      assert log' == n.log.entries;
    } else {
      Spliced(n.log.entries, leaderLog, a.prevIndex, LastCovered(a));
      assert log' == leaderLog[..LastCovered(a)];
      KeptExactly(leaderLog, k, LastCovered(a));
    }
  }

  lemma KeptExactly(log: seq<Entry>, k: nat, last: nat)
    requires k <= |log| && last <= |log|
    ensures log[..k] <= log[..last] <==> k <= last
  {
  }

  lemma Spliced(log: seq<Entry>, leaderLog: seq<Entry>, keep: nat, last: nat)
    requires keep <= last <= |leaderLog| && leaderLog[..keep] <= log
    ensures log[..keep] + leaderLog[keep..last] == leaderLog[..last]
  {
    assert log[..keep] == leaderLog[..keep];
  }

  // ---- A run of three nodes ----

  lemma ExtendRun(trace: seq<Cluster>, steps: seq<Step>, step: Step, s': Cluster)
    requires RaftCluster.Run(trace, steps) && Next(trace[|steps|], step, s')
    ensures RaftCluster.Run(trace + [s'], steps + [step])
  {
    LastStep(trace, steps, step, s');
    OneStepLonger(trace, steps, trace + [s'], steps + [step]);
  }

  lemma LastStep(trace: seq<Cluster>, steps: seq<Step>, step: Step, s': Cluster)
    requires |trace| == |steps| + 1 && Next(trace[|steps|], step, s')
    ensures NextAt(trace + [s'], steps + [step], |steps|)
  {
  }

  lemma OneStepLonger(trace: seq<Cluster>, steps: seq<Step>, trace': seq<Cluster>, steps': seq<Step>)
    requires RaftCluster.Run(trace, steps) && trace <= trace' && steps <= steps' && |trace'| == |steps'| + 1 == |trace| + 1
    requires NextAt(trace', steps', |steps|)
    ensures RaftCluster.Run(trace', steps')
  {
    forall k: nat | k < |steps'| ensures NextAt(trace', steps', k) {
      if k < |steps| { NextAlike(trace, steps, trace', steps', k); }
    }
  }

  lemma NextAlike(trace: seq<Cluster>, steps: seq<Step>, trace': seq<Cluster>, steps': seq<Step>, k: nat)
    requires NextAt(trace, steps, k) && trace <= trace' && steps <= steps'
    ensures NextAt(trace', steps', k)
  {
  }

  lemma PeersOfThree(id: nat)
    requires id < 3
    ensures Peers(id, 3) == {0, 1, 2} - {id}
  {
  }

  lemma ValuesOfTwoPeers(matched: map<nat, nat>, p: nat, q: nat)
    requires p < q < 3 && matched.Keys == {p, q}
    ensures MatchValues(matched, 3) == [matched[p], matched[q]]
  {
    assert MatchValues(matched, 1) == if p == 0 then [matched[0]] else [];
    assert MatchValues(matched, 2) == MatchValues(matched, 1) + if p == 1 || q == 1 then [matched[1]] else [];
  }

  lemma MiddleOfThree(x: nat, y: nat, z: nat)
    requires x >= y && x >= z
    ensures SortDescending([x, y, z])[1] == if y >= z then y else z
  {
    assert SortDescending([z]) == [z];
    assert [y, z][1..] == [z] && [x, y, z][1..] == [y, z];
    assert InsertDescending(y, [z]) == if y >= z then [y, z] else [z, y];
    assert SortDescending([y, z]) == if y >= z then [y, z] else [z, y];
  }

  /** A leader of three commits as far as its better informed peer has confirmed. */
  lemma LeaderOfThree(n: Node, p: nat, q: nat)
    requires n.Valid() && n.role == Leader && n.size == 3 && p < q < 3 && n.matchIndex.Keys == {p, q}
    requires n.matchIndex[p] <= n.log.LastIndex() && n.matchIndex[q] <= n.log.LastIndex()
    ensures var c := if n.matchIndex[p] >= n.matchIndex[q] then n.matchIndex[p] else n.matchIndex[q];
            AdvanceCommit(n) == if c > n.commitIndex && n.log.TermAt(c) == n.term
                                then ApplyCommitted(n.(commitIndex := c)) else n
  {
    DecisionOfThree(n, p, q);
  }

  lemma DecisionOfThree(n: Node, p: nat, q: nat)
    requires n.Valid() && n.role == Leader && n.size == 3 && p < q < 3 && n.matchIndex.Keys == {p, q}
    requires n.matchIndex[p] <= n.log.LastIndex() && n.matchIndex[q] <= n.log.LastIndex()
    ensures var c := if n.matchIndex[p] >= n.matchIndex[q] then n.matchIndex[p] else n.matchIndex[q];
            Decision(n) == if c > n.commitIndex && n.log.TermAt(c) == n.term then c else n.commitIndex
  {
    ValuesOfTwoPeers(n.matchIndex, p, q);
    assert ValuesOf(n) == [n.log.LastIndex(), n.matchIndex[p], n.matchIndex[q]];
    ChoiceOfThree(n.log.LastIndex(), n.matchIndex[p], n.matchIndex[q], n.commitIndex, n.term, TermsOf(n.log));
  }

  lemma ChoiceOfThree(x: nat, y: nat, z: nat, commitIndex: nat, term: nat, termAt: nat -> nat)
    requires x >= y && x >= z
    ensures var c := if y >= z then y else z;
            NewCommitIndex([x, y, z], 3, commitIndex, term, termAt) ==
            if c > commitIndex && termAt(c) == term then c else commitIndex
  {
    MiddleOfThree(x, y, z);
  }

  /** Commands x and y applied. */
  lemma BothApplied(n: Node, x: string, y: string)
    requires n.log.snapIndex == 0 && |n.log.entries| == 2 && n.log.entries[0].command == x != ""
    requires n.log.entries[1].command == y != "" && n.lastApplied == 0 && n.applied == []
    ensures ApplyCommitted(n.(commitIndex := 2)) == n.(commitIndex := 2, lastApplied := 2, applied := [x, y])
  {
  }

  /** A follower or candidate that has applied nothing. */
  ghost predicate Idle(n: Node, id: nat, term: nat, entries: seq<Entry>) {
    && Formed(n, id, 3) && n.role != Leader && n.term == term && n.log.entries == entries
    && n.commitIndex == 0 && n.lastApplied == 0 && n.applied == []
  }

  /** A leader that nobody has confirmed anything to. */
  ghost predicate Fresh(n: Node, id: nat, term: nat, entries: seq<Entry>) {
    && Formed(n, id, 3) && n.role == Leader && n.term == term && n.log.entries == entries
    && n.commitIndex == 0 && n.lastApplied == 0 && n.applied == []
    && forall p :: p in n.matchIndex ==> n.matchIndex[p] == 0
  }

  /** A run with those nodes and messages at its end. */
  ghost predicate Reaches(trace: seq<Cluster>, steps: seq<Step>, nodes: seq<Node>, msgs: set<Message>, sent: nat) {
    && RaftCluster.Run(trace, steps) && |nodes| == 3 && trace[|steps|].nodes == nodes
    && msgs <= trace[|steps|].msgs && trace[|steps|].sent == sent
  }

  lemma EndIsWellFormed(trace: seq<Cluster>, steps: seq<Step>)
    requires RaftCluster.Run(trace, steps)
    ensures WellFormed(trace[|steps|])
  {
    RunInv(trace, steps, |steps|);
  }

  lemma OneStep(s: Cluster, nodes: seq<Node>, msgs: set<Message>, sent: nat, step: Step) returns (s': Cluster)
    requires WellFormed(s) && |nodes| == 3 && s.nodes == nodes && msgs <= s.msgs && s.sent == sent && step.i < 3
    requires Ready(nodes[step.i], step) && Delivered(Cluster(nodes, msgs, sent, {}, {}, {}, map[]), step)
    ensures Next(s, step, s') && s'.nodes == nodes[step.i := After(nodes[step.i], step)]
    ensures msgs + Outgoing(nodes[step.i], step, sent) <= s'.msgs && s'.sent == if step.Send? || step.SendPrefix? then sent + 1 else sent
  {
    assert Delivered(s, step);
    s' := Do(s, step);
  }

  /** Continue such a run by one step. */
  lemma Go(trace: seq<Cluster>, steps: seq<Step>, nodes: seq<Node>, msgs: set<Message>, sent: nat, step: Step)
    returns (trace': seq<Cluster>, steps': seq<Step>, n': Node)
    requires Reaches(trace, steps, nodes, msgs, sent) && step.i < 3
    requires nodes[step.i].Valid() && Ready(nodes[step.i], step) && Delivered(Cluster(nodes, msgs, sent, {}, {}, {}, map[]), step)
    ensures n' == After(nodes[step.i], step)
    ensures Reaches(trace', steps', nodes[step.i := n'], msgs + Outgoing(nodes[step.i], step, sent),
                    if step.Send? || step.SendPrefix? then sent + 1 else sent)
  {
    EndIsWellFormed(trace, steps);
    var s' := OneStep(trace[|steps|], nodes, msgs, sent, step);
    ExtendRun(trace, steps, step, s');
    trace', steps', n' := trace + [s'], steps + [step], After(nodes[step.i], step);
  }

  function AskOf(c: nat, term: nat, entries: seq<Entry>): Message {
    VoteReqMsg(VoteRequest(term, c, |entries|, Uncompacted(entries).LastTerm()))
  }

  /** Node c stands in the next term. */
  lemma Stand(trace: seq<Cluster>, steps: seq<Step>, nodes: seq<Node>, msgs: set<Message>, sent: nat,
              c: nat, term: nat, entries: seq<Entry>)
    returns (trace': seq<Cluster>, steps': seq<Step>, n': Node)
    requires Reaches(trace, steps, nodes, msgs, sent) && c < 3 && Idle(nodes[c], c, term, entries)
    ensures Idle(n', c, term + 1, entries) && n'.role == Candidate
    ensures Reaches(trace', steps', nodes[c := n'], msgs + {AskOf(c, term + 1, entries)}, sent)
  {
    trace', steps', n' := Go(trace, steps, nodes, msgs, sent, Timeout(c));
  }

  /** Node v, behind in term and log, grants its vote. */
  lemma Grant(trace: seq<Cluster>, steps: seq<Step>, nodes: seq<Node>, msgs: set<Message>, sent: nat,
              v: nat, old': nat, c: nat, term: nat, entries: seq<Entry>)
    returns (trace': seq<Cluster>, steps': seq<Step>, n': Node)
    requires Reaches(trace, steps, nodes, msgs, sent) && v < 3 && c != v && Idle(nodes[v], v, old', []) && old' < term
    requires AskOf(c, term, entries) in msgs
    ensures Idle(n', v, term, []) && n'.role == Follower
    ensures Reaches(trace', steps', nodes[v := n'], msgs + {VoteReplyMsg(v, c, term, VoteReply(term, true))}, sent)
  {
    trace', steps', n' := Go(trace, steps, nodes, msgs, sent, AnswerVote(v, AskOf(c, term, entries)));
  }

  /** With that vote node c wins. */
  lemma WinWith(trace: seq<Cluster>, steps: seq<Step>, nodes: seq<Node>, msgs: set<Message>, sent: nat,
                c: nat, term: nat, entries: seq<Entry>, v: nat)
    returns (trace': seq<Cluster>, steps': seq<Step>, n': Node)
    requires Reaches(trace, steps, nodes, msgs, sent) && c < 3 && v < 3 && c != v
    requires Idle(nodes[c], c, term, entries) && nodes[c].role == Candidate
    requires VoteReplyMsg(v, c, term, VoteReply(term, true)) in msgs
    ensures Fresh(n', c, term, entries) && Reaches(trace', steps', nodes[c := n'], msgs, sent)
  {
    trace', steps', n' := Go(trace, steps, nodes, msgs, sent, Win(c, {v}));
  }

  function LogOffer(i: nat, term: nat, log: seq<Entry>, to: nat, number: nat): Message {
    AppendMsg(to, AppendRequest(term, i, 0, 0, log, 0), number, false)
  }

  /** A leader of three that nobody has confirmed anything to appends a command. */
  lemma AppendOne(trace: seq<Cluster>, steps: seq<Step>, nodes: seq<Node>, msgs: set<Message>, sent: nat,
                  i: nat, term: nat, entries: seq<Entry>, command: string)
    returns (trace': seq<Cluster>, steps': seq<Step>, n': Node)
    requires Reaches(trace, steps, nodes, msgs, sent) && i < 3 && Fresh(nodes[i], i, term, entries)
    ensures Fresh(n', i, term, entries + [Entry(term, command)])
    ensures Reaches(trace', steps', nodes[i := n'], msgs, sent)
  {
    trace', steps', n' := Go(trace, steps, nodes, msgs, sent, Submit(i, command));
    var n := nodes[i].(log := nodes[i].log.Append(term, command));
    var p, q := OtherTwo(i);
    LeaderOfThree(n, p, q);
  }

  lemma OtherTwo(i: nat) returns (p: nat, q: nat)
    requires i < 3
    ensures p < q < 3 && Peers(i, 3) == {p, q}
  {
    PeersOfThree(i);
    p, q := if i == 0 then 1 else 0, if i == 2 then 1 else 2;
  }

  /** It sends its whole log. */
  lemma SendAll(trace: seq<Cluster>, steps: seq<Step>, nodes: seq<Node>, msgs: set<Message>, sent: nat,
                i: nat, term: nat, entries: seq<Entry>, to: nat)
    returns (trace': seq<Cluster>, steps': seq<Step>)
    requires Reaches(trace, steps, nodes, msgs, sent) && i < 3 && to < 3 && to != i && Fresh(nodes[i], i, term, entries)
    ensures Reaches(trace', steps', nodes, msgs + {LogOffer(i, term, entries, to, sent)}, sent + 1)
  {
    var n: Node;
    trace', steps', n := Go(trace, steps, nodes, msgs, sent, Send(i, to, 1));
    assert nodes[i := n] == nodes;
    BuiltIsCovered(nodes[i], 1, Reign(i, {}, [], entries, 0));
    assert BuildAppend(nodes[i], 1).entries == entries[0..|entries|] == entries;
  }

  /** A follower takes over a whole log and confirms it. */
  lemma AcceptAll(trace: seq<Cluster>, steps: seq<Step>, nodes: seq<Node>, msgs: set<Message>, sent: nat,
                  f: nat, old': seq<Entry>, i: nat, term: nat, log: seq<Entry>, number: nat)
    returns (trace': seq<Cluster>, steps': seq<Step>, n': Node)
    requires Reaches(trace, steps, nodes, msgs, sent) && f < 3 && Idle(nodes[f], f, term, old') && log != []
    requires LogOffer(i, term, log, f, number) in msgs
    ensures Idle(n', f, term, log)
    ensures Reaches(trace', steps', nodes[f := n'],
                    msgs + {AppendReplyMsg(f, i, term, |log|, AppendReply(term, true))}, sent)
  {
    var m := LogOffer(i, term, log, f, number);
    HandleAppendLog(nodes[f], m.append);
    HandleAppendForms(nodes[f], f, 3, m.append);
    assert old'[..0] + log == log;
    trace', steps', n' := Go(trace, steps, nodes, msgs, sent, AnswerAppend(f, m));
  }

  lemma SuccessfulReply(n: Node, peer: nat, matched: nat) returns (told: Node)
    requires n.Valid() && n.role == Leader && peer in Peers(n.id, n.size) && n.matchIndex[peer] < matched
    ensures told == n.(matchIndex := n.matchIndex[peer := matched], nextIndex := n.nextIndex[peer := matched + 1])
    ensures told.Valid()
    ensures HandleAppendReply(n, n.term, peer, matched, AppendReply(n.term, true)) == AdvanceCommit(told)
  {
    told := n.(matchIndex := n.matchIndex[peer := matched], nextIndex := n.nextIndex[peer := matched + 1]);
  }

  /** A leader of three that knows a peer at index 2 commits two entries. */
  lemma TwoCommitted(told: Node, p: nat, q: nat, x: string, y: string)
    requires told.Valid() && told.role == Leader && told.size == 3 && p < q < 3 && told.matchIndex.Keys == {p, q}
    requires (told.matchIndex[p] == 2 || told.matchIndex[q] == 2) && told.matchIndex[p] <= 2 && told.matchIndex[q] <= 2
    requires told.log.snapIndex == 0 && |told.log.entries| == 2 && told.log.entries[1].term == told.term
    requires told.log.entries[0].command == x != "" && told.log.entries[1].command == y != ""
    requires told.commitIndex == 0 && told.lastApplied == 0 && told.applied == []
    ensures AdvanceCommit(told) == told.(commitIndex := 2, lastApplied := 2, applied := [x, y])
  {
    ChosenOfThree(told, p, q, 2);
    BothApplied(told, x, y);
  }

  lemma ChosenOfThree(told: Node, p: nat, q: nat, c: nat)
    requires told.Valid() && told.role == Leader && told.size == 3 && p < q < 3 && told.matchIndex.Keys == {p, q}
    requires (told.matchIndex[p] == c || told.matchIndex[q] == c) && told.matchIndex[p] <= c && told.matchIndex[q] <= c
    requires told.commitIndex < c <= told.log.LastIndex() && told.log.TermAt(c) == told.term
    ensures AdvanceCommit(told) == ApplyCommitted(told.(commitIndex := c))
  {
    LeaderOfThree(told, p, q);
  }

  lemma ToldOne(n: Node, told: Node, p: nat, q: nat, f: nat, matched: nat)
    requires n.matchIndex.Keys == {p, q} && f in {p, q} && told.matchIndex == n.matchIndex[f := matched]
    requires forall p :: p in n.matchIndex ==> n.matchIndex[p] == 0
    ensures told.matchIndex.Keys == {p, q}
    ensures told.matchIndex[p] == matched || told.matchIndex[q] == matched
    ensures told.matchIndex[p] <= matched && told.matchIndex[q] <= matched
  {
  }

  /** A leader of three commits two entries that one peer has confirmed. */
  lemma ReplyCommits(n: Node, i: nat, term: nat, x: Entry, y: Entry, f: nat) returns (n': Node)
    requires i < 3 && f < 3 && f != i && Fresh(n, i, term, [x, y]) && y.term == term
    requires x.command != "" && y.command != ""
    ensures f in Peers(i, 3) && n' == HandleAppendReply(n, term, f, 2, AppendReply(term, true))
    ensures n'.role == Leader && n'.term == term && n'.commitIndex == 2 && n'.applied == [x.command, y.command]
  {
    var p, q := OtherTwo(i);
    var told := SuccessfulReply(n, f, 2);
    ToldOne(n, told, p, q, f, 2);
    TwoCommitted(told, p, q, x.command, y.command);
    n' := AdvanceCommit(told);
  }

  lemma CommitAll(trace: seq<Cluster>, steps: seq<Step>, nodes: seq<Node>, msgs: set<Message>, sent: nat,
                  i: nat, term: nat, x: Entry, y: Entry, f: nat)
    returns (trace': seq<Cluster>, steps': seq<Step>, n': Node)
    requires Reaches(trace, steps, nodes, msgs, sent) && i < 3 && f < 3 && f != i
    requires Fresh(nodes[i], i, term, [x, y]) && y.term == term && x.command != "" && y.command != ""
    requires AppendReplyMsg(f, i, term, 2, AppendReply(term, true)) in msgs
    ensures n'.role == Leader && n'.term == term && n'.commitIndex == 2 && n'.applied == [x.command, y.command]
    ensures Reaches(trace', steps', nodes[i := n'], msgs, sent)
  {
    var n'' := ReplyCommits(nodes[i], i, term, x, y, f);
    trace', steps', n' :=
      Go(trace, steps, nodes, msgs, sent, ReceiveReply(i, AppendReplyMsg(f, i, term, 2, AppendReply(term, true))));
  }

  lemma Begin() returns (trace: seq<Cluster>, steps: seq<Step>, nodes: seq<Node>)
    ensures Reaches(trace, steps, nodes, {}, 0)
    ensures Idle(nodes[0], 0, 0, []) && Idle(nodes[1], 1, 0, []) && Idle(nodes[2], 2, 0, [])
  {
    nodes := [StartNode(0), StartNode(1), StartNode(2)];
    trace, steps := [Cluster(nodes, {}, 0, {}, {}, {}, map[])], [];
  }

  function StartNode(i: nat): Node {
    Node(i, 3, 0, -1, Uncompacted([]), Follower, -1, 0, 0, [], map[], map[])
  }

  /** Node c of three gets the vote of node v, which has an empty log, and leads the next term. */
  lemma Elect(trace: seq<Cluster>, steps: seq<Step>, nodes: seq<Node>, msgs: set<Message>, sent: nat,
              c: nat, term: nat, entries: seq<Entry>, v: nat, old': nat)
    returns (trace': seq<Cluster>, steps': seq<Step>, nodes': seq<Node>)
    requires Reaches(trace, steps, nodes, msgs, sent) && c < 3 && v < 3 && c != v && old' <= term
    requires Idle(nodes[c], c, term, entries) && Idle(nodes[v], v, old', [])
    ensures Reaches(trace', steps', nodes', msgs, sent)
    ensures Fresh(nodes'[c], c, term + 1, entries) && Idle(nodes'[v], v, term + 1, [])
    ensures forall k :: 0 <= k < 3 && k != c && k != v ==> nodes'[k] == nodes[k]
  {
    var n: Node;
    trace', steps', n := Stand(trace, steps, nodes, msgs, sent, c, term, entries);
    nodes' := nodes[c := n];
    var ask, grant := AskOf(c, term + 1, entries), VoteReplyMsg(v, c, term + 1, VoteReply(term + 1, true));
    trace', steps', n := Grant(trace', steps', nodes', msgs + {ask}, sent, v, old', c, term + 1, entries);
    nodes' := nodes'[v := n];
    trace', steps', n := WinWith(trace', steps', nodes', msgs + {ask} + {grant}, sent, c, term + 1, entries, v);
    nodes' := nodes'[c := n];
  }

  /** A leader appends a command and sends its whole log. */
  lemma Offer(trace: seq<Cluster>, steps: seq<Step>, nodes: seq<Node>, msgs: set<Message>, sent: nat,
              i: nat, term: nat, entries: seq<Entry>, command: string, to: nat)
    returns (trace': seq<Cluster>, steps': seq<Step>, nodes': seq<Node>)
    requires Reaches(trace, steps, nodes, msgs, sent) && i < 3 && to < 3 && to != i && Fresh(nodes[i], i, term, entries)
    ensures var log := entries + [Entry(term, command)];
            && Reaches(trace', steps', nodes', msgs + {LogOffer(i, term, log, to, sent)}, sent + 1)
            && Fresh(nodes'[i], i, term, log) && forall k :: 0 <= k < 3 && k != i ==> nodes'[k] == nodes[k]
  {
    var n: Node;
    trace', steps', n := AppendOne(trace, steps, nodes, msgs, sent, i, term, entries, command);
    nodes' := nodes[i := n];
    trace', steps' := SendAll(trace', steps', nodes', msgs, sent, i, term, entries + [Entry(term, command)], to);
  }

  const A: Entry := Entry(1, "a")
  const B: Entry := Entry(1, "b")
  const C: Entry := Entry(2, "c")

  /** Node 0 leads term 1 and sends node 1 first [a] and then [a, b]. */
  lemma OfferBoth() returns (trace: seq<Cluster>, steps: seq<Step>, nodes: seq<Node>)
    ensures Reaches(trace, steps, nodes, {LogOffer(0, 1, [A], 1, 0), LogOffer(0, 1, [A, B], 1, 1)}, 2)
    ensures Fresh(nodes[0], 0, 1, [A, B]) && Idle(nodes[1], 1, 1, []) && Idle(nodes[2], 2, 0, [])
  {
    trace, steps, nodes := Begin();
    trace, steps, nodes := Elect(trace, steps, nodes, {}, 0, 0, 0, [], 1, 0);
    trace, steps, nodes := Offer(trace, steps, nodes, {}, 0, 0, 1, [], "a", 1);
    assert [] + [A] == [A] && [A] + [B] == [A, B];
    trace, steps, nodes := Offer(trace, steps, nodes, {LogOffer(0, 1, [A], 1, 0)}, 1, 0, 1, [A], "b", 1);
  }

  /** Node 1 handles the longer request first, node 0 commits, and then the shorter one cuts b off again. */
  lemma CutOff() returns (trace: seq<Cluster>, steps: seq<Step>, nodes: seq<Node>)
    ensures Reaches(trace, steps, nodes, {}, 2)
    ensures Idle(nodes[1], 1, 1, [A]) && Idle(nodes[2], 2, 0, [])
    ensures nodes[0].role == Leader && nodes[0].term == 1 && nodes[0].commitIndex == 2 && nodes[0].applied == ["a", "b"]
  {
    var n: Node;
    var short, long := LogOffer(0, 1, [A], 1, 0), LogOffer(0, 1, [A, B], 1, 1);
    trace, steps, nodes := OfferBoth();
    trace, steps, n := AcceptAll(trace, steps, nodes, {short, long}, 2, 1, [], 0, 1, [A, B], 1);
    nodes := nodes[1 := n];
    var confirm := AppendReplyMsg(1, 0, 1, 2, AppendReply(1, true));
    trace, steps, n := CommitAll(trace, steps, nodes, {short, long, confirm}, 2, 0, 1, A, B, 1);
    nodes := nodes[0 := n];
    trace, steps, n := AcceptAll(trace, steps, nodes, {short, long, confirm}, 2, 1, [A, B], 0, 1, [A], 0);
    nodes := nodes[1 := n];
  }

  /** Without the order of requests both theorems fail: here node 1 leads term 2 without the entry b
      that node 0 committed in term 1, and the two have applied different commands at index 2. */
  lemma ReorderedRequestsLoseCommit() returns (trace: seq<Cluster>, steps: seq<Step>)
    ensures RaftCluster.Run(trace, steps) && |trace[|steps|].nodes| == 3
    ensures var n, n' := trace[|steps|].nodes[0], trace[|steps|].nodes[1];
            && n.role == Leader && n.term == 1 && n'.role == Leader && n'.term == 2
            && n.commitIndex == n'.commitIndex == 2
            && n.applied == ["a", "b"] && n'.applied == ["a", "c"]
  {
    var nodes: seq<Node>, n: Node;
    trace, steps, nodes := CutOff();
    trace, steps, nodes := Elect(trace, steps, nodes, {}, 2, 1, 1, [A], 2, 0);
    trace, steps, nodes := Offer(trace, steps, nodes, {}, 2, 1, 2, [A], "c", 2);
    assert [A] + [C] == [A, C];
    var offer := LogOffer(1, 2, [A, C], 2, 2);
    trace, steps, n := AcceptAll(trace, steps, nodes, {offer}, 3, 2, [], 1, 2, [A, C], 2);
    nodes := nodes[2 := n];
    var confirm := AppendReplyMsg(2, 1, 2, 2, AppendReply(2, true));
    trace, steps, n := CommitAll(trace, steps, nodes, {offer, confirm}, 3, 1, 2, A, C, 2);
  }
}
