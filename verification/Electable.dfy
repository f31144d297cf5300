/** A cluster can always elect a leader, who can then bring everyone up to date
    (cluster/raft_node.hpp:109-126, 335-387). */
module Electable {
  import opened RaftLogs
  import opened RaftNodes
  import opened RaftCluster
  import opened RaftInvariants
  import opened SnapshotTransfer
  import opened CatchUp

  /** The vote request that a node sends names the end of its own log. */
  ghost predicate NotBehind(n: Node, log: Log) {
    UpToDate(StartElection(n).1, log)
  }

  /** Of any two nodes one may have the other's vote, and nobody's log is behind its own. */
  lemma OneOfTwo(a: Node, b: Node)
    ensures NotBehind(a, b.log) || NotBehind(b, a.log)
    ensures NotBehind(a, a.log)
  {
  }

  lemma NotBehindTransitive(a: Node, b: Node, log: Log)
    requires NotBehind(a, b.log) && NotBehind(b, log)
    ensures NotBehind(a, log)
  {
  }

  lemma {:induction false} SomeoneIsAhead(nodes: seq<Node>, n: nat) returns (i: nat)
    requires 0 < n <= |nodes|
    ensures i < n && forall j :: 0 <= j < n ==> NotBehind(nodes[i], nodes[j].log)
  {
    OneOfTwo(nodes[n - 1], nodes[n - 1]);
    if n == 1 {
      i := 0;
    } else {
      i := SomeoneIsAhead(nodes, n - 1);
      OneOfTwo(nodes[i], nodes[n - 1]);
      if !NotBehind(nodes[i], nodes[n - 1].log) {
        forall j | 0 <= j < n - 1 ensures NotBehind(nodes[n - 1], nodes[j].log) {
          NotBehindTransitive(nodes[n - 1], nodes[i], nodes[j].log);
        }
        i := n - 1;
      }
    }
  }

  /** A first request of a higher term is granted exactly if its log is not behind. */
  lemma GrantedExactly(n: Node, c: Node)
    requires n.term <= c.term
    ensures var (n', reply) := HandleVote(n, StartElection(c).1);
            && (reply.granted <==> NotBehind(c, n.log))
            && reply.term == n'.term == c.term + 1 && n'.role == Follower && n'.log == n.log && n'.id == n.id
            && n'.votedFor == if reply.granted then c.id else -1
  {
  }

  /** Every answer carries the term of the node that gives it, so that whoever is behind learns of it. */
  lemma AnswersCarryTheTerm(n: Node, vote: VoteRequest, append: AppendRequest)
    ensures var (n', reply) := HandleVote(n, vote);
            && reply.term == n'.term == (if vote.term > n.term then vote.term else n.term)
            && (vote.term < n.term ==> n' == n && !reply.granted)
    ensures var (n', reply) := HandleAppend(n, append);
            && reply.term == n'.term == (if append.term > n.term then append.term else n.term)
            && (append.term < n.term ==> n' == n && !reply.success)
  {
  }

  /** A request that comes again gets the same answer and changes nothing more. */
  lemma VoteIsIdempotent(n: Node, req: VoteRequest)
    requires req.candidate >= 0
    ensures var (n', reply) := HandleVote(n, req); HandleVote(n', req) == (n', reply)
  {
  }

  /** In every cluster there is a node whose log wins: once its term has reached the others', everyone grants it
      the vote. */
  lemma SomeoneCanWin(nodes: seq<Node>) returns (i: nat)
    requires nodes != []
    ensures i < |nodes|
    ensures forall c: Node, j :: 0 <= j < |nodes| && c.log == nodes[i].log && nodes[j].term <= c.term ==>
              HandleVote(nodes[j], StartElection(c).1).1.granted
  {
    i := SomeoneIsAhead(nodes, |nodes|);
    forall c: Node, j | 0 <= j < |nodes| && c.log == nodes[i].log && nodes[j].term <= c.term
      ensures HandleVote(nodes[j], StartElection(c).1).1.granted
    {
      GrantedExactly(nodes[j], c);
      assert NotBehind(nodes[i], nodes[j].log);
    }
  }

  /** At any time of any run such a node, with all votes, leads, and each voter then takes over its log. `c` is the
      node once its term has reached the others'. */
  lemma WinnerServesAll(trace: seq<Cluster>, steps: seq<Step>, k: nat, i: nat, c: Node, j: nat)
    requires Run(trace, steps) && k < |trace| && i < |trace[k].nodes| && j < |trace[k].nodes| && i != j
    requires c.id == i && c.size == |trace[k].nodes| && c.log == trace[k].nodes[i].log && trace[k].nodes[j].term <= c.term
    ensures var l, f := FinishElection(StartElection(c).0, c.term + 1, c.size), HandleVote(trace[k].nodes[j], StartElection(c).1).0;
            && l.role == Leader && l.term == c.term + 1 && Talking(l, f)
            && c.log.entries <= UntilAccepted(l, f).1.log.entries
  {
    RunInv(trace, steps, k);
    assert NodeOk(trace[k], i) && NodeOk(trace[k], j);
    LogsMatch(trace, steps, k, i, j);
    GrantedExactly(trace[k].nodes[j], c);
    Served(c, HandleVote(trace[k].nodes[j], StartElection(c).1).0);
  }

  lemma Served(c: Node, f: Node)
    requires c.id < c.size && f.id in Peers(c.id, c.size) && f.term <= c.term + 1 && Full(c.log) && Full(f.log)
    requires Matching(c.log.entries, f.log.entries)
    ensures var l := FinishElection(StartElection(c).0, c.term + 1, c.size);
            && l.role == Leader && l.term == c.term + 1 && Talking(l, f)
            && c.log.entries <= UntilAccepted(l, f).1.log.entries
  {
    var n := StartElection(c).0;
    WinnerBegins(n, c.size, f);
    FollowerCatchesUp(FinishElection(n, c.term + 1, c.size), f);
  }
}
