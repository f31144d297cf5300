/** Whom a node takes for the leader, over every run (leader_id_ in cluster/raft_node.hpp). */
module KnownLeader {
  import opened RaftLogs
  import opened RaftNodes
  import opened RaftCluster
  import opened RaftInvariants

  /** Somebody who did win an election, of a term no later than the node's own. */
  ghost predicate LedBy(reigns: map<nat, Reign>, leader: int, term: nat) {
    exists t :: t in reigns && t <= term && reigns[t].leader == leader
  }

  /** A leader knows itself, a candidate nobody, and whoever else a node names has led. */
  ghost predicate KnowsLeader(n: Node, reigns: map<nat, Reign>) {
    && (n.role == Leader ==> n.leaderId == n.id) && (n.role == Candidate ==> n.leaderId == -1)
    && (n.leaderId == -1 || LedBy(reigns, n.leaderId, n.term))
  }

  lemma LedByStays(reigns: map<nat, Reign>, reigns': map<nat, Reign>, leader: int, term: nat, term': nat)
    requires LedBy(reigns, leader, term) && Extends(reigns, reigns') && term <= term'
    ensures LedBy(reigns', leader, term')
  {
    var t :| t in reigns && t <= term && reigns[t].leader == leader;
    assert t in reigns' && reigns'[t].leader == leader;
  }

  lemma KnowsStays(n: Node, n': Node, reigns: map<nat, Reign>, reigns': map<nat, Reign>)
    requires KnowsLeader(n, reigns) && Extends(reigns, reigns') && n.term <= n'.term && n'.leaderId == n.leaderId
    requires (n'.role == n.role && n'.id == n.id) || n'.role == Follower
    ensures KnowsLeader(n', reigns')
  {
    if n.leaderId != -1 { LedByStays(reigns, reigns', n.leaderId, n.term, n'.term); }
  }

  /** A request names its leader, and a node that takes it from the request has heard of that term. */
  lemma RequestNamesLeader(n: Node, a: AppendRequest)
    ensures var n' := HandleAppend(n, a).0;
            && n'.term == (if a.term > n.term then a.term else n.term) && n'.id == n.id
            && if a.term < n.term then n'.leaderId == n.leaderId && n'.role == n.role
               else n'.leaderId == a.leader && n'.role == Follower
  {
  }

  /** The steps that neither win nor handle a request leave the name alone or forget it. */
  lemma StepNamesNobody(n: Node, step: Step)
    requires n.Valid() && Ready(n, step) && !step.AnswerAppend? && !step.Win?
    ensures var n' := After(n, step);
            && n.term <= n'.term && n'.id == n.id
            && if step.Timeout? then n'.leaderId == -1 && n'.role == Candidate
               else if step.Crash? then n'.leaderId == -1 && n'.role == Follower
               else n'.leaderId == n.leaderId && (n'.role == n.role || n'.role == Follower)
  {
  }

  lemma WinNamesItself(n: Node, step: Step)
    requires n.Valid() && Ready(n, step) && step.Win?
    ensures var n' := After(n, step); n'.role == Leader && n'.leaderId == n'.id == n.id && n'.term == n.term
  {
  }

  lemma ActorKnows(s: Cluster, step: Step, s': Cluster)
    requires Inv(s) && Next(s, step, s') && KnowsLeader(s.nodes[step.i], s.reigns) && step.i < |s'.nodes|
    requires Extends(s.reigns, s'.reigns)
    ensures KnowsLeader(s'.nodes[step.i], s'.reigns)
  {
    var n := s.nodes[step.i];
    StepMoves(s, step, s');
    if step.Win? {
      WinNamesItself(n, step);
      assert n.term in s'.reigns && s'.reigns[n.term].leader == n.id;
    } else if step.AnswerAppend? {
      AnswererKnows(s, step.i, step.m, s'.reigns);
    } else {
      StepNamesNobody(n, step);
      if !step.Timeout? && !step.Crash? { KnowsStays(n, After(n, step), s.reigns, s'.reigns); }
    }
  }

  lemma AnswererKnows(s: Cluster, i: nat, m: Message, reigns': map<nat, Reign>)
    requires Inv(s) && i < |s.nodes| && m in s.msgs && m.AppendMsg? && KnowsLeader(s.nodes[i], s.reigns)
    requires Extends(s.reigns, reigns')
    ensures KnowsLeader(HandleAppend(s.nodes[i], m.append).0, reigns')
  {
    var n, a := s.nodes[i], m.append;
    var n' := HandleAppend(n, a).0;
    assert MessageOk(s, m);
    RequestNamesLeader(n, a);
    if a.term < n.term {
      KnowsStays(n, n', s.reigns, reigns');
    } else {
      assert a.term in reigns' && a.term <= n'.term && reigns'[a.term].leader == n'.leaderId;
    }
  }

  lemma StepKnows(s: Cluster, step: Step, s': Cluster, i: nat)
    requires Inv(s) && Next(s, step, s') && i < |s.nodes| && KnowsLeader(s.nodes[i], s.reigns)
    ensures |s'.nodes| == |s.nodes| && KnowsLeader(s'.nodes[i], s'.reigns)
  {
    StepEvolves(s, step, s');
    ReignsExtend(s, step, s');
    if i == step.i {
      ActorKnows(s, step, s');
    } else {
      KnowsStays(s.nodes[i], s'.nodes[i], s.reigns, s'.reigns);
    }
  }

  /** At every time of every run a node names as leader only somebody who has won an election in a term that is
      not later than its own; a leader names itself, a candidate nobody. */
  lemma {:induction false} NamesOnlyLeaders(trace: seq<Cluster>, steps: seq<Step>, k: nat, i: nat)
    requires Run(trace, steps) && k < |trace| && i < |trace[0].nodes|
    ensures |trace[k].nodes| == |trace[0].nodes| && KnowsLeader(trace[k].nodes[i], trace[k].reigns)
  {
    if k == 0 {
    } else {
      NamesOnlyLeaders(trace, steps, k - 1, i);
      RunInv(trace, steps, k - 1);
      assert NextAt(trace, steps, k - 1);
      StepKnows(trace[k - 1], steps[k - 1], trace[k], i);
    }
  }
}
