/** How many primaries a shard has, over every list of commands (cluster/coordinator_main.cpp:261-316). */
module Primaries {
  import opened Topology
  import opened TopologyReplay
  import TopologyRuns

  // ---- Counting ----

  /** The replica ids of a shard, with repetition. */
  function Members(view: seq<Replica>, shard: int): multiset<int> {
    if view == [] then multiset{}
    else
      var last := view[|view| - 1];
      Members(view[..|view| - 1], shard) + (if last.shard == shard then multiset{last.replica} else multiset{})
  }

  /** How many replicas of a shard are marked primary. */
  function PrimaryCount(view: seq<Replica>, shard: int): nat {
    if view == [] then 0
    else
      var last := view[|view| - 1];
      PrimaryCount(view[..|view| - 1], shard) + (if last.shard == shard && last.primary then 1 else 0)
  }

  /** The same for the members that a command names. */
  function Named(members: seq<Endpoint>): multiset<int> {
    if members == [] then multiset{} else Named(members[..|members| - 1]) + multiset{members[|members| - 1].replica}
  }

  function MarkCount(members: seq<Endpoint>): nat {
    if members == [] then 0
    else MarkCount(members[..|members| - 1]) + (if members[|members| - 1].primary then 1 else 0)
  }

  ghost predicate Distinct(ids: multiset<int>) {
    forall id: int :: id in ids ==> ids[id] == 1
  }

  lemma {:induction false} MembersOfSum(a: seq<Replica>, b: seq<Replica>, shard: int)
    ensures Members(a + b, shard) == Members(a, shard) + Members(b, shard)
  {
    if b == [] {
      assert a + b == a;
    } else {
      var front, last := b[..|b| - 1], b[|b| - 1];
      MembersOfSum(a, front, shard);
      assert (a + b)[..|a + b| - 1] == a + front && (a + b)[|a + b| - 1] == last;
      var more := if last.shard == shard then multiset{last.replica} else multiset{};
      assert Members(a + b, shard) == (Members(a, shard) + Members(front, shard)) + more;
    }
  }

  lemma {:induction false} PrimariesOfSum(a: seq<Replica>, b: seq<Replica>, shard: int)
    ensures PrimaryCount(a + b, shard) == PrimaryCount(a, shard) + PrimaryCount(b, shard)
  {
    if b == [] {
      assert a + b == a;
    } else {
      PrimariesOfSum(a, b[..|b| - 1], shard);
      assert (a + b)[..|a + b| - 1] == a + b[..|b| - 1];
    }
  }

  lemma {:induction false} CountsOfNew(added: int, members: seq<Endpoint>, epoch: nat, shard: int)
    ensures var new' := NewReplicas(added, members, epoch);
            && Members(new', shard) == (if added == shard then Named(members) else multiset{})
            && PrimaryCount(new', shard) == if added == shard then MarkCount(members) else 0
  {
    if members == [] {
    } else {
      var front, all := members[..|members| - 1], NewReplicas(added, members, epoch);
      CountsOfNew(added, front, epoch, shard);
      assert all[..|all| - 1] == NewReplicas(added, front, epoch);
    }
  }

  lemma {:induction false} CountsOfWithout(view: seq<Replica>, ids: set<int>, shard: int)
    ensures Members(Without(view, ids), shard) == if shard in ids then multiset{} else Members(view, shard)
    ensures PrimaryCount(Without(view, ids), shard) == if shard in ids then 0 else PrimaryCount(view, shard)
  {
    if view == [] {
    } else {
      var front, last := view[..|view| - 1], view[|view| - 1];
      CountsOfWithout(front, ids, shard);
      MembersOfSum(Without(front, ids), if last.shard in ids then [] else [last], shard);
      PrimariesOfSum(Without(front, ids), if last.shard in ids then [] else [last], shard);
    }
  }

  lemma {:induction false} CountsOfPromote(view: seq<Replica>, promoted: int, replica: int, epoch: nat, shard: int)
    ensures var view' := Promote(view, promoted, replica, epoch);
            && Members(view', shard) == Members(view, shard)
            && PrimaryCount(view', shard) == if promoted == shard then Members(view, shard)[replica] else PrimaryCount(view, shard)
  {
    if view == [] {
    } else {
      var front, last := view[..|view| - 1], view[|view| - 1];
      CountsOfPromote(front, promoted, replica, epoch, shard);
      var view' := Promote(view, promoted, replica, epoch);
      assert view'[..|view'| - 1] == Promote(front, promoted, replica, epoch);
    }
  }

  lemma {:induction false} PresentMeansMembers(view: seq<Replica>, shard: int)
    ensures shard in ShardIds(view) <==> Members(view, shard) != multiset{}
    ensures shard !in ShardIds(view) ==> PrimaryCount(view, shard) == 0
  {
    if view == [] {
    } else {
      PresentMeansMembers(view[..|view| - 1], shard);
      assert view[|view| - 1].shard == shard ==> view[|view| - 1].replica in Members(view, shard);
    }
  }

  // ---- One command ----

  /** A set_primary leaves a shard whose replicas are distinct with one primary exactly if it names one of
      them, and with none otherwise. */
  lemma PromotionExactly(view: seq<Replica>, shard: int, replica: int, epoch: nat)
    requires Distinct(Members(view, shard))
    ensures var view' := Step(view, SetPrimary(shard, replica), epoch);
            PrimaryCount(view', shard) == if replica in Members(view, shard) then 1 else 0
  {
    CountsOfPromote(view, shard, replica, epoch, shard);
  }

  /** A command that adds the shard names each replica once and marks at most one. */
  ghost predicate AddsWell(cmd: Command, shard: int) {
    cmd.AddShard? && cmd.shard == shard ==> Distinct(Named(cmd.members)) && MarkCount(cmd.members) <= 1
  }

  ghost predicate AtMostOne(view: seq<Replica>, shard: int) {
    Distinct(Members(view, shard)) && PrimaryCount(view, shard) <= 1
  }

  /** What a command makes of the replicas of a shard, and of how many are primary. */
  function MembersAfter(view: seq<Replica>, cmd: Command, shard: int): multiset<int> {
    match cmd
    case AddShard(added, members) =>
      if added == shard && shard !in ShardIds(view) then Named(members) else Members(view, shard)
    case RemoveShard(removed) => if removed == shard then multiset{} else Members(view, shard)
    case SetPrimary(_, _) => Members(view, shard)
    case Unknown => Members(view, shard)
  }

  function PrimariesAfter(view: seq<Replica>, cmd: Command, shard: int): nat {
    match cmd
    case AddShard(added, members) =>
      if added == shard && shard !in ShardIds(view) then MarkCount(members) else PrimaryCount(view, shard)
    case RemoveShard(removed) => if removed == shard then 0 else PrimaryCount(view, shard)
    case SetPrimary(promoted, replica) =>
      if promoted == shard then Members(view, shard)[replica] else PrimaryCount(view, shard)
    case Unknown => PrimaryCount(view, shard)
  }

  lemma StepCounts(view: seq<Replica>, cmd: Command, epoch: nat, shard: int)
    ensures Members(Step(view, cmd, epoch), shard) == MembersAfter(view, cmd, shard)
    ensures PrimaryCount(Step(view, cmd, epoch), shard) == PrimariesAfter(view, cmd, shard)
  {
    match cmd
    case AddShard(added, members) =>
      PresentMeansMembers(view, shard);
      CountsOfNew(added, members, epoch, shard);
      MembersOfSum(view, NewReplicas(added, members, epoch), shard);
      PrimariesOfSum(view, NewReplicas(added, members, epoch), shard);
    case RemoveShard(removed) => CountsOfWithout(view, {removed}, shard);
    case SetPrimary(promoted, replica) => CountsOfPromote(view, promoted, replica, epoch, shard);
    case Unknown =>
  }

  // ---- Every list of commands ----

  lemma StepKeepsAtMostOne(view: seq<Replica>, cmd: Command, epoch: nat, shard: int)
    requires AtMostOne(view, shard) && AddsWell(cmd, shard)
    ensures AtMostOne(Step(view, cmd, epoch), shard)
  {
    StepCounts(view, cmd, epoch, shard);
  }

  /** A shard that is only ever added with distinct replicas and at most one mark has at most one primary
      after any list of commands. */
  lemma {:induction false} AtMostOnePrimary(start: seq<Replica>, cmds: seq<Command>, base: nat, shard: int)
    requires AtMostOne(start, shard) && forall k :: 0 <= k < |cmds| ==> AddsWell(cmds[k], shard)
    ensures AtMostOne(Fold(start, cmds, base), shard)
  {
    if cmds == [] {
    } else {
      var front, cmd := cmds[..|cmds| - 1], cmds[|cmds| - 1];
      AtMostOnePrimary(start, front, base, shard);
      assert AddsWell(cmd, shard);
      StepKeepsAtMostOne(Fold(start, front, base), cmd, base + |cmds|, shard);
    }
  }

  /** A set_primary of the shard names one of its replicas, and an add_shard of it marks one. */
  ghost predicate Keeps(view: seq<Replica>, cmd: Command, shard: int) {
    && (cmd.SetPrimary? && cmd.shard == shard && shard in ShardIds(view) ==> cmd.replica in Members(view, shard))
    && (cmd.AddShard? && cmd.shard == shard && cmd.members != [] ==>
          Distinct(Named(cmd.members)) && MarkCount(cmd.members) == 1)
  }

  ghost predicate ExactlyOne(view: seq<Replica>, shard: int) {
    Distinct(Members(view, shard)) && PrimaryCount(view, shard) == if shard in ShardIds(view) then 1 else 0
  }

  lemma StepKeepsOne(view: seq<Replica>, cmd: Command, epoch: nat, shard: int)
    requires ExactlyOne(view, shard) && Keeps(view, cmd, shard)
    ensures ExactlyOne(Step(view, cmd, epoch), shard)
  {
    StepCounts(view, cmd, epoch, shard);
    PresentMeansMembers(view, shard);
    PresentMeansMembers(Step(view, cmd, epoch), shard);
    if cmd.AddShard? { NamedNone(cmd.members); }
  }

  lemma {:induction false} NamedNone(members: seq<Endpoint>)
    ensures Named(members) == multiset{} <==> members == []
    ensures members == [] ==> MarkCount(members) == 0
  {
    if members == [] {
    } else {
      assert members[|members| - 1].replica in Named(members);
    }
  }

  ghost predicate KeepsAt(start: seq<Replica>, cmds: seq<Command>, base: nat, k: nat, shard: int) {
    k < |cmds| && Keeps(Fold(start, cmds[..k], base), cmds[k], shard)
  }

  lemma KeptInFront(start: seq<Replica>, cmds: seq<Command>, base: nat, k: nat, shard: int)
    requires k + 1 < |cmds| && KeepsAt(start, cmds, base, k, shard)
    ensures KeepsAt(start, cmds[..|cmds| - 1], base, k, shard)
  {
    assert cmds[..|cmds| - 1][..k] == cmds[..k];
  }

  /** If moreover each add_shard marks one and each set_primary names a member, a shard that is there has
      exactly one primary after any list of commands. */
  lemma {:induction false} ExactlyOnePrimary(start: seq<Replica>, cmds: seq<Command>, base: nat, shard: int)
    requires ExactlyOne(start, shard) && forall k: nat :: k < |cmds| ==> KeepsAt(start, cmds, base, k, shard)
    ensures ExactlyOne(Fold(start, cmds, base), shard)
  {
    if cmds == [] {
    } else {
      var front, cmd := cmds[..|cmds| - 1], cmds[|cmds| - 1];
      forall k: nat | k < |front| ensures KeepsAt(start, front, base, k, shard) { KeptInFront(start, cmds, base, k, shard); }
      ExactlyOnePrimary(start, front, base, shard);
      assert KeepsAt(start, cmds, base, |front|, shard);
      StepKeepsOne(Fold(start, front, base), cmd, base + |cmds|, shard);
    }
  }

  // ---- Every run of the coordinators ----

  /** So at any time of any such run no coordinator shows a shard with two primaries. */
  lemma CoordinatorsShowOnePrimary(
    trace: seq<TopologyRuns.System>, actions: seq<TopologyRuns.Action>, start: seq<Replica>, k: nat, i: nat, shard: int)
    requires TopologyRuns.Run(trace, actions, start) && k < |trace| && i < |trace[k].members|
    requires AtMostOne(start, shard) && forall j :: 0 <= j < |trace[k].cmds| ==> AddsWell(trace[k].cmds[j], shard)
    ensures AtMostOne(Active(trace[k].members[i].state.shards), shard)
  {
    TopologyRuns.TopologyIsReplay(trace, actions, start, k, i);
    var applied := trace[k].members[i].AppliedIndex();
    forall j | 0 <= j < applied ensures AddsWell(trace[k].cmds[..applied][j], shard) {
      assert AddsWell(trace[k].cmds[j], shard);
    }
    AtMostOnePrimary(start, trace[k].cmds[..applied], 0, shard);
  }
}
