/** The coordinator object and its view of the Raft node (cluster/coordinator_main.cpp:194-333).

    The loops work on the list of replicas in place, as the source does, and are proved to compute
    the functions of `Topology`. */
module Coordinators {
  import opened Topology
  import opened TopologyReplay

  class RaftView {
    var snapIndex: nat
    var snapData: SnapText
    var applied: seq<Command>

    function Value(): Status
      reads this
    {
      Status(snapIndex, snapData, applied)
    }

    method CompactLog(upTo: nat, data: seq<Replica>) returns (done: bool)
      modifies this
      ensures (Value(), done) == Compact(old(Value()), upTo, data)
    {
      if upTo <= snapIndex || upTo > snapIndex + |applied| { return false; }
      applied := applied[upTo - snapIndex..];
      snapIndex, snapData := upTo, Saved(data);
      return true;
    }
  }

  lemma PrefixNext<T>(s: seq<T>, j: nat)
    requires j < |s|
    ensures s[..j + 1][..j] == s[..j] && s[..j + 1][j] == s[j]
  {
  }

  lemma OneMoreId(view: seq<Replica>, r: Replica)
    ensures ShardIds(view + [r]) == ShardIds(view) + {r.shard}
  {
  }

  /** The list functions of `Topology`, replica by replica. */
  lemma {:induction false} DeactivateEach(was: seq<Replica>, now: seq<Replica>, ids: set<int>)
    requires |now| == |was|
    requires forall i :: 0 <= i < |was| ==> now[i] == if was[i].shard in ids then was[i].(active := false) else was[i]
    ensures now == Deactivate(was, ids)
  {
    if was == [] {
    } else {
      DeactivateEach(was[..|was| - 1], now[..|was| - 1], ids);
      assert now == now[..|was| - 1] + [now[|was| - 1]];
    }
  }

  lemma {:induction false} PromoteEach(was: seq<Replica>, now: seq<Replica>, shard: int, replica: int, epoch: nat)
    requires |now| == |was|
    requires forall i :: 0 <= i < |was| ==>
               now[i] == if was[i].shard == shard then was[i].(primary := was[i].replica == replica, epoch := epoch) else was[i]
    ensures now == Promote(was, shard, replica, epoch)
  {
    if was == [] {
    } else {
      PromoteEach(was[..|was| - 1], now[..|was| - 1], shard, replica, epoch);
      assert now == now[..|was| - 1] + [now[|was| - 1]];
    }
  }

  /** One replica per member at the end of the list, in order, as the command describes it. */
  ghost predicate AddedInOrder(was: seq<Replica>, now: seq<Replica>, shard: int, members: seq<Endpoint>, epoch: nat) {
    && |now| == |was| + |members| && now[..|was|] == was
    && forall k :: 0 <= k < |members| ==>
         var r, m := now[|was| + k], members[k];
         && r.shard == shard && r.replica == m.replica && r.host == m.host && r.port == m.port
         && r.primary == m.primary && r.epoch == epoch && r.active
  }

  /** Every replica of the shard is switched off, and nothing else changes. */
  ghost predicate RetiredEach(was: seq<Replica>, now: seq<Replica>, shard: int) {
    && |now| == |was|
    && forall k :: 0 <= k < |was| ==> now[k] == if was[k].shard == shard then was[k].(active := false) else was[k]
  }

  /** The named replica of the shard is its primary, no other one is, and all of them carry the epoch. */
  ghost predicate PromotedEach(was: seq<Replica>, now: seq<Replica>, shard: int, replica: int, epoch: nat) {
    && |now| == |was|
    && forall k :: 0 <= k < |was| ==>
         if was[k].shard != shard then now[k] == was[k]
         else && (now[k].primary <==> was[k].replica == replica) && now[k].epoch == epoch
              && now[k] == was[k].(primary := now[k].primary, epoch := now[k].epoch)
  }

  lemma {:induction false} KnownShard(shards: seq<Replica>, shard: int)
    ensures shard in ShardIds(shards) <==> exists r :: r in shards && r.shard == shard
  {
    if shards == [] {
    } else {
      KnownShard(shards[..|shards| - 1], shard);
      assert shards == shards[..|shards| - 1] + [shards[|shards| - 1]];
    }
  }

  lemma {:induction false} RetiredOneByOne(shards: seq<Replica>, shard: int)
    ensures RetiredEach(shards, Deactivate(shards, {shard}), shard)
  {
    if shards == [] {
    } else {
      RetiredOneByOne(shards[..|shards| - 1], shard);
    }
  }

  lemma {:induction false} PromotedOneByOne(shards: seq<Replica>, shard: int, replica: int, epoch: nat)
    ensures PromotedEach(shards, Promote(shards, shard, replica, epoch), shard, replica, epoch)
  {
    if shards == [] {
    } else {
      PromotedOneByOne(shards[..|shards| - 1], shard, replica, epoch);
    }
  }

  lemma AddedOneByOne(shards: seq<Replica>, shard: int, members: seq<Endpoint>, epoch: nat)
    ensures AddedInOrder(shards, shards + NewReplicas(shard, members, epoch), shard, members, epoch)
  {
    var added := NewReplicas(shard, members, epoch);
    NewReplicasLength(shard, members, epoch);
    forall k | 0 <= k < |members|
      ensures var r, m := added[k], members[k];
              && r.shard == shard && r.replica == m.replica && r.host == m.host && r.port == m.port
              && r.primary == m.primary && r.epoch == epoch && r.active
    {
      NewReplicasAt(shard, members, epoch, k);
    }
  }

  /** What a command does to the list, replica by replica. */
  lemma CommandDoes(shards: seq<Replica>, cmd: Command, epoch: nat)
    ensures cmd.AddShard? ==>
              if exists r :: r in shards && r.shard == cmd.shard then ApplyTo(shards, cmd, epoch) == shards
              else AddedInOrder(shards, ApplyTo(shards, cmd, epoch), cmd.shard, cmd.members, epoch)
    ensures cmd.RemoveShard? ==> RetiredEach(shards, ApplyTo(shards, cmd, epoch), cmd.shard)
    ensures cmd.SetPrimary? ==> PromotedEach(shards, ApplyTo(shards, cmd, epoch), cmd.shard, cmd.replica, epoch)
    ensures cmd == Unknown ==> ApplyTo(shards, cmd, epoch) == shards
  {
    match cmd
    case AddShard(shard, members) =>
      KnownShard(shards, shard);
      AddedOneByOne(shards, shard, members, epoch);
    case RemoveShard(shard) => RetiredOneByOne(shards, shard);
    case SetPrimary(shard, replica) => PromotedOneByOne(shards, shard, replica, epoch);
    case Unknown =>
  }

  class Coordinator {
    var shards: seq<Replica>
    var ring: set<int>
    var localApplied: nat
    var snapshotApplied: nat

    /** Start from the endpoints of the configuration file, with the node's snapshot counted as applied. */
    constructor (endpoints: seq<Replica>, snapIndex: nat)
      ensures Value() == State(endpoints, ShardIds(Active(endpoints)), 0, snapIndex)
    {
      shards, localApplied, snapshotApplied := endpoints, 0, snapIndex;
      new;
      RebuildRing();
    }

    function Value(): State
      reads this
    {
      State(shards, ring, localApplied, snapshotApplied)
    }

    /** The ring is always built on the shards that have an active replica. */
    ghost predicate Valid()
      reads this
    {
      ring == ShardIds(Active(shards))
    }

    method RebuildRing()
      modifies this`ring
      ensures Valid()
    {
      var ids := {};
      for j := 0 to |shards|
        invariant ids == ShardIds(Active(shards[..j]))
      {
        PrefixNext(shards, j);
        if shards[j].active {
          OneMoreId(Active(shards[..j]), shards[j]);
          ids := ids + {shards[j].shard};
        } else {
          assert Active(shards[..j + 1]) == Active(shards[..j]);
        }
      }
      assert shards[..|shards|] == shards;
      ring := ids;
    }

    method Serialize() returns (data: seq<Replica>)
      ensures data == Active(shards)
    {
      data := [];
      for j := 0 to |shards|
        invariant data == Active(shards[..j])
      {
        PrefixNext(shards, j);
        if shards[j].active { data := data + [shards[j]]; }
      }
      assert shards[..|shards|] == shards;
    }

    method Retire(ids: set<int>)
      modifies this`shards
      ensures shards == Deactivate(old(shards), ids)
    {
      ghost var was := shards;
      for j := 0 to |shards|
        invariant |shards| == |was| && shards[j..] == was[j..]
        invariant forall i :: 0 <= i < j ==>
                    shards[i] == if was[i].shard in ids then was[i].(active := false) else was[i]
      {
        var r := shards[j];
        if r.shard in ids { shards := shards[j := r.(active := false)]; }
      }
      DeactivateEach(was, shards, ids);
    }

    method ApplySnapshot(text: SnapText)
      requires Valid()
      modifies this
      ensures Valid() && shards == Restore(old(shards), text)
      ensures localApplied == old(localApplied) && snapshotApplied == old(snapshotApplied)
    {
      if text.Unreadable? { return; }
      var data := text.replicas;
      Retire(ShardIds(shards));
      ghost var off := shards;
      for j := 0 to |data|
        invariant shards == off + data[..j]
        invariant localApplied == old(localApplied) && snapshotApplied == old(snapshotApplied)
      {
        shards := shards + [data[j]];
      }
      assert data[..|data|] == data;
      RebuildRing();
    }

    method Exists(shard: int) returns (exists': bool)
      ensures exists' == (shard in ShardIds(shards))
    {
      exists' := false;
      for j := 0 to |shards|
        invariant exists' == (shard in ShardIds(shards[..j]))
      {
        PrefixNext(shards, j);
        if shards[j].shard == shard { exists' := true; }
      }
      assert shards[..|shards|] == shards;
    }

    method AddReplicas(shard: int, members: seq<Endpoint>, epoch: nat)
      modifies this`shards
      ensures shards == old(shards) + NewReplicas(shard, members, epoch)
    {
      var added := [];
      for j := 0 to |members|
        invariant added == NewReplicas(shard, members[..j], epoch) && shards == old(shards)
      {
        PrefixNext(members, j);
        var m := members[j];
        added := added + [Replica(shard, m.replica, m.host, m.port, m.primary, epoch, true)];
      }
      assert members[..|members|] == members;
      shards := shards + added;
    }

    method PromoteReplica(shard: int, replica: int, epoch: nat)
      modifies this`shards
      ensures shards == Promote(old(shards), shard, replica, epoch)
    {
      ghost var was := shards;
      for j := 0 to |shards|
        invariant |shards| == |was| && shards[j..] == was[j..]
        invariant forall i :: 0 <= i < j ==>
                    shards[i] == if was[i].shard == shard then was[i].(primary := was[i].replica == replica, epoch := epoch) else was[i]
      {
        var r := shards[j];
        if r.shard == shard {
          shards := shards[j := r.(primary := r.replica == replica, epoch := epoch)];
        }
      }
      PromoteEach(was, shards, shard, replica, epoch);
    }

    method ApplyCommand(cmd: Command, epoch: nat)
      requires Valid()
      modifies this
      ensures Valid() && shards == ApplyTo(old(shards), cmd, epoch)
      ensures localApplied == old(localApplied) && snapshotApplied == old(snapshotApplied)
    {
      match cmd
      case AddShard(shard, members) =>
        var known := Exists(shard);
        if !known {
          AddReplicas(shard, members, epoch);
          RebuildRing();
        }
      case RemoveShard(shard) =>
        Retire({shard});
        RebuildRing();
      case SetPrimary(shard, replica) =>
        PromoteKeepsRing(shards, shard, replica, epoch);
        PromoteReplica(shard, replica, epoch);
      case Unknown =>
    }

    /** The commands from the cursor on, each with its absolute log index as epoch. */
    method ApplyCommands(cmds: seq<Command>, base: nat)
      requires Valid()
      modifies this
      ensures Valid() && shards == ApplyAll(old(shards), cmds, base)
      ensures localApplied == old(localApplied) && snapshotApplied == old(snapshotApplied)
    {
      for i := 0 to |cmds|
        invariant Valid() && shards == ApplyAll(old(shards), cmds[..i], base)
        invariant localApplied == old(localApplied) && snapshotApplied == old(snapshotApplied)
      {
        PrefixNext(cmds, i);
        ApplyAllLast(old(shards), cmds[..i + 1], base);
        ApplyCommand(cmds[i], base + i + 1);
      }
      assert cmds[..|cmds|] == cmds;
    }

    /** The call up to the compaction trigger; `more` says whether there was anything to apply. */
    method CatchUpWith(st: Status) returns (more: bool)
      requires Valid()
      modifies this
      ensures Valid() && Value() == CatchUp(old(Value()), st)
      ensures more == (|st.applied| > StartFrom(old(Value()), st).1)
    {
      if st.snapIndex > snapshotApplied {
        ApplySnapshot(st.snapData);
        snapshotApplied := st.snapIndex;
        localApplied := 0;
      }
      if |st.applied| <= localApplied { return false; }
      ApplyCommands(st.applied[localApplied..], st.snapIndex + localApplied);
      localApplied := |st.applied|;
      return true;
    }

    /** One whole call; `TopologyRuns` also lets the node change between its two halves. */
    method ApplyPending(node: RaftView)
      requires Valid()
      modifies this, node
      ensures Valid()
      ensures var st, s := old(node.Value()), CatchUp(old(Value()), old(node.Value()));
              if Fires(old(Value()), st) && Compact(st, st.Last(), Active(s.shards)).1 then
                && Value() == s.(localApplied := 0)
                && node.Value() == Compact(st, st.Last(), Active(s.shards)).0
              else Value() == s && node.Value() == st
    {
      var st := node.Value();
      var more := CatchUpWith(st);
      if more && localApplied >= COMPACTION_THRESHOLD {
        var data := Serialize();
        var done := node.CompactLog(st.snapIndex + localApplied, data);
        if done { localApplied := 0; }
      }
    }
  }

  lemma PromoteKeepsRing(shards: seq<Replica>, shard: int, replica: int, epoch: nat)
    ensures ShardIds(Active(Promote(shards, shard, replica, epoch))) == ShardIds(Active(shards))
  {
    PromoteFacts(shards, shard, replica, epoch);
    PromoteFacts(Active(shards), shard, replica, epoch);
  }
}
