/** Replaying commands over a coordinator's list, with or without a snapshot, against the reference
    (cluster/coordinator_main.cpp:194-333). */
module TopologyReplay {
  import opened Topology

  // ---- Facts about the lists ----

  lemma {:induction false} ActiveOfSum(a: seq<Replica>, b: seq<Replica>)
    ensures Active(a + b) == Active(a) + Active(b)
  {
    if b == [] { assert a + b == a; }
    else {
      assert (a + b)[..|a + b| - 1] == a + b[..|b| - 1];
      ActiveOfSum(a, b[..|b| - 1]);
    }
  }

  lemma {:induction false} IdsOfSum(a: seq<Replica>, b: seq<Replica>)
    ensures ShardIds(a + b) == ShardIds(a) + ShardIds(b)
  {
    if b == [] { assert a + b == a; }
    else {
      assert (a + b)[..|a + b| - 1] == a + b[..|b| - 1];
      IdsOfSum(a, b[..|b| - 1]);
    }
  }

  lemma {:induction false} WithoutOfSum(a: seq<Replica>, b: seq<Replica>, ids: set<int>)
    ensures Without(a + b, ids) == Without(a, ids) + Without(b, ids)
  {
    if b == [] { assert a + b == a; }
    else {
      assert (a + b)[..|a + b| - 1] == a + b[..|b| - 1];
      WithoutOfSum(a, b[..|b| - 1], ids);
    }
  }

  lemma {:induction false} PromoteOfSum(a: seq<Replica>, b: seq<Replica>, shard: int, replica: int, epoch: nat)
    ensures Promote(a + b, shard, replica, epoch) == Promote(a, shard, replica, epoch) + Promote(b, shard, replica, epoch)
  {
    if b == [] { assert a + b == a; }
    else {
      assert (a + b)[..|a + b| - 1] == a + b[..|b| - 1];
      PromoteOfSum(a, b[..|b| - 1], shard, replica, epoch);
    }
  }

  lemma {:induction false} DeactivateFacts(shards: seq<Replica>, ids: set<int>)
    ensures Active(Deactivate(shards, ids)) == Without(Active(shards), ids)
    ensures ShardIds(Deactivate(shards, ids)) == ShardIds(shards)
  {
    if shards == [] {
    } else {
      var front, last := shards[..|shards| - 1], shards[|shards| - 1];
      DeactivateFacts(front, ids);
      var done := Deactivate(shards, ids);
      assert done[..|done| - 1] == Deactivate(front, ids);
      WithoutOfSum(Active(front), if last.active then [last] else [], ids);
    }
  }

  lemma {:induction false} PromoteFacts(shards: seq<Replica>, shard: int, replica: int, epoch: nat)
    ensures Active(Promote(shards, shard, replica, epoch)) == Promote(Active(shards), shard, replica, epoch)
    ensures ShardIds(Promote(shards, shard, replica, epoch)) == ShardIds(shards)
  {
    if shards == [] {
    } else {
      var front, last := shards[..|shards| - 1], shards[|shards| - 1];
      PromoteFacts(front, shard, replica, epoch);
      var done := Promote(shards, shard, replica, epoch);
      assert done[..|done| - 1] == Promote(front, shard, replica, epoch);
      PromoteOfSum(Active(front), if last.active then [last] else [], shard, replica, epoch);
    }
  }

  lemma {:induction false} PromoteWithout(view: seq<Replica>, shard: int, replica: int, epoch: nat, ids: set<int>)
    ensures Without(Promote(view, shard, replica, epoch), ids) == Promote(Without(view, ids), shard, replica, epoch)
  {
    if view == [] {
    } else {
      var front, last := view[..|view| - 1], view[|view| - 1];
      PromoteWithout(front, shard, replica, epoch, ids);
      var done := Promote(view, shard, replica, epoch);
      assert done[..|done| - 1] == Promote(front, shard, replica, epoch);
      PromoteOfSum(Without(front, ids), if last.shard in ids then [] else [last], shard, replica, epoch);
    }
  }

  lemma {:induction false} WithoutTwice(view: seq<Replica>, a: set<int>, b: set<int>)
    ensures Without(Without(view, a), b) == Without(Without(view, b), a)
  {
    if view == [] {
    } else {
      var front, last := view[..|view| - 1], view[|view| - 1];
      WithoutTwice(front, a, b);
      WithoutOfSum(Without(front, a), if last.shard in a then [] else [last], b);
      WithoutOfSum(Without(front, b), if last.shard in b then [] else [last], a);
    }
  }

  lemma {:induction false} IdsWithout(view: seq<Replica>, ids: set<int>)
    ensures ShardIds(Without(view, ids)) == ShardIds(view) - ids
  {
    if view == [] {
    } else {
      var front, last := view[..|view| - 1], view[|view| - 1];
      IdsWithout(front, ids);
      IdsOfSum(Without(front, ids), if last.shard in ids then [] else [last]);
      assert ShardIds([last]) == {last.shard};
    }
  }

  /** Leaving shards out changes nothing exactly when none of them is there. */
  lemma {:induction false} WithoutAbsent(view: seq<Replica>, ids: set<int>)
    ensures Without(view, ids) == view <==> ShardIds(view) !! ids
  {
    if view == [] {
    } else {
      var front, last := view[..|view| - 1], view[|view| - 1];
      WithoutAbsent(front, ids);
      assert view == front + [last];
    }
  }

  lemma {:induction false} NewReplicasFacts(shard: int, members: seq<Endpoint>, epoch: nat, ids: set<int>)
    ensures Active(NewReplicas(shard, members, epoch)) == NewReplicas(shard, members, epoch)
    ensures ShardIds(NewReplicas(shard, members, epoch)) == if members == [] then {} else {shard}
    ensures Without(NewReplicas(shard, members, epoch), ids) ==
            if shard in ids then [] else NewReplicas(shard, members, epoch)
  {
    if members == [] {
    } else {
      var front := members[..|members| - 1];
      NewReplicasFacts(shard, front, epoch, ids);
      var all := NewReplicas(shard, members, epoch);
      assert all[..|all| - 1] == NewReplicas(shard, front, epoch);
    }
  }

  lemma {:induction false} ActiveIdsKnown(shards: seq<Replica>)
    ensures ShardIds(Active(shards)) <= ShardIds(shards)
  {
    if shards == [] {
    } else {
      var front, last := shards[..|shards| - 1], shards[|shards| - 1];
      ActiveIdsKnown(front);
      IdsOfSum(Active(front), if last.active then [last] else []);
    }
  }

  lemma {:induction false} AllActive(view: seq<Replica>)
    requires forall i :: 0 <= i < |view| ==> view[i].active
    ensures Active(view) == view
  {
    if view == [] {
    } else {
      AllActive(view[..|view| - 1]);
    }
  }

  lemma {:induction false} ActiveExactly(shards: seq<Replica>, r: Replica)
    ensures multiset(Active(shards))[r] == if r.active then multiset(shards)[r] else 0
  {
    if shards == [] {
    } else {
      ActiveExactly(shards[..|shards| - 1], r);
      assert shards == shards[..|shards| - 1] + [shards[|shards| - 1]];
    }
  }

  lemma {:induction false} WithoutExactly(view: seq<Replica>, ids: set<int>, r: Replica)
    ensures multiset(Without(view, ids))[r] == if r.shard in ids then 0 else multiset(view)[r]
  {
    if view == [] {
    } else {
      WithoutExactly(view[..|view| - 1], ids, r);
      assert view == view[..|view| - 1] + [view[|view| - 1]];
    }
  }

  // ---- The reference over the whole committed list ----

  /** The reference topology after the first k committed commands. */
  function At(start: seq<Replica>, cmds: seq<Command>, k: nat): seq<Replica>
    requires k <= |cmds|
  {
    Fold(start, cmds[..k], 0)
  }

  lemma AtNext(start: seq<Replica>, cmds: seq<Command>, k: nat)
    requires k < |cmds|
    ensures At(start, cmds, k + 1) == Step(At(start, cmds, k), cmds[k], k + 1)
  {
    assert cmds[..k + 1][..k] == cmds[..k];
  }

  /** Shard `id` is in the topology after some number of commands up to k. */
  ghost predicate Seen(start: seq<Replica>, cmds: seq<Command>, k: nat, id: int)
    requires k <= |cmds|
  {
    exists j: nat :: j <= k && id in ShardIds(At(start, cmds, j))
  }

  /** No add_shard names a shard that was there before and has been removed. */
  ghost predicate NoReAdd(start: seq<Replica>, cmds: seq<Command>) {
    forall k: nat :: k < |cmds| && cmds[k].AddShard? && Seen(start, cmds, k, cmds[k].shard) ==>
      cmds[k].shard in ShardIds(At(start, cmds, k))
  }

  ghost predicate AllOn(view: seq<Replica>) {
    forall i :: 0 <= i < |view| ==> view[i].active
  }

  lemma {:induction false} StepKeepsAllOn(view: seq<Replica>, ids: set<int>, shard: int, replica: int, epoch: nat)
    requires AllOn(view)
    ensures AllOn(Without(view, ids)) && AllOn(Promote(view, shard, replica, epoch))
  {
    if view == [] {
    } else {
      StepKeepsAllOn(view[..|view| - 1], ids, shard, replica, epoch);
    }
  }

  lemma {:induction false} NewReplicasOn(shard: int, members: seq<Endpoint>, epoch: nat)
    ensures AllOn(NewReplicas(shard, members, epoch))
  {
    if members == [] {
    } else {
      NewReplicasOn(shard, members[..|members| - 1], epoch);
    }
  }

  lemma {:induction false} AtAllOn(start: seq<Replica>, cmds: seq<Command>, k: nat)
    requires AllOn(start) && k <= |cmds|
    ensures AllOn(At(start, cmds, k))
  {
    if k == 0 {
      assert cmds[..0] == [];
    } else {
      AtAllOn(start, cmds, k - 1);
      AtNext(start, cmds, k - 1);
      var view := At(start, cmds, k - 1);
      match cmds[k - 1]
      case AddShard(shard, members) => NewReplicasOn(shard, members, k);
      case RemoveShard(shard) => StepKeepsAllOn(view, {shard}, 0, 0, 0);
      case SetPrimary(shard, replica) => StepKeepsAllOn(view, {}, shard, replica, k);
      case Unknown =>
    }
  }

  // ---- Replaying over a list that remembers retired shards ----

  /** After k commands the list shows the reference except for the shards in `missed`, which it
      remembers as retired; every other shard it remembers has been in the topology before. */
  ghost predicate Follows(shards: seq<Replica>, start: seq<Replica>, cmds: seq<Command>, k: nat, missed: set<int>) {
    && k <= |cmds|
    && Active(shards) == Without(At(start, cmds, k), missed)
    && missed <= ShardIds(shards)
    && forall id :: id in ShardIds(shards) && id !in missed ==> Seen(start, cmds, k, id)
  }

  /** An add_shard is ignored for a missed shard, and otherwise exactly when the reference ignores it. */
  lemma AddFollows(shards: seq<Replica>, start: seq<Replica>, cmds: seq<Command>, k: nat, missed: set<int>)
    requires NoReAdd(start, cmds) && Follows(shards, start, cmds, k, missed) && k < |cmds| && cmds[k].AddShard?
    ensures Active(ApplyTo(shards, cmds[k], k + 1)) == Without(Step(At(start, cmds, k), cmds[k], k + 1), missed)
  {
    var view, id, members := At(start, cmds, k), cmds[k].shard, cmds[k].members;
    NewReplicasFacts(id, members, k + 1, missed);
    WithoutOfSum(view, NewReplicas(id, members, k + 1), missed);
    ActiveOfSum(shards, NewReplicas(id, members, k + 1));
    ActiveIdsKnown(shards);
    IdsWithout(view, missed);
  }

  lemma OthersFollow(shards: seq<Replica>, start: seq<Replica>, cmds: seq<Command>, k: nat, missed: set<int>)
    requires Follows(shards, start, cmds, k, missed) && k < |cmds| && !cmds[k].AddShard?
    ensures Active(ApplyTo(shards, cmds[k], k + 1)) == Without(Step(At(start, cmds, k), cmds[k], k + 1), missed)
    ensures ShardIds(ApplyTo(shards, cmds[k], k + 1)) == ShardIds(shards)
  {
    var view := At(start, cmds, k);
    match cmds[k]
    case RemoveShard(shard) =>
      DeactivateFacts(shards, {shard});
      WithoutTwice(view, missed, {shard});
    case SetPrimary(shard, replica) =>
      PromoteFacts(shards, shard, replica, k + 1);
      PromoteWithout(view, shard, replica, k + 1, missed);
    case Unknown =>
  }

  /** A shard the list newly remembers is in the topology now. */
  lemma AddedIsSeen(shards: seq<Replica>, start: seq<Replica>, cmds: seq<Command>, k: nat, missed: set<int>, id: int)
    requires NoReAdd(start, cmds) && Follows(shards, start, cmds, k, missed) && k < |cmds| && cmds[k].AddShard?
    requires id in ShardIds(ApplyTo(shards, cmds[k], k + 1)) && id !in ShardIds(shards)
    ensures id in ShardIds(At(start, cmds, k + 1))
  {
    var added := NewReplicas(cmds[k].shard, cmds[k].members, k + 1);
    NewReplicasFacts(cmds[k].shard, cmds[k].members, k + 1, {});
    IdsOfSum(shards, added);
    AtNext(start, cmds, k);
    IdsOfSum(At(start, cmds, k), added);
  }

  lemma StepFollows(shards: seq<Replica>, start: seq<Replica>, cmds: seq<Command>, k: nat, missed: set<int>)
    requires NoReAdd(start, cmds) && Follows(shards, start, cmds, k, missed) && k < |cmds|
    ensures Follows(ApplyTo(shards, cmds[k], k + 1), start, cmds, k + 1, missed)
  {
    AtNext(start, cmds, k);
    var shards' := ApplyTo(shards, cmds[k], k + 1);
    if cmds[k].AddShard? {
      AddFollows(shards, start, cmds, k, missed);
      IdsOfSum(shards, NewReplicas(cmds[k].shard, cmds[k].members, k + 1));
    } else {
      OthersFollow(shards, start, cmds, k, missed);
    }
    forall id | id in ShardIds(shards') && id !in missed ensures Seen(start, cmds, k + 1, id) {
      if id in ShardIds(shards) {
        assert Seen(start, cmds, k, id);
      } else {
        AddedIsSeen(shards, start, cmds, k, missed, id);
      }
    }
  }

  lemma WithoutLast(cmds: seq<Command>, from: nat, last: nat)
    requires from < last <= |cmds|
    ensures cmds[from..last][..last - from - 1] == cmds[from..last - 1]
  {
  }

  lemma ApplyAllLast(shards: seq<Replica>, part: seq<Command>, base: nat)
    requires part != []
    ensures ApplyAll(shards, part, base) ==
            ApplyTo(ApplyAll(shards, part[..|part| - 1], base), part[|part| - 1], base + |part|)
  {
  }

  lemma ReplayNext(shards: seq<Replica>, cmds: seq<Command>, from: nat, last: nat)
    requires from < last <= |cmds|
    ensures ApplyAll(shards, cmds[from..last], from) ==
            ApplyTo(ApplyAll(shards, cmds[from..last - 1], from), cmds[last - 1], last)
  {
    var part := cmds[from..last];
    assert |part| == last - from && part[last - from - 1] == cmds[last - 1];
    WithoutLast(cmds, from, last);
    ApplyAllLast(shards, part, from);
  }

  lemma {:induction false} ReplayFollows(
    shards: seq<Replica>, start: seq<Replica>, cmds: seq<Command>, from: nat, last: nat, missed: set<int>)
    requires NoReAdd(start, cmds) && Follows(shards, start, cmds, from, missed) && from <= last <= |cmds|
    ensures Follows(ApplyAll(shards, cmds[from..last], from), start, cmds, last, missed)
    decreases last
  {
    if from == last {
      assert cmds[from..last] == [];
    } else {
      ReplayFollows(shards, start, cmds, from, last - 1, missed);
      StepFollows(ApplyAll(shards, cmds[from..last - 1], from), start, cmds, last - 1, missed);
      ReplayNext(shards, cmds, from, last);
    }
  }

  lemma RestoreShowsSnapshot(shards: seq<Replica>, data: seq<Replica>)
    requires AllOn(data)
    ensures Active(Restore(shards, Saved(data))) == data
    ensures ShardIds(Restore(shards, Saved(data))) == ShardIds(shards) + ShardIds(data)
  {
    var off := Deactivate(shards, ShardIds(shards));
    DeactivateFacts(shards, ShardIds(shards));
    ActiveIdsKnown(shards);
    IdsWithout(Active(shards), ShardIds(shards));
    NoIdsNoReplicas(Active(off));
    ActiveOfSum(off, data);
    AllActive(data);
    IdsOfSum(off, data);
  }

  lemma NoIdsNoReplicas(view: seq<Replica>)
    ensures ShardIds(view) == {} <==> view == []
  {
  }

  /** Right after a snapshot is applied, the shards the list remembers and the snapshot lacks are missed. */
  lemma RestoreFollows(shards: seq<Replica>, start: seq<Replica>, cmds: seq<Command>, k: nat)
    requires AllOn(start) && k <= |cmds|
    ensures var data := At(start, cmds, k);
            Follows(Restore(shards, Saved(data)), start, cmds, k, ShardIds(shards) - ShardIds(data))
  {
    var data := At(start, cmds, k);
    AtAllOn(start, cmds, k);
    RestoreShowsSnapshot(shards, data);
    WithoutAbsent(data, ShardIds(shards) - ShardIds(data));
  }

  // ---- One call of apply_pending_raft_commands ----

  /** The coordinator shows the reference after k commands, with the ring built on it. */
  ghost predicate Tracks(s: State, start: seq<Replica>, cmds: seq<Command>, k: nat) {
    && Follows(s.shards, start, cmds, k, {})
    && s.ring == ShardIds(At(start, cmds, k))
  }

  lemma TracksShows(s: State, start: seq<Replica>, cmds: seq<Command>, k: nat)
    requires k <= |cmds|
    ensures Follows(s.shards, start, cmds, k, {}) <==>
            Active(s.shards) == At(start, cmds, k) && forall id :: id in ShardIds(s.shards) ==> Seen(start, cmds, k, id)
  {
    WithoutAbsent(At(start, cmds, k), {});
  }

  /** A status that reports the committed commands and a snapshot of the reference. */
  ghost predicate Reports(st: Status, start: seq<Replica>, cmds: seq<Command>) {
    && st.Last() <= |cmds| && st.applied == cmds[st.snapIndex..st.Last()]
    && (st.snapIndex > 0 ==> st.snapData == Saved(At(start, cmds, st.snapIndex)))
  }

  /** The coordinator has applied k commands and, unless it starts over, its cursor says so. */
  ghost predicate InStep(s: State, st: Status, k: nat) {
    k <= st.Last() && (!Restores(s, st) ==> k == st.snapIndex + s.localApplied)
  }

  /** The shards that the coordinator's list remembers and an arriving snapshot does not hold. */
  function Missed(s: State, st: Status): set<int> {
    if Restores(s, st) && st.snapData.Saved? then ShardIds(s.shards) - ShardIds(st.snapData.replicas) else {}
  }

  /** Where the call starts applying commands, the list shows the reference apart from the missed shards. */
  lemma StartFollows(s: State, st: Status, start: seq<Replica>, cmds: seq<Command>, k: nat)
    requires AllOn(start) && Reports(st, start, cmds) && Tracks(s, start, cmds, k) && InStep(s, st, k)
    ensures var (shards, cursor) := StartFrom(s, st);
            cursor <= |st.applied| && Follows(shards, start, cmds, st.snapIndex + cursor, Missed(s, st))
  {
    if Restores(s, st) { RestoreFollows(s.shards, start, cmds, st.snapIndex); }
  }

  lemma CatchUpAppliesAll(s: State, st: Status, cmds: seq<Command>)
    requires st.Last() <= |cmds| && st.applied == cmds[st.snapIndex..st.Last()]
    requires StartFrom(s, st).1 <= |st.applied|
    ensures var (shards, cursor) := StartFrom(s, st);
            CatchUp(s, st).shards == ApplyAll(shards, cmds[st.snapIndex + cursor..st.Last()], st.snapIndex + cursor)
  {
  }

  lemma FollowsFrom(s: State, st: Status, start: seq<Replica>, cmds: seq<Command>, shards: seq<Replica>, from: nat, missed: set<int>)
    requires NoReAdd(start, cmds) && Follows(shards, start, cmds, from, missed) && from <= st.Last() <= |cmds|
    requires CatchUp(s, st).shards == ApplyAll(shards, cmds[from..st.Last()], from)
    ensures Follows(CatchUp(s, st).shards, start, cmds, st.Last(), missed)
  {
    ReplayFollows(shards, start, cmds, from, st.Last(), missed);
  }

  /** Whatever is missed, the call ends with the reference apart from the missed shards. */
  lemma CatchUpShowsAllButMissed(s: State, st: Status, start: seq<Replica>, cmds: seq<Command>, k: nat)
    requires AllOn(start) && NoReAdd(start, cmds) && Reports(st, start, cmds) && Tracks(s, start, cmds, k) && InStep(s, st, k)
    ensures Follows(CatchUp(s, st).shards, start, cmds, st.Last(), Missed(s, st))
  {
    StartFollows(s, st, start, cmds, k);
    CatchUpAppliesAll(s, st, cmds);
    FollowsFrom(s, st, start, cmds, StartFrom(s, st).0, st.snapIndex + StartFrom(s, st).1, Missed(s, st));
  }

  lemma CatchUpBuildsRing(s: State, st: Status)
    requires s.ring == ShardIds(Active(s.shards))
    ensures CatchUp(s, st).ring == ShardIds(Active(CatchUp(s, st).shards))
  {
  }

  // ---- Which shards the reported commands leave in the topology ----

  predicate Adds(cmd: Command, id: int) {
    cmd.AddShard? && cmd.shard == id && cmd.members != []
  }

  predicate Removes(cmd: Command, id: int) {
    cmd.RemoveShard? && cmd.shard == id
  }

  /** Some command adds the shard with members and no later one removes it. */
  ghost predicate AddedForGood(cmds: seq<Command>, id: int) {
    exists i :: 0 <= i < |cmds| && Adds(cmds[i], id) && forall j :: i < j < |cmds| ==> !Removes(cmds[j], id)
  }

  lemma AddedForGoodNext(cmds: seq<Command>, id: int)
    requires cmds != []
    ensures var front, last := cmds[..|cmds| - 1], cmds[|cmds| - 1];
            AddedForGood(cmds, id) <==> Adds(last, id) || (AddedForGood(front, id) && !Removes(last, id))
  {
    var front, last := cmds[..|cmds| - 1], cmds[|cmds| - 1];
    if Adds(last, id) { assert Adds(cmds[|cmds| - 1], id); }
    if AddedForGood(front, id) && !Removes(last, id) {
      var i :| 0 <= i < |front| && Adds(front[i], id) && forall j :: i < j < |front| ==> !Removes(front[j], id);
      assert Adds(cmds[i], id) && forall j :: i < j < |cmds| ==> j == |cmds| - 1 || cmds[j] == front[j];
    }
    if AddedForGood(cmds, id) && !Adds(last, id) {
      var i :| 0 <= i < |cmds| && Adds(cmds[i], id) && forall j :: i < j < |cmds| ==> !Removes(cmds[j], id);
      assert Adds(front[i], id) && forall j :: i < j < |front| ==> front[j] == cmds[j];
      assert !Removes(cmds[|cmds| - 1], id);
    }
  }

  lemma StepPresence(view: seq<Replica>, cmd: Command, epoch: nat, id: int)
    ensures id in ShardIds(Step(view, cmd, epoch)) <==> Adds(cmd, id) || (id in ShardIds(view) && !Removes(cmd, id))
  {
    match cmd
    case AddShard(shard, members) =>
      NewReplicasFacts(shard, members, epoch, {});
      IdsOfSum(view, NewReplicas(shard, members, epoch));
    case RemoveShard(shard) => IdsWithout(view, {shard});
    case SetPrimary(shard, replica) => PromoteFacts(view, shard, replica, epoch);
    case Unknown =>
  }

  /** A shard that was not there before the commands is there afterwards exactly if it was added for good. */
  lemma {:induction false} NewShardPresence(view: seq<Replica>, cmds: seq<Command>, base: nat, id: int)
    requires id !in ShardIds(view)
    ensures id in ShardIds(Fold(view, cmds, base)) <==> AddedForGood(cmds, id)
  {
    if cmds == [] {
    } else {
      var front, last := cmds[..|cmds| - 1], cmds[|cmds| - 1];
      NewShardPresence(view, front, base, id);
      StepPresence(Fold(view, front, base), last, base + |cmds|, id);
      AddedForGoodNext(cmds, id);
    }
  }

  lemma {:induction false} FoldOfSum(view: seq<Replica>, a: seq<Command>, b: seq<Command>, base: nat)
    ensures Fold(view, a + b, base) == Fold(Fold(view, a, base), b, base + |a|)
  {
    if b == [] {
      assert a + b == a;
    } else {
      assert (a + b)[..|a + b| - 1] == a + b[..|b| - 1];
      FoldOfSum(view, a, b[..|b| - 1], base);
    }
  }

  lemma {:induction false} ApplyAllOfSum(shards: seq<Replica>, a: seq<Command>, b: seq<Command>, base: nat)
    ensures ApplyAll(shards, a + b, base) == ApplyAll(ApplyAll(shards, a, base), b, base + |a|)
  {
    if b == [] {
      assert a + b == a;
    } else {
      assert (a + b)[..|a + b| - 1] == a + b[..|b| - 1];
      ApplyAllOfSum(shards, a, b[..|b| - 1], base);
    }
  }

  /** Folding the reported commands over the reported snapshot gives the reference. */
  lemma ReportedFold(st: Status, start: seq<Replica>, cmds: seq<Command>)
    requires Reports(st, start, cmds) && st.snapIndex > 0
    ensures Fold(st.snapData.replicas, st.applied, st.snapIndex) == At(start, cmds, st.Last())
  {
    FoldOfSum(start, cmds[..st.snapIndex], st.applied, 0);
    assert cmds[..st.snapIndex] + st.applied == cmds[..st.Last()];
  }

  /** No reported add_shard names a missed shard and stands to the end. */
  ghost predicate NoneAddedBack(s: State, st: Status) {
    forall id :: id in Missed(s, st) ==> !AddedForGood(st.applied, id)
  }

  lemma NoneAddedBackMeans(s: State, st: Status, start: seq<Replica>, cmds: seq<Command>)
    requires Reports(st, start, cmds)
    ensures NoneAddedBack(s, st) <==> ShardIds(At(start, cmds, st.Last())) !! Missed(s, st)
  {
    var present, missed := ShardIds(At(start, cmds, st.Last())), Missed(s, st);
    forall id | id in missed ensures AddedForGood(st.applied, id) <==> id in present {
      ReportedFold(st, start, cmds);
      NewShardPresence(st.snapData.replicas, st.applied, st.snapIndex, id);
    }
    assert present !! missed ==> forall id :: id in missed ==> id !in present;
    assert (forall id :: id in missed ==> id !in present) ==> present !! missed;
  }

  /** Snapshot plus suffix equals full replay exactly when no reported add_shard of a missed shard stands to
      the end: its existence check also counts the replicas that the snapshot has just retired. */
  lemma CatchUpIsReplay(s: State, st: Status, start: seq<Replica>, cmds: seq<Command>, k: nat)
    requires AllOn(start) && NoReAdd(start, cmds) && Reports(st, start, cmds) && Tracks(s, start, cmds, k) && InStep(s, st, k)
    ensures Active(CatchUp(s, st).shards) == At(start, cmds, st.Last()) <==> NoneAddedBack(s, st)
  {
    CatchUpShowsAllButMissed(s, st, start, cmds, k);
    WithoutAbsent(At(start, cmds, st.Last()), Missed(s, st));
    NoneAddedBackMeans(s, st, start, cmds);
  }

  // ---- When a call is safe ----

  lemma SeenLater(start: seq<Replica>, cmds: seq<Command>, k: nat, k': nat, id: int)
    requires k <= k' <= |cmds| && Seen(start, cmds, k, id)
    ensures Seen(start, cmds, k', id)
  {
  }

  /** After a safe call the coordinator tracks the reference up to everything the node reported. */
  lemma SafeCatchUpTracks(s: State, st: Status, start: seq<Replica>, cmds: seq<Command>, k: nat)
    requires AllOn(start) && NoReAdd(start, cmds) && Reports(st, start, cmds) && Tracks(s, start, cmds, k) && InStep(s, st, k)
    requires NoneAddedBack(s, st)
    ensures Tracks(CatchUp(s, st), start, cmds, st.Last())
  {
    var s' := CatchUp(s, st);
    CatchUpShowsAllButMissed(s, st, start, cmds, k);
    CatchUpIsReplay(s, st, start, cmds, k);
    TracksShows(s, start, cmds, k);
    CatchUpBuildsRing(s, st);
    forall id | id in ShardIds(s'.shards) ensures Seen(start, cmds, st.Last(), id) {
      if id in Missed(s, st) {
        assert Seen(start, cmds, k, id);
        SeenLater(start, cmds, k, st.Last(), id);
      }
    }
    TracksShows(s', start, cmds, st.Last());
  }

  lemma GoneStep(start: seq<Replica>, cmds: seq<Command>, k: nat, id: int)
    requires NoReAdd(start, cmds) && k < |cmds| && Seen(start, cmds, k, id)
    requires id !in ShardIds(At(start, cmds, k))
    ensures id !in ShardIds(At(start, cmds, k + 1))
  {
    AtNext(start, cmds, k);
    StepPresence(At(start, cmds, k), cmds[k], k + 1, id);
  }

  /** A shard that has left the topology does not come back. */
  lemma {:induction false} GoneStaysGone(start: seq<Replica>, cmds: seq<Command>, k: nat, k': nat, id: int)
    requires NoReAdd(start, cmds) && k <= k' <= |cmds| && Seen(start, cmds, k, id)
    requires id !in ShardIds(At(start, cmds, k))
    ensures id !in ShardIds(At(start, cmds, k'))
    decreases k' - k
  {
    if k == k' {
    } else {
      GoneStep(start, cmds, k, id);
      SeenLater(start, cmds, k, k + 1, id);
      GoneStaysGone(start, cmds, k + 1, k', id);
    }
  }

  /** A snapshot that is not behind what the coordinator has applied always gives a safe call. */
  lemma ForwardCatchUpIsSafe(s: State, st: Status, start: seq<Replica>, cmds: seq<Command>, k: nat)
    requires NoReAdd(start, cmds) && Reports(st, start, cmds) && Tracks(s, start, cmds, k)
    requires st.snapIndex >= k
    ensures NoneAddedBack(s, st)
  {
    NoneAddedBackMeans(s, st, start, cmds);
    forall id | id in Missed(s, st) ensures id !in ShardIds(At(start, cmds, st.Last())) {
      assert Seen(start, cmds, k, id);
      SeenLater(start, cmds, k, st.snapIndex, id);
      GoneStaysGone(start, cmds, st.snapIndex, st.Last(), id);
    }
  }

  // ---- The existence check ----

  lemma AddIsStep(shards: seq<Replica>, shard: int, members: seq<Endpoint>, epoch: nat)
    ensures Active(ApplyTo(shards, AddShard(shard, members), epoch)) == Step(Active(shards), AddShard(shard, members), epoch)
       <==> !(members != [] && shard in ShardIds(shards) - ShardIds(Active(shards)))
  {
    NewReplicasFacts(shard, members, epoch, {});
    ActiveOfSum(shards, NewReplicas(shard, members, epoch));
    ActiveIdsKnown(shards);
    assert members != [] ==> NewReplicas(shard, members, epoch) != [];
  }

  /** One command does to the list what it does to the reference, unless it adds a shard of which the
      list only remembers retired replicas. */
  lemma CommandIsStep(shards: seq<Replica>, cmd: Command, epoch: nat)
    ensures Active(ApplyTo(shards, cmd, epoch)) == Step(Active(shards), cmd, epoch) <==>
            !(cmd.AddShard? && cmd.members != [] && cmd.shard in ShardIds(shards) - ShardIds(Active(shards)))
  {
    match cmd
    case AddShard(shard, members) => AddIsStep(shards, shard, members, epoch);
    case RemoveShard(shard) => DeactivateFacts(shards, {shard});
    case SetPrimary(shard, replica) => PromoteFacts(shards, shard, replica, epoch);
    case Unknown =>
  }

  function OneReplica(shard: int): Command {
    AddShard(shard, [Endpoint(0, "host", 9000, true)])
  }

  function TheReplica(shard: int, epoch: nat): Replica {
    Replica(shard, 0, "host", 9000, true, epoch, true)
  }

  lemma OneReplicaAdds(shard: int, epoch: nat)
    ensures NewReplicas(shard, OneReplica(shard).members, epoch) == [TheReplica(shard, epoch)]
  {
  }

  /** Adding a removed shard again: a coordinator that saw the removal ignores the command, one that
      starts from a snapshot taken after the removal does not. */
  lemma ReAddDiverges()
    ensures var retired := [TheReplica(1, 1).(active := false)];
            && Active(retired) == [] && Active(ApplyTo(retired, OneReplica(1), 3)) == []
            && Active(ApplyTo([], OneReplica(1), 3)) == [TheReplica(1, 3)]
  {
  }

  // ---- Epochs ----

  /** No epoch in the list is above `bound`. */
  ghost predicate Low(shards: seq<Replica>, bound: nat) {
    forall i :: 0 <= i < |shards| ==> shards[i].epoch <= bound
  }

  /** Command c stamps shard `id`. */
  predicate Stamps(cmd: Command, id: int) {
    (cmd.AddShard? || cmd.SetPrimary?) && cmd.shard == id
  }

  /** A replica's epoch is the absolute index of the command that set it, and no later set_primary names its shard. */
  ghost predicate EpochOk(r: Replica, cmds: seq<Command>, k: nat)
    requires k <= |cmds|
  {
    && (r.epoch > 0 ==> r.epoch <= k && Stamps(cmds[r.epoch - 1], r.shard))
    && forall j: nat :: r.epoch <= j < k ==> !(cmds[j].SetPrimary? && cmds[j].shard == r.shard)
  }

  ghost predicate EpochsOk(view: seq<Replica>, cmds: seq<Command>, k: nat)
    requires k <= |cmds|
  {
    forall i :: 0 <= i < |view| ==> EpochOk(view[i], cmds, k)
  }

  lemma {:induction false} WithoutKeeps(view: seq<Replica>, ids: set<int>, i: nat)
    requires i < |Without(view, ids)|
    ensures Without(view, ids)[i] in view
  {
    var front := view[..|view| - 1];
    if i == |Without(front, ids)| {
    } else {
      WithoutKeeps(front, ids, i);
    }
  }

  lemma {:induction false} PromoteAt(view: seq<Replica>, shard: int, replica: int, epoch: nat, i: nat)
    requires i < |view|
    ensures |Promote(view, shard, replica, epoch)| == |view|
    ensures Promote(view, shard, replica, epoch)[i] ==
            if view[i].shard == shard then view[i].(primary := view[i].replica == replica, epoch := epoch) else view[i]
  {
    if |view| <= 1 {
    } else {
      PromoteAt(view[..|view| - 1], shard, replica, epoch, if i < |view| - 1 then i else 0);
    }
  }

  lemma {:induction false} NewReplicasLength(shard: int, members: seq<Endpoint>, epoch: nat)
    ensures |NewReplicas(shard, members, epoch)| == |members|
  {
    if members == [] {
    } else {
      NewReplicasLength(shard, members[..|members| - 1], epoch);
    }
  }

  /** One replica per member, in order: the member's id, address and mark, the command's epoch, active. */
  lemma {:induction false} NewReplicasAt(shard: int, members: seq<Endpoint>, epoch: nat, i: nat)
    requires i < |NewReplicas(shard, members, epoch)|
    ensures |NewReplicas(shard, members, epoch)| == |members|
    ensures var r, m := NewReplicas(shard, members, epoch)[i], members[i];
            && r.shard == shard && r.replica == m.replica && r.host == m.host && r.port == m.port
            && r.primary == m.primary && r.epoch == epoch && r.active
  {
    NewReplicasLength(shard, members, epoch);
    var front := members[..|members| - 1];
    NewReplicasLength(shard, front, epoch);
    if i == |front| {
    } else {
      NewReplicasAt(shard, front, epoch, i);
    }
  }

  lemma {:induction false} PromoteLength(view: seq<Replica>, shard: int, replica: int, epoch: nat)
    ensures |Promote(view, shard, replica, epoch)| == |view|
  {
    if view == [] {
    } else {
      PromoteLength(view[..|view| - 1], shard, replica, epoch);
    }
  }

  lemma KeptEpochOk(r: Replica, cmds: seq<Command>, k: nat)
    requires k < |cmds| && EpochOk(r, cmds, k) && !(cmds[k].SetPrimary? && cmds[k].shard == r.shard)
    ensures EpochOk(r, cmds, k + 1)
  {
  }

  lemma AddedEpochOk(view: seq<Replica>, cmds: seq<Command>, k: nat, i: nat)
    requires k < |cmds| && cmds[k].AddShard? && EpochsOk(view, cmds, k) && i < |Step(view, cmds[k], k + 1)|
    ensures EpochOk(Step(view, cmds[k], k + 1)[i], cmds, k + 1)
  {
    if i < |view| {
      KeptEpochOk(view[i], cmds, k);
    } else {
      NewReplicasAt(cmds[k].shard, cmds[k].members, k + 1, i - |view|);
    }
  }

  lemma PromotedEpochOk(view: seq<Replica>, cmds: seq<Command>, k: nat, i: nat)
    requires k < |cmds| && cmds[k].SetPrimary? && EpochsOk(view, cmds, k) && i < |view|
    ensures |Step(view, cmds[k], k + 1)| == |view| && EpochOk(Step(view, cmds[k], k + 1)[i], cmds, k + 1)
  {
    PromoteAt(view, cmds[k].shard, cmds[k].replica, k + 1, i);
    if view[i].shard != cmds[k].shard { KeptEpochOk(view[i], cmds, k); }
  }

  lemma StepEpochsOk(view: seq<Replica>, cmds: seq<Command>, k: nat, i: nat)
    requires k < |cmds| && EpochsOk(view, cmds, k) && i < |Step(view, cmds[k], k + 1)|
    ensures EpochOk(Step(view, cmds[k], k + 1)[i], cmds, k + 1)
  {
    match cmds[k]
    case AddShard(_, _) => AddedEpochOk(view, cmds, k, i);
    case RemoveShard(shard) =>
      WithoutKeeps(view, {shard}, i);
      KeptEpochOk(Without(view, {shard})[i], cmds, k);
    case SetPrimary(shard, replica) =>
      PromoteLength(view, shard, replica, k + 1);
      PromotedEpochOk(view, cmds, k, i);
    case Unknown => KeptEpochOk(view[i], cmds, k);
  }

  /** In the reference every epoch is the log index of the last command that set it; 0 means none did. */
  lemma {:induction false} EpochIsCommandIndex(start: seq<Replica>, cmds: seq<Command>, k: nat)
    requires k <= |cmds| && forall i :: 0 <= i < |start| ==> start[i].epoch == 0
    ensures EpochsOk(At(start, cmds, k), cmds, k)
  {
    if k == 0 {
      assert cmds[..0] == [];
    } else {
      EpochIsCommandIndex(start, cmds, k - 1);
      AtNext(start, cmds, k - 1);
      var view := At(start, cmds, k);
      forall i | 0 <= i < |view| ensures EpochOk(view[i], cmds, k) {
        StepEpochsOk(At(start, cmds, k - 1), cmds, k - 1, i);
      }
    }
  }
}
