/** Epoch fencing (cluster/shard_service_impl.hpp:142-161; cluster/coordinator_main.cpp:262-263, 303-311, 359-368). */
module Fencing {
  import opened Topology
  import opened TopologyReplay
  import opened TopologyRestart
  import opened TopologyRuns

  /** One shard replica's high-water mark. */
  class EpochGate {
    var currentEpoch: nat

    constructor ()
      ensures currentEpoch == 0
    {
      currentEpoch := 0;
    }

    method CheckAndAdvance(requestEpoch: nat) returns (accepted: bool)
      modifies this
      ensures accepted == (requestEpoch >= old(currentEpoch))
      ensures currentEpoch == if accepted then requestEpoch else old(currentEpoch)
    {
      if requestEpoch < currentEpoch { return false; }
      if requestEpoch > currentEpoch { currentEpoch := requestEpoch; }
      return true;
    }
  }

  /** The mark after a sequence of requests with these epochs. */
  function Mark(epochs: seq<nat>): nat {
    if epochs == [] then 0
    else
      var before, e := Mark(epochs[..|epochs| - 1]), epochs[|epochs| - 1];
      if e >= before then e else before
  }

  /** Request k is accepted. */
  predicate Accepted(epochs: seq<nat>, k: nat)
    requires k < |epochs|
  {
    epochs[k] >= Mark(epochs[..k])
  }

  /** A run of requests through the gate is what Mark and Accepted say. */
  method RunGate(gate: EpochGate, epochs: seq<nat>) returns (accepted: seq<bool>)
    requires gate.currentEpoch == 0
    modifies gate
    ensures gate.currentEpoch == Mark(epochs)
    ensures |accepted| == |epochs| && forall k :: 0 <= k < |epochs| ==> accepted[k] == Accepted(epochs, k)
  {
    accepted := [];
    for k := 0 to |epochs|
      invariant gate.currentEpoch == Mark(epochs[..k]) && |accepted| == k
      invariant forall j :: 0 <= j < k ==> accepted[j] == Accepted(epochs, j)
    {
      assert epochs[..k + 1][..k] == epochs[..k];
      var ok := gate.CheckAndAdvance(epochs[k]);
      accepted := accepted + [ok];
    }
    assert epochs[..|epochs|] == epochs;
  }

  /** Once a request was seen the mark is at least its epoch. */
  lemma {:induction false} MarkCovers(epochs: seq<nat>, i: nat, k: nat)
    requires i < k <= |epochs|
    ensures Mark(epochs[..k]) >= epochs[i]
  {
    assert epochs[..k][..k - 1] == epochs[..k - 1];
    if i == k - 1 {
    } else {
      MarkCovers(epochs, i, k - 1);
    }
  }

  /** A request is accepted exactly when its epoch is not below any request before it. */
  lemma {:induction false} AcceptedIffNotStale(epochs: seq<nat>, k: nat)
    requires k < |epochs|
    ensures Accepted(epochs, k) <==> forall i :: 0 <= i < k ==> epochs[i] <= epochs[k]
  {
    forall i | 0 <= i < k ensures Mark(epochs[..k]) >= epochs[i] { MarkCovers(epochs, i, k); }
    MarkIsSeen(epochs[..k]);
  }

  lemma {:induction false} MarkIsSeen(epochs: seq<nat>)
    ensures Mark(epochs) == 0 || exists i :: 0 <= i < |epochs| && epochs[i] == Mark(epochs)
  {
    if epochs == [] {
    } else {
      var front := epochs[..|epochs| - 1];
      MarkIsSeen(front);
      if Mark(epochs) == Mark(front) && Mark(front) != 0 {
        var i :| 0 <= i < |front| && front[i] == Mark(front);
        assert epochs[i] == Mark(epochs);
      }
    }
  }

  // ---- Epochs in any run ----

  ghost predicate LowText(data: SnapText, bound: nat) {
    data.Saved? ==> Low(data.replicas, bound)
  }

  lemma {:induction false} LowLists(shards: seq<Replica>, ids: set<int>, shard: int, replica: int, epoch: nat, bound: nat)
    requires Low(shards, bound) && epoch <= bound
    ensures Low(Deactivate(shards, ids), bound) && Low(Promote(shards, shard, replica, epoch), bound) && Low(Active(shards), bound)
  {
    if shards == [] {
    } else {
      LowLists(shards[..|shards| - 1], ids, shard, replica, epoch, bound);
    }
  }

  lemma {:induction false} LowNew(shard: int, members: seq<Endpoint>, epoch: nat, bound: nat)
    requires epoch <= bound
    ensures Low(NewReplicas(shard, members, epoch), bound)
  {
    if members == [] {
    } else {
      LowNew(shard, members[..|members| - 1], epoch, bound);
    }
  }

  lemma LowCommand(shards: seq<Replica>, cmd: Command, epoch: nat, bound: nat)
    requires Low(shards, bound) && epoch <= bound
    ensures Low(ApplyTo(shards, cmd, epoch), bound)
  {
    match cmd
    case AddShard(shard, members) => LowNew(shard, members, epoch, bound);
    case RemoveShard(shard) => LowLists(shards, {shard}, 0, 0, 0, bound);
    case SetPrimary(shard, replica) => LowLists(shards, {}, shard, replica, epoch, bound);
    case Unknown =>
  }

  lemma {:induction false} LowCommands(shards: seq<Replica>, cmds: seq<Command>, base: nat, bound: nat)
    requires Low(shards, bound) && base + |cmds| <= bound
    ensures Low(ApplyAll(shards, cmds, base), bound)
  {
    if cmds == [] {
    } else {
      LowCommands(shards, cmds[..|cmds| - 1], base, bound);
      LowCommand(ApplyAll(shards, cmds[..|cmds| - 1], base), cmds[|cmds| - 1], base + |cmds|, bound);
    }
  }

  /** A call stamps nothing above the last command the node reported. */
  lemma LowCatchUp(s: State, st: Status, k: nat)
    requires Low(s.shards, k) && LowText(st.snapData, st.snapIndex) && InStep(s, st, k)
    ensures Low(CatchUp(s, st).shards, st.Last())
  {
    var (shards, cursor) := StartFrom(s, st);
    LowLists(s.shards, ShardIds(s.shards), 0, 0, 0, st.Last());
    assert Low(shards, st.Last());
    if cursor < |st.applied| { LowCommands(shards, st.applied[cursor..], st.snapIndex + cursor, st.Last()); }
  }

  /** Every epoch a member lists is at most what it has applied, and every epoch in a snapshot at most its index. */
  ghost predicate StampsOk(m: Member) {
    && CountersOk(m) && Low(m.state.shards, m.AppliedIndex()) && LowText(m.node.snapData, m.node.snapIndex)
    && (m.reading.Reading? ==> LowText(m.reading.st.snapData, m.reading.st.snapIndex))
  }

  ghost predicate StampsInv(sys: System) {
    && (forall i :: 0 <= i < |sys.members| ==> StampsOk(sys.members[i]))
    && forall snapshot :: snapshot in sys.snapshots ==> Low(snapshot.1, snapshot.0)
  }

  lemma SettleStamps(node: Status, st: Status, s: State, fires: bool)
    requires Low(s.shards, st.Last()) && LowText(node.snapData, node.snapIndex)
    requires s.snapshotApplied == st.snapIndex <= node.snapIndex && st.Last() <= node.Last()
    requires st.snapIndex + s.localApplied == st.Last()
    ensures StampsOk(Settle(node, st, s, st.snapIndex, fires).0)
    ensures forall snapshot :: snapshot in Settle(node, st, s, st.snapIndex, fires).1 ==> Low(snapshot.1, snapshot.0)
  {
    LowLists(s.shards, {}, 0, 0, 0, st.Last());
  }

  lemma FinishStamps(m: Member)
    requires StampsOk(m) && m.reading.Reading?
    ensures StampsOk(FinishCall(m).0) && forall snapshot :: snapshot in FinishCall(m).1 ==> Low(snapshot.1, snapshot.0)
  {
    CallCounters(m);
    LowCatchUp(m.state, m.reading.st, m.AppliedIndex());
    SettleStamps(m.node, m.reading.st, CatchUp(m.state, m.reading.st), Fires(m.state, m.reading.st));
  }

  lemma InstallStamps(m: Member, index: nat, data: seq<Replica>)
    requires StampsOk(m) && Low(data, index)
    ensures StampsOk(m.(node := InstallOn(m.node, index, data)))
  {
  }

  lemma DoStamps(sys: System, a: Action)
    requires StampsInv(sys) && Enabled(sys, a)
    ensures StampsInv(Do(sys, a))
  {
    match a
    case Install(i, index, data) =>
      assert Low((index, data).1, (index, data).0);
      InstallStamps(sys.members[i], index, data);
    case Finish(i) => FinishStamps(sys.members[i]);
    case _ =>
  }

  lemma {:induction false} ChainStamps(trace: seq<System>, k: nat)
    requires k < |trace| && StampsInv(trace[0])
    requires forall j :: 0 <= j < k && StampsInv(trace[j]) ==> StampsInv(trace[j + 1])
    ensures StampsInv(trace[k])
  {
    if k == 0 {
    } else {
      ChainStamps(trace, k - 1);
    }
  }

  lemma RunStamps(trace: seq<System>, actions: seq<Action>, start: seq<Replica>, k: nat)
    requires AnyRun(trace, actions, start) && k < |trace|
    ensures StampsInv(trace[k])
  {
    forall j | 0 <= j < k && StampsInv(trace[j]) ensures StampsInv(trace[j + 1]) {
      DoStamps(trace[j], actions[j]);
    }
    ChainStamps(trace, k);
  }

  // ---- Coordinators that have not applied the promotion ----

  /** In any run a replica's epoch in the view of a coordinator is at most the number of commands it has applied. */
  lemma StampIsApplied(trace: seq<System>, actions: seq<Action>, start: seq<Replica>, k: nat, i: nat, r: Replica)
    requires AnyRun(trace, actions, start) && k < |trace| && i < |trace[k].members|
    requires r in Active(trace[k].members[i].state.shards)
    ensures r.epoch <= trace[k].members[i].AppliedIndex()
  {
    RunStamps(trace, actions, start, k);
    var m := trace[k].members[i];
    LowLists(m.state.shards, {}, 0, 0, 0, m.AppliedIndex());
  }

  /** Fencing: once a replica has seen a write stamped by the command at log index e, it refuses every
      later write of any coordinator, at any time of any run, that has not applied that command. */
  lemma StaleCoordinatorIsRefused(
    trace: seq<System>, actions: seq<Action>, start: seq<Replica>, t: nat, i: nat, r: Replica,
    epochs: seq<nat>, first: nat, later: nat, e: nat)
    requires AnyRun(trace, actions, start) && t < |trace| && i < |trace[t].members|
    requires r in Active(trace[t].members[i].state.shards) && trace[t].members[i].AppliedIndex() < e
    requires first < later < |epochs| && epochs[first] == e && epochs[later] == r.epoch
    ensures !Accepted(epochs, later)
  {
    StampIsApplied(trace, actions, start, t, i, r);
    MarkCovers(epochs, first, later);
  }

  /** A restarted coordinator loads no epochs. Until a set_primary of the shard follows, a replica accepts its
      writes exactly if it has never seen an epoch above 0. */
  lemma RestartedStampsZero(config: seq<Replica>, st: Status, r: Replica, epochs: seq<nat>, k: nat)
    requires AllOn(config) && Low(config, 0) && r.shard in ShardIds(config)
    requires !Removed(st.applied, r.shard) && !Promoted(st.applied, r.shard)
    requires r in Active(CatchUp(Restarted(config, st), st).shards) && k < |epochs| && epochs[k] == r.epoch
    ensures Accepted(epochs, k) <==> forall i :: 0 <= i < k ==> epochs[i] == 0
  {
    RestartedShardStays(config, st, r.shard);
    OfHolds(Active(CatchUp(Restarted(config, st), st).shards), r.shard);
    OfHolds(config, r.shard);
    assert r in config && r.epoch == 0;
    AcceptedIffNotStale(epochs, k);
  }

  /** A coordinator that has applied set_primary for a shard stamps its writes with that command's index
      until a later set_primary for it, or until the shard is removed. */
  lemma PromotionStamps(start: seq<Replica>, cmds: seq<Command>, e: nat, k: nat, j: nat)
    requires 0 < e <= k <= |cmds| && cmds[e - 1].SetPrimary? && cmds[e - 1].shard in ShardIds(At(start, cmds, e))
    requires forall i: nat :: e <= i < k ==> !((cmds[i].SetPrimary? || cmds[i].RemoveShard?) && cmds[i].shard == cmds[e - 1].shard)
    requires j < |At(start, cmds, k)| && At(start, cmds, k)[j].shard == cmds[e - 1].shard
    ensures At(start, cmds, k)[j].epoch == e
  {
    StampedSince(start, cmds, e, k);
  }

  /** All replicas of the shard carry the epoch. */
  ghost predicate Stamped(view: seq<Replica>, shard: int, epoch: nat) {
    shard in ShardIds(view) && forall i :: 0 <= i < |view| && view[i].shard == shard ==> view[i].epoch == epoch
  }

  lemma {:induction false} StampedSince(start: seq<Replica>, cmds: seq<Command>, e: nat, k: nat)
    requires 0 < e <= k <= |cmds| && cmds[e - 1].SetPrimary? && cmds[e - 1].shard in ShardIds(At(start, cmds, e))
    requires forall i: nat :: e <= i < k ==> !((cmds[i].SetPrimary? || cmds[i].RemoveShard?) && cmds[i].shard == cmds[e - 1].shard)
    ensures Stamped(At(start, cmds, k), cmds[e - 1].shard, e)
    decreases k
  {
    if k == e {
      AtNext(start, cmds, e - 1);
      StampedNow(At(start, cmds, e - 1), cmds[e - 1], e);
    } else {
      StampedSince(start, cmds, e, k - 1);
      AtNext(start, cmds, k - 1);
      StampedStays(At(start, cmds, k - 1), cmds[e - 1].shard, e, cmds[k - 1], k);
    }
  }

  lemma StampedNow(view: seq<Replica>, cmd: Command, epoch: nat)
    requires cmd.SetPrimary? && cmd.shard in ShardIds(Step(view, cmd, epoch))
    ensures Stamped(Step(view, cmd, epoch), cmd.shard, epoch)
  {
    var view' := Step(view, cmd, epoch);
    assert view' == Promote(view, cmd.shard, cmd.replica, epoch);
    PromotedIsStamped(view, cmd.shard, cmd.replica, epoch);
    forall i | 0 <= i < |view'| && view'[i].shard == cmd.shard ensures view'[i].epoch == epoch { }
  }

  lemma PromotedIsStamped(view: seq<Replica>, shard: int, replica: int, epoch: nat)
    ensures var view' := Promote(view, shard, replica, epoch);
            forall i :: 0 <= i < |view'| && view'[i].shard == shard ==> view'[i].epoch == epoch
  {
    var view' := Promote(view, shard, replica, epoch);
    PromoteLength(view, shard, replica, epoch);
    forall i | 0 <= i < |view'| && view'[i].shard == shard ensures view'[i].epoch == epoch {
      PromoteAt(view, shard, replica, epoch, i);
    }
  }

  lemma StampedStays(view: seq<Replica>, shard: int, epoch: nat, cmd: Command, k: nat)
    requires Stamped(view, shard, epoch) && !((cmd.SetPrimary? || cmd.RemoveShard?) && cmd.shard == shard)
    ensures Stamped(Step(view, cmd, k), shard, epoch)
  {
    var view' := Step(view, cmd, k);
    match cmd
    case AddShard(other, members) => AddedKeepsStamps(view, shard, epoch, other, members, k);
    case RemoveShard(other) =>
      IdsWithout(view, {other});
      forall i | 0 <= i < |view'| && view'[i].shard == shard ensures view'[i].epoch == epoch {
        WithoutKeeps(view, {other}, i);
      }
    case SetPrimary(other, replica) =>
      PromoteFacts(view, other, replica, k);
      PromoteLength(view, other, replica, k);
      forall i | 0 <= i < |view'| && view'[i].shard == shard ensures view'[i].epoch == epoch {
        PromoteAt(view, other, replica, k, i);
      }
    case Unknown =>
  }

  lemma AddedKeepsStamps(view: seq<Replica>, shard: int, epoch: nat, other: int, members: seq<Endpoint>, k: nat)
    requires Stamped(view, shard, epoch)
    ensures Stamped(Step(view, AddShard(other, members), k), shard, epoch)
  {
    var added := NewReplicas(other, members, k);
    IdsOfSum(view, added);
    forall i | 0 <= i < |added| ensures added[i].shard == other { NewReplicasAt(other, members, k, i); }
  }
}
