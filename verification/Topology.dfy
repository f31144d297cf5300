/** The replicated topology: shards, primaries and epochs (cluster/coordinator_main.cpp).

    `State` is what one coordinator holds and `CatchUp` and `Trigger` are the two halves of
    apply_pending_raft_commands. `Fold` is the reference: the topology after a list of commands. */
module Topology {

  /** One ShardClient; retired replicas stay in the list with `active` off. */
  datatype Replica = Replica(shard: int, replica: int, host: string, port: int, primary: bool, epoch: nat, active: bool)

  datatype Endpoint = Endpoint(replica: int, host: string, port: int, primary: bool)

  /** A parsed command; `Unknown` stands for every string that is not one of the three. */
  datatype Command =
    | AddShard(shard: int, members: seq<Endpoint>)
    | RemoveShard(shard: int)
    | SetPrimary(shard: int, replica: int)
    | Unknown

  const COMPACTION_THRESHOLD := 64

  // ---- Lists of replicas ----

  function Active(shards: seq<Replica>): (v: seq<Replica>)
    ensures |v| <= |shards|
  {
    if shards == [] then []
    else
      var last := shards[|shards| - 1];
      Active(shards[..|shards| - 1]) + (if last.active then [last] else [])
  }

  function ShardIds(shards: seq<Replica>): set<int> {
    if shards == [] then {} else ShardIds(shards[..|shards| - 1]) + {shards[|shards| - 1].shard}
  }

  /** The replicas of shards other than `ids`. */
  function Without(view: seq<Replica>, ids: set<int>): (v: seq<Replica>)
    ensures |v| <= |view|
  {
    if view == [] then []
    else
      var last := view[|view| - 1];
      Without(view[..|view| - 1], ids) + (if last.shard in ids then [] else [last])
  }

  function Deactivate(shards: seq<Replica>, ids: set<int>): seq<Replica> {
    if shards == [] then []
    else
      var last := shards[|shards| - 1];
      Deactivate(shards[..|shards| - 1], ids) + [if last.shard in ids then last.(active := false) else last]
  }

  function Promote(shards: seq<Replica>, shard: int, replica: int, epoch: nat): seq<Replica> {
    if shards == [] then []
    else
      var last := shards[|shards| - 1];
      Promote(shards[..|shards| - 1], shard, replica, epoch) +
      [if last.shard == shard then last.(primary := last.replica == replica, epoch := epoch) else last]
  }

  function NewReplicas(shard: int, members: seq<Endpoint>, epoch: nat): seq<Replica> {
    if members == [] then []
    else
      var m := members[|members| - 1];
      NewReplicas(shard, members[..|members| - 1], epoch) +
      [Replica(shard, m.replica, m.host, m.port, m.primary, epoch, true)]
  }

  // ---- The reference ----

  /** The active replicas after one more command, which has absolute log index `epoch`. */
  function Step(view: seq<Replica>, cmd: Command, epoch: nat): seq<Replica> {
    match cmd
    case AddShard(shard, members) =>
      if shard in ShardIds(view) then view else view + NewReplicas(shard, members, epoch)
    case RemoveShard(shard) => Without(view, {shard})
    case SetPrimary(shard, replica) => Promote(view, shard, replica, epoch)
    case Unknown => view
  }

  /** The active replicas after `cmds`, the first of which has absolute index base + 1. */
  function Fold(view: seq<Replica>, cmds: seq<Command>, base: nat): seq<Replica> {
    if cmds == [] then view
    else Step(Fold(view, cmds[..|cmds| - 1], base), cmds[|cmds| - 1], base + |cmds|)
  }

  // ---- One coordinator ----

  datatype State = State(shards: seq<Replica>, ring: set<int>, localApplied: nat, snapshotApplied: nat)

  /** The text of a snapshot; `Unreadable` stands for the empty string and every text that does not parse. */
  datatype SnapText = Unreadable | Saved(replicas: seq<Replica>)

  /** What the Raft node reports: its snapshot and the commands applied since. */
  datatype Status = Status(snapIndex: nat, snapData: SnapText, applied: seq<Command>) {
    function Last(): nat { snapIndex + |applied| }
  }

  function ApplyTo(shards: seq<Replica>, cmd: Command, epoch: nat): seq<Replica> {
    match cmd
    case AddShard(shard, members) =>
      if shard in ShardIds(shards) then shards else shards + NewReplicas(shard, members, epoch)
    case RemoveShard(shard) => Deactivate(shards, {shard})
    case SetPrimary(shard, replica) => Promote(shards, shard, replica, epoch)
    case Unknown => shards
  }

  /** Retired and stale replicas stay in the list, and those of the snapshot are added behind them. An
      unreadable snapshot changes nothing. */
  function Restore(shards: seq<Replica>, data: SnapText): seq<Replica> {
    match data
    case Unreadable => shards
    case Saved(replicas) => Deactivate(shards, ShardIds(shards)) + replicas
  }

  function ApplyAll(shards: seq<Replica>, cmds: seq<Command>, base: nat): seq<Replica> {
    if cmds == [] then shards
    else ApplyTo(ApplyAll(shards, cmds[..|cmds| - 1], base), cmds[|cmds| - 1], base + |cmds|)
  }

  /** Whether this status makes the coordinator start over from the snapshot. */
  predicate Restores(s: State, st: Status) {
    st.snapIndex > s.snapshotApplied
  }

  /** The list and the cursor from which the commands of `st` are applied. */
  function StartFrom(s: State, st: Status): (seq<Replica>, nat) {
    if Restores(s, st) then (Restore(s.shards, st.snapData), 0) else (s.shards, s.localApplied)
  }

  /** apply_pending_raft_commands up to the compaction trigger. */
  function CatchUp(s: State, st: Status): (s': State)
  {
    var (shards, cursor) := StartFrom(s, st);
    var snapshotApplied := if Restores(s, st) then st.snapIndex else s.snapshotApplied;
    if |st.applied| <= cursor then
      State(shards, if Restores(s, st) && st.snapData.Saved? then ShardIds(Active(shards)) else s.ring, cursor, snapshotApplied)
    else
      var all := ApplyAll(shards, st.applied[cursor..], st.snapIndex + cursor);
      State(all, ShardIds(Active(all)), |st.applied|, snapshotApplied)
  }

  /** Whether the call goes on to the compaction trigger, and the trigger fires. */
  predicate Fires(s: State, st: Status) {
    |st.applied| > StartFrom(s, st).1 && |st.applied| >= COMPACTION_THRESHOLD
  }

  /** RaftNode::compact as the coordinator sees it. */
  function Compact(node: Status, upTo: nat, data: seq<Replica>): (Status, bool) {
    if upTo <= node.snapIndex || upTo > node.Last() then (node, false)
    else (Status(upTo, Saved(data), node.applied[upTo - node.snapIndex..]), true)
  }
}
