/** All coordinators of a cluster together: committing, applying, compacting and exchanging snapshots
    in any order (cluster/coordinator_main.cpp:194-333, cluster/raft_node.hpp:168-221). */
module TopologyRuns {
  import opened Topology
  import opened TopologyReplay

  datatype Reading = NotReading | Reading(st: Status)

  /** A coordinator and its Raft node. `reading` is a status that apply_pending_raft_commands has read and
      not finished with; `base` records the log index that `state.localApplied` counts from. */
  datatype Member = Member(state: State, node: Status, reading: Reading, base: nat) {
    /** How many committed commands the coordinator has applied. */
    function AppliedIndex(): nat { base + state.localApplied }
  }

  /** `cmds` is the committed list; `snapshots` holds every snapshot ever taken, any of which may arrive anywhere. */
  datatype System = System(cmds: seq<Command>, members: seq<Member>, snapshots: set<(nat, seq<Replica>)>)

  datatype Action =
    | Commit(cmd: Command)
    | Learn(i: nat, upTo: nat)
    | Install(i: nat, index: nat, data: seq<Replica>)
    | ReadStatus(i: nat)
    | Finish(i: nat)

  function InstallOn(node: Status, index: nat, data: seq<Replica>): Status {
    if index <= node.snapIndex then node
    else
      var trim := if index - node.snapIndex < |node.applied| then index - node.snapIndex else |node.applied|;
      Status(index, Saved(data), node.applied[trim..])
  }

  predicate Enabled(sys: System, a: Action) {
    && (!a.Commit? ==> a.i < |sys.members|)
    && (a.Learn? ==> sys.members[a.i].node.Last() <= a.upTo <= |sys.cmds|)
    && (a.Install? ==> (a.index, a.data) in sys.snapshots)
    && (a.Finish? ==> sys.members[a.i].reading.Reading?)
  }

  /** The end of a call that read `st` and caught up to `s`: it may compact the node as it is by now. */
  function Settle(node: Status, st: Status, s: State, base: nat, fires: bool): (Member, set<(nat, seq<Replica>)>) {
    var (node', compacted) := if fires then Compact(node, st.Last(), Active(s.shards)) else (node, false);
    if compacted then (Member(s.(localApplied := 0), node', NotReading, st.Last()), {(st.Last(), Active(s.shards))})
    else (Member(s, node', NotReading, base), {})
  }

  /** The second half of a call, with the status it has read. */
  function FinishCall(m: Member): (Member, set<(nat, seq<Replica>)>)
    requires m.reading.Reading?
  {
    var st := m.reading.st;
    var base := if Restores(m.state, st) then st.snapIndex else m.base;
    Settle(m.node, st, CatchUp(m.state, st), base, Fires(m.state, st))
  }

  function Do(sys: System, a: Action): System
    requires Enabled(sys, a)
  {
    match a
    case Commit(cmd) => sys.(cmds := sys.cmds + [cmd])
    case Learn(i, upTo) =>
      var m := sys.members[i];
      var node := m.node.(applied := m.node.applied + sys.cmds[m.node.Last()..upTo]);
      sys.(members := sys.members[i := m.(node := node)])
    case Install(i, index, data) =>
      var m := sys.members[i];
      sys.(members := sys.members[i := m.(node := InstallOn(m.node, index, data))])
    case ReadStatus(i) =>
      var m := sys.members[i];
      sys.(members := sys.members[i := m.(reading := Reading(m.node))])
    case Finish(i) =>
      var (m, taken) := FinishCall(sys.members[i]);
      sys.(members := sys.members[i := m], snapshots := sys.snapshots + taken)
  }

  /** What a call that goes back to an earlier snapshot needs: the reported commands do not add, and leave
      in place, a shard which the coordinator's list remembers and the snapshot lacks. */
  ghost predicate SafeCall(m: Member)
    requires m.reading.Reading?
  {
    var st := m.reading.st;
    Restores(m.state, st) && st.snapIndex < m.AppliedIndex() ==>
      NoneAddedBack(m.state, st)
  }

  // ---- The invariant ----

  ghost predicate ReadingOk(m: Member, start: seq<Replica>, cmds: seq<Command>) {
    m.reading.Reading? ==> Reports(m.reading.st, start, cmds)
  }

  /** How the counters of a coordinator stand to its node and to the status it is working on. */
  ghost predicate CountersOk(m: Member) {
    && m.state.snapshotApplied <= m.base <= m.node.snapIndex && m.AppliedIndex() <= m.node.Last()
    && (m.state.snapshotApplied < m.base ==> m.state.localApplied == 0)
    && (m.reading.Reading? ==>
          var st := m.reading.st;
          m.base <= st.snapIndex <= m.node.snapIndex && m.AppliedIndex() <= st.Last() <= m.node.Last())
  }

  ghost predicate MemberOk(m: Member, start: seq<Replica>, cmds: seq<Command>) {
    && Reports(m.node, start, cmds)
    && Tracks(m.state, start, cmds, m.AppliedIndex())
    && CountersOk(m) && ReadingOk(m, start, cmds)
  }

  ghost predicate SnapshotOk(snapshot: (nat, seq<Replica>), start: seq<Replica>, cmds: seq<Command>) {
    0 < snapshot.0 <= |cmds| && snapshot.1 == At(start, cmds, snapshot.0)
  }

  ghost predicate Inv(sys: System, start: seq<Replica>) {
    && (forall i :: 0 <= i < |sys.members| ==> MemberOk(sys.members[i], start, sys.cmds))
    && (forall snapshot :: snapshot in sys.snapshots ==> SnapshotOk(snapshot, start, sys.cmds))
  }

  // ---- Committing ----

  lemma AtOfLonger(start: seq<Replica>, cmds: seq<Command>, cmds': seq<Command>, k: nat)
    requires cmds <= cmds' && k <= |cmds|
    ensures At(start, cmds', k) == At(start, cmds, k)
  {
    assert cmds'[..k] == cmds[..k];
  }

  lemma SeenInLonger(start: seq<Replica>, cmds: seq<Command>, cmds': seq<Command>, k: nat, id: int)
    requires cmds <= cmds' && k <= |cmds| && Seen(start, cmds, k, id)
    ensures Seen(start, cmds', k, id)
  {
    var j: nat :| j <= k && id in ShardIds(At(start, cmds, j));
    AtOfLonger(start, cmds, cmds', j);
  }

  lemma TracksLonger(s: State, start: seq<Replica>, cmds: seq<Command>, cmds': seq<Command>, k: nat)
    requires cmds <= cmds' && Tracks(s, start, cmds, k)
    ensures Tracks(s, start, cmds', k)
  {
    AtOfLonger(start, cmds, cmds', k);
    forall id | id in ShardIds(s.shards) ensures Seen(start, cmds', k, id) {
      SeenInLonger(start, cmds, cmds', k, id);
    }
  }

  lemma ReportsLonger(st: Status, start: seq<Replica>, cmds: seq<Command>, cmds': seq<Command>)
    requires cmds <= cmds' && Reports(st, start, cmds)
    ensures Reports(st, start, cmds')
  {
    AtOfLonger(start, cmds, cmds', st.snapIndex);
    assert cmds'[st.snapIndex..st.Last()] == cmds[st.snapIndex..st.Last()];
  }

  lemma MemberOkLonger(m: Member, start: seq<Replica>, cmds: seq<Command>, cmds': seq<Command>)
    requires cmds <= cmds' && MemberOk(m, start, cmds)
    ensures MemberOk(m, start, cmds')
  {
    ReportsLonger(m.node, start, cmds, cmds');
    TracksLonger(m.state, start, cmds, cmds', m.AppliedIndex());
    if m.reading.Reading? { ReportsLonger(m.reading.st, start, cmds, cmds'); }
  }

  // ---- What the node does ----

  lemma LearnOk(m: Member, start: seq<Replica>, cmds: seq<Command>, upTo: nat)
    requires MemberOk(m, start, cmds) && m.node.Last() <= upTo <= |cmds|
    ensures MemberOk(m.(node := m.node.(applied := m.node.applied + cmds[m.node.Last()..upTo])), start, cmds)
  {
    var applied := m.node.applied + cmds[m.node.Last()..upTo];
    assert applied == cmds[m.node.snapIndex..upTo];
  }

  // ---- What a call does ----

  /** Every call is safe but those that go back to an earlier snapshot, and these by assumption. */
  lemma CallIsSafe(m: Member, start: seq<Replica>, cmds: seq<Command>)
    requires MemberOk(m, start, cmds) && m.reading.Reading? && SafeCall(m) && NoReAdd(start, cmds)
    ensures NoneAddedBack(m.state, m.reading.st)
  {
    var st := m.reading.st;
    if Restores(m.state, st) {
      if st.snapIndex >= m.AppliedIndex() { ForwardCatchUpIsSafe(m.state, st, start, cmds, m.AppliedIndex()); }
    }
  }

  lemma CallTracks(m: Member, start: seq<Replica>, cmds: seq<Command>)
    requires AllOn(start) && NoReAdd(start, cmds)
    requires MemberOk(m, start, cmds) && m.reading.Reading? && SafeCall(m)
    ensures Tracks(CatchUp(m.state, m.reading.st), start, cmds, m.reading.st.Last())
    ensures Active(CatchUp(m.state, m.reading.st).shards) == At(start, cmds, m.reading.st.Last())
  {
    CallIsSafe(m, start, cmds);
    SafeCatchUpTracks(m.state, m.reading.st, start, cmds, m.AppliedIndex());
    TracksShows(CatchUp(m.state, m.reading.st), start, cmds, m.reading.st.Last());
  }

  /** Where the counters stand after a call. */
  lemma CallCounters(m: Member)
    requires CountersOk(m) && m.reading.Reading?
    ensures var st, s := m.reading.st, CatchUp(m.state, m.reading.st);
            var base := if Restores(m.state, st) then st.snapIndex else m.base;
            && base == st.snapIndex == s.snapshotApplied
            && st.snapIndex + s.localApplied == st.Last()
  {
  }

  lemma SettleOk(node: Status, st: Status, s: State, fires: bool, start: seq<Replica>, cmds: seq<Command>)
    requires Reports(node, start, cmds) && Tracks(s, start, cmds, st.Last()) && Active(s.shards) == At(start, cmds, st.Last())
    requires s.snapshotApplied == st.snapIndex <= node.snapIndex && st.Last() <= node.Last()
    requires st.snapIndex + s.localApplied == st.Last()
    ensures MemberOk(Settle(node, st, s, st.snapIndex, fires).0, start, cmds)
    ensures forall snapshot :: snapshot in Settle(node, st, s, st.snapIndex, fires).1 ==> SnapshotOk(snapshot, start, cmds)
  {
  }

  lemma FinishOk(m: Member, start: seq<Replica>, cmds: seq<Command>)
    requires AllOn(start) && NoReAdd(start, cmds)
    requires MemberOk(m, start, cmds) && m.reading.Reading? && SafeCall(m)
    ensures MemberOk(FinishCall(m).0, start, cmds)
    ensures forall snapshot :: snapshot in FinishCall(m).1 ==> SnapshotOk(snapshot, start, cmds)
  {
    CallTracks(m, start, cmds);
    CallCounters(m);
    SettleOk(m.node, m.reading.st, CatchUp(m.state, m.reading.st), Fires(m.state, m.reading.st), start, cmds);
  }

  // ---- Whole runs ----

  lemma ReplaceMember(sys: System, i: nat, m: Member, taken: set<(nat, seq<Replica>)>, start: seq<Replica>)
    requires Inv(sys, start) && i < |sys.members| && MemberOk(m, start, sys.cmds)
    requires forall snapshot :: snapshot in taken ==> SnapshotOk(snapshot, start, sys.cmds)
    ensures Inv(sys.(members := sys.members[i := m], snapshots := sys.snapshots + taken), start)
  {
  }

  lemma InstallOk(m: Member, start: seq<Replica>, cmds: seq<Command>, index: nat, data: seq<Replica>)
    requires MemberOk(m, start, cmds) && SnapshotOk((index, data), start, cmds)
    ensures MemberOk(m.(node := InstallOn(m.node, index, data)), start, cmds)
  {
  }

  lemma ReadOk(m: Member, start: seq<Replica>, cmds: seq<Command>)
    requires MemberOk(m, start, cmds)
    ensures MemberOk(m.(reading := Reading(m.node)), start, cmds)
  {
  }

  lemma ActionOk(sys: System, a: Action, start: seq<Replica>)
    requires AllOn(start) && NoReAdd(start, sys.cmds) && Inv(sys, start) && Enabled(sys, a) && !a.Commit?
    requires a.Finish? ==> SafeCall(sys.members[a.i])
    ensures Inv(Do(sys, a), start)
  {
    var m := sys.members[a.i];
    match a
    case Learn(_, upTo) => LearnOk(m, start, sys.cmds, upTo);
    case Install(_, index, data) => InstallOk(m, start, sys.cmds, index, data);
    case ReadStatus(_) => ReadOk(m, start, sys.cmds);
    case Finish(_) => FinishOk(m, start, sys.cmds);
    var m' := Do(sys, a).members[a.i];
    var taken := if a.Finish? then FinishCall(m).1 else {};
    ReplaceMember(sys, a.i, m', taken, start);
    assert Do(sys, a) == sys.(members := sys.members[a.i := m'], snapshots := sys.snapshots + taken);
  }

  lemma CommitOk(sys: System, cmd: Command, start: seq<Replica>)
    requires Inv(sys, start)
    ensures Inv(sys.(cmds := sys.cmds + [cmd]), start)
  {
    var cmds' := sys.cmds + [cmd];
    forall i | 0 <= i < |sys.members| ensures MemberOk(sys.members[i], start, cmds') {
      MemberOkLonger(sys.members[i], start, sys.cmds, cmds');
    }
    forall snapshot | snapshot in sys.snapshots ensures SnapshotOk(snapshot, start, cmds') {
      AtOfLonger(start, sys.cmds, cmds', snapshot.0);
    }
  }

  ghost predicate Init(sys: System, start: seq<Replica>) {
    && sys.cmds == [] && sys.snapshots == {}
    && forall i :: 0 <= i < |sys.members| ==>
         sys.members[i] == Member(State(start, ShardIds(start), 0, 0), Status(0, Unreadable, []), NotReading, 0)
  }

  ghost predicate Next(sys: System, a: Action, sys': System, start: seq<Replica>) {
    && Enabled(sys, a) && sys' == Do(sys, a)
    && NoReAdd(start, sys'.cmds) && (a.Finish? ==> SafeCall(sys.members[a.i]))
  }

  /** Any run from a common configuration `start` in which no removed shard is added again and every
      call that goes back to an earlier snapshot is safe. */
  ghost predicate Run(trace: seq<System>, actions: seq<Action>, start: seq<Replica>) {
    && |trace| == |actions| + 1 && Init(trace[0], start) && AllOn(start)
    && (forall i :: 0 <= i < |start| ==> start[i].epoch == 0)
    && forall k :: 0 <= k < |actions| ==> Next(trace[k], actions[k], trace[k + 1], start)
  }

  /** Any run of the coordinators from a common configuration, whatever is committed and whichever
      snapshots arrive. */
  ghost predicate AnyRun(trace: seq<System>, actions: seq<Action>, start: seq<Replica>) {
    && |trace| == |actions| + 1 && Init(trace[0], start) && (forall i :: 0 <= i < |start| ==> start[i].epoch == 0)
    && forall k :: 0 <= k < |actions| ==> Enabled(trace[k], actions[k]) && trace[k + 1] == Do(trace[k], actions[k])
  }

  lemma NextKeepsInv(sys: System, a: Action, sys': System, start: seq<Replica>)
    requires AllOn(start) && Inv(sys, start) && Next(sys, a, sys', start)
    ensures Inv(sys', start)
  {
    if a.Commit? { CommitOk(sys, a.cmd, start); } else { ActionOk(sys, a, start); }
  }

  lemma StartTracks(start: seq<Replica>)
    requires AllOn(start)
    ensures Tracks(State(start, ShardIds(start), 0, 0), start, [], 0)
  {
    var s, none: seq<Command> := State(start, ShardIds(start), 0, 0), [];
    AllActive(start);
    assert none[..0] == none && At(start, none, 0) == start;
    forall id | id in ShardIds(start) ensures Seen(start, none, 0, id) {
      assert id in ShardIds(At(start, none, 0));
    }
    TracksShows(s, start, none, 0);
  }

  lemma StartReports(start: seq<Replica>)
    ensures Reports(Status(0, Unreadable, []), start, [])
  {
  }

  lemma InitInv(sys: System, start: seq<Replica>)
    requires Init(sys, start) && AllOn(start)
    ensures Inv(sys, start)
  {
    StartTracks(start);
    StartReports(start);
    forall i | 0 <= i < |sys.members| ensures MemberOk(sys.members[i], start, sys.cmds) { }
  }

  lemma {:induction false} ChainInv(trace: seq<System>, start: seq<Replica>, k: nat)
    requires k < |trace| && Inv(trace[0], start)
    requires forall j :: 0 <= j < k && Inv(trace[j], start) ==> Inv(trace[j + 1], start)
    ensures Inv(trace[k], start)
  {
    if k == 0 {
    } else {
      ChainInv(trace, start, k - 1);
    }
  }

  lemma RunInv(trace: seq<System>, actions: seq<Action>, start: seq<Replica>, k: nat)
    requires Run(trace, actions, start) && k < |trace|
    ensures Inv(trace[k], start)
  {
    InitInv(trace[0], start);
    forall j | 0 <= j < k && Inv(trace[j], start) ensures Inv(trace[j + 1], start) {
      assert Next(trace[j], actions[j], trace[j + 1], start);
      NextKeepsInv(trace[j], actions[j], trace[j + 1], start);
    }
    ChainInv(trace, start, k);
  }

  /** Snapshot plus suffix equals full replay: at any time of any such run the active replicas, primaries,
      epochs and ring of a coordinator are those of replaying the commands it has applied from the start,
      and each epoch is the log index of the command that set it. */
  lemma TopologyIsReplay(trace: seq<System>, actions: seq<Action>, start: seq<Replica>, k: nat, i: nat)
    requires Run(trace, actions, start) && k < |trace| && i < |trace[k].members|
    ensures var m, cmds := trace[k].members[i], trace[k].cmds;
            var applied := m.AppliedIndex();
            && applied <= |cmds|
            && Active(m.state.shards) == Fold(start, cmds[..applied], 0)
            && m.state.ring == ShardIds(Active(m.state.shards))
            && EpochsOk(Active(m.state.shards), cmds, applied)
  {
    RunInv(trace, actions, start, k);
    var m, cmds := trace[k].members[i], trace[k].cmds;
    TracksShows(m.state, start, cmds, m.AppliedIndex());
    EpochIsCommandIndex(start, cmds, m.AppliedIndex());
  }

  /** Every snapshot in circulation is the replay of the commands it stands for. */
  lemma SnapshotIsReplay(trace: seq<System>, actions: seq<Action>, start: seq<Replica>, k: nat, index: nat, data: seq<Replica>)
    requires Run(trace, actions, start) && k < |trace| && (index, data) in trace[k].snapshots
    ensures index <= |trace[k].cmds| && data == Fold(start, trace[k].cmds[..index], 0)
  {
    RunInv(trace, actions, start, k);
    assert SnapshotOk((index, data), start, trace[k].cmds);
  }
}
