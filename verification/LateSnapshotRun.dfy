/** Why calls that go back to an earlier snapshot need a condition (cluster/coordinator_main.cpp:245-333).
    A run of two coordinators in which nothing is ever removed and one of them loses a shard: it has compacted
    at 64 and applied 110 commands when the other's snapshot at 100 reaches its node. */
module LateSnapshotRun {
  import opened Topology
  import opened TopologyReplay
  import opened TopologyRuns

  // ---- Commands that change nothing around one that adds a shard ----

  function Quiet(n: nat): seq<Command> {
    seq(n, _ => Unknown)
  }

  lemma {:induction false} QuietApply(shards: seq<Replica>, n: nat, base: nat)
    ensures ApplyAll(shards, Quiet(n), base) == shards && Fold(shards, Quiet(n), base) == shards
  {
    if n == 0 {
    } else {
      assert Quiet(n)[..n - 1] == Quiet(n - 1);
      QuietApply(shards, n - 1, base);
    }
  }

  /** n + 1 + k commands of which only the one in the middle does anything. */
  function Around(n: nat, cmd: Command, k: nat): seq<Command> {
    Quiet(n) + [cmd] + Quiet(k)
  }

  lemma AroundApply(shards: seq<Replica>, n: nat, cmd: Command, k: nat, base: nat)
    ensures ApplyAll(shards, Around(n, cmd, k), base) == ApplyTo(shards, cmd, base + n + 1)
    ensures Fold(shards, Around(n, cmd, k), base) == Step(shards, cmd, base + n + 1)
  {
    QuietApply(shards, n, base);
    ApplyAllOfSum(shards, Quiet(n), [cmd], base);
    FoldOfSum(shards, Quiet(n), [cmd], base);
    assert [cmd][..0] == [];
    ApplyAllOfSum(shards, Quiet(n) + [cmd], Quiet(k), base);
    FoldOfSum(shards, Quiet(n) + [cmd], Quiet(k), base);
    QuietApply(ApplyTo(shards, cmd, base + n + 1), k, base + n + 1);
    QuietApply(Step(shards, cmd, base + n + 1), k, base + n + 1);
  }

  // ---- Building a run ----

  function Last(trace: seq<System>, actions: seq<Action>): System
    requires |trace| == |actions| + 1
  {
    trace[|actions|]
  }

  lemma Go(trace: seq<System>, actions: seq<Action>, start: seq<Replica>, a: Action)
    returns (trace': seq<System>, actions': seq<Action>)
    requires AnyRun(trace, actions, start) && Enabled(Last(trace, actions), a)
    ensures AnyRun(trace', actions', start) && Last(trace', actions') == Do(Last(trace, actions), a)
  {
    trace', actions' := trace + [Do(Last(trace, actions), a)], actions + [a];
  }

  lemma {:induction false} CommitAll(trace: seq<System>, actions: seq<Action>, start: seq<Replica>, cmds: seq<Command>)
    returns (trace': seq<System>, actions': seq<Action>)
    requires AnyRun(trace, actions, start)
    ensures AnyRun(trace', actions', start)
    ensures Last(trace', actions') == Last(trace, actions).(cmds := Last(trace, actions).cmds + cmds)
  {
    if cmds == [] {
      trace', actions' := trace, actions;
    } else {
      trace', actions' := CommitAll(trace, actions, start, cmds[..|cmds| - 1]);
      trace', actions' := Go(trace', actions', start, Commit(cmds[|cmds| - 1]));
      assert Last(trace, actions).cmds + cmds[..|cmds| - 1] + [cmds[|cmds| - 1]] == Last(trace, actions).cmds + cmds;
    }
  }

  /** Two coordinators that start with nothing, and `cmds` committed. */
  lemma Begin(cmds: seq<Command>) returns (trace: seq<System>, actions: seq<Action>)
    ensures AnyRun(trace, actions, []) && Last(trace, actions) == System(cmds, [Newborn(), Newborn()], {})
  {
    trace, actions := CommitAll([System([], [Newborn(), Newborn()], {})], [], [], cmds);
    assert [] + cmds == cmds;
  }

  function Newborn(): Member {
    Member(State([], {}, 0, 0), Status(0, Unreadable, []), NotReading, 0)
  }

  /** The member once its node has learned of the commands up to `upTo` and a call has read its status. */
  function Informed(m: Member, cmds: seq<Command>, upTo: nat): Member
    requires m.node.Last() <= upTo <= |cmds|
  {
    var node := m.node.(applied := m.node.applied + cmds[m.node.Last()..upTo]);
    m.(node := node, reading := Reading(node))
  }

  /** The node of member i learns of the commands up to `upTo` and the coordinator makes a call. */
  lemma LearnAndCall(trace: seq<System>, actions: seq<Action>, start: seq<Replica>, i: nat, upTo: nat)
    returns (trace': seq<System>, actions': seq<Action>)
    requires AnyRun(trace, actions, start) && i < |Last(trace, actions).members|
    requires Last(trace, actions).members[i].node.Last() <= upTo <= |Last(trace, actions).cmds|
    ensures AnyRun(trace', actions', start)
    ensures var sys := Last(trace, actions);
            var (m, taken) := FinishCall(Informed(sys.members[i], sys.cmds, upTo));
            Last(trace', actions') == System(sys.cmds, sys.members[i := m], sys.snapshots + taken)
  {
    trace', actions' := Go(trace, actions, start, Learn(i, upTo));
    trace', actions' := Go(trace', actions', start, ReadStatus(i));
    trace', actions' := Go(trace', actions', start, Finish(i));
  }

  // ---- The calls of the run ----

  /** A call that does not start over, has nothing applied yet and compacts at the last command it read. */
  lemma CompactingCall(m: Member, st: Status)
    requires m.reading == Reading(st) && m.node == st && !Restores(m.state, st)
    requires m.state.localApplied == 0 && |st.applied| >= COMPACTION_THRESHOLD
    ensures var all := ApplyAll(m.state.shards, st.applied, st.snapIndex);
            var data := Active(all);
            FinishCall(m) ==
            (Member(State(all, ShardIds(data), 0, m.state.snapshotApplied), Status(st.Last(), Saved(data), []), NotReading, st.Last()),
             {(st.Last(), data)})
  {
    assert st.applied[0..] == st.applied && st.applied[st.Last() - st.snapIndex..] == [];
  }

  /** The first call of a coordinator with 64 or more commands that do nothing: it compacts at the last. */
  lemma FirstCall(cmds: seq<Command>, n: nat)
    requires COMPACTION_THRESHOLD <= n <= |cmds| && cmds[..n] == Quiet(n)
    ensures FinishCall(Informed(Newborn(), cmds, n)) == (Compacted(n), {(n, [])})
  {
    var st := Status(0, Unreadable, Quiet(n));
    assert [] + cmds[0..n] == Quiet(n);
    assert Informed(Newborn(), cmds, n) == Member(State([], {}, 0, 0), st, Reading(st), 0);
    CompactingCall(Member(State([], {}, 0, 0), st, Reading(st), 0), st);
    QuietApply([], n, 0);
  }

  function Compacted(n: nat): Member {
    Member(State([], {}, 0, 0), Status(n, Saved([]), []), NotReading, n)
  }

  /** A call that starts over from its node's snapshot and has fewer than 64 commands to apply. */
  lemma RestoringCall(m: Member, st: Status)
    requires m.reading == Reading(st) && m.node == st && Restores(m.state, st) && 0 < |st.applied| < COMPACTION_THRESHOLD
    ensures var all := ApplyAll(Restore(m.state.shards, st.snapData), st.applied, st.snapIndex);
            FinishCall(m) ==
            (Member(State(all, ShardIds(Active(all)), |st.applied|, st.snapIndex), st, NotReading, st.snapIndex), {})
  {
    assert st.applied[0..] == st.applied;
  }

  lemma InformedCompacted(cmds: seq<Command>, n: nat, upTo: nat)
    requires n <= upTo <= |cmds|
    ensures var st := Status(n, Saved([]), cmds[n..upTo]);
            Informed(Compacted(n), cmds, upTo) == Member(State([], {}, 0, 0), st, Reading(st), n)
  {
    assert [] + cmds[n..upTo] == cmds[n..upTo];
  }

  lemma OnlyOne(r: Replica)
    requires r.active
    ensures ShardIds([r]) == {r.shard} && Active([r]) == [r] && Without([r], {r.shard}) == []
  {
    assert [r][..0] == [];
  }

  /** The next call after compacting at n, with fewer than 64 commands of which one adds shard 7. */
  lemma SecondCall(cmds: seq<Command>, n: nat, before: nat, after: nat)
    requires 0 < n && before + after + 1 < COMPACTION_THRESHOLD && n + before + 1 + after <= |cmds|
    requires cmds[n..n + before + 1 + after] == Around(before, OneReplica(7), after)
    ensures FinishCall(Informed(Compacted(n), cmds, n + before + 1 + after)) ==
            (Holding(n, Around(before, OneReplica(7), after), n + before + 1), {})
  {
    var st := Status(n, Saved([]), Around(before, OneReplica(7), after));
    var m := Member(State([], {}, 0, 0), st, Reading(st), n);
    InformedCompacted(cmds, n, n + before + 1 + after);
    assert Informed(Compacted(n), cmds, n + before + 1 + after) == m;
    assert FinishCall(m) == (Holding(n, st.applied, n + before + 1), {}) by { AppliesTheAddition(m, st, before, after); }
  }

  lemma AppliesTheAddition(m: Member, st: Status, before: nat, after: nat)
    requires st.snapIndex > 0 && before + after + 1 < COMPACTION_THRESHOLD
    requires st.snapData == Saved([]) && st.applied == Around(before, OneReplica(7), after)
    requires m == Member(State([], {}, 0, 0), st, Reading(st), st.snapIndex)
    ensures FinishCall(m) == (Holding(st.snapIndex, st.applied, st.snapIndex + before + 1), {})
  {
    RestoringCall(m, st);
    AddedTo([], before, after, st.snapIndex);
    OnlyOne(TheReplica(7, st.snapIndex + before + 1));
  }

  lemma AddedTo(shards: seq<Replica>, before: nat, after: nat, base: nat)
    ensures ApplyAll(Restore(shards, Saved([])), Around(before, OneReplica(7), after), base) ==
            Deactivate(shards, ShardIds(shards)) + if 7 in ShardIds(shards) then [] else [TheReplica(7, base + before + 1)]
  {
    var off := Deactivate(shards, ShardIds(shards));
    assert off + [] == off;
    DeactivateFacts(shards, ShardIds(shards));
    AroundApply(off, before, OneReplica(7), after, base);
    OneReplicaAdds(7, base + before + 1);
  }

  /** A coordinator that shows shard 7, stamped with `epoch`. */
  function Holding(n: nat, applied: seq<Command>, epoch: nat): Member {
    Member(State([TheReplica(7, epoch)], {7}, |applied|, n), Status(n, Saved([]), applied), NotReading, n)
  }

  /** A call that goes on to a snapshot without shard 7: the command that adds it is ignored. */
  lemma LosingCall(m: Member, cmds: seq<Command>, n: nat, epoch: nat, before: nat, after: nat)
    requires m.state.shards == [TheReplica(7, epoch)] && m.state.snapshotApplied < n
    requires before + after + 1 < COMPACTION_THRESHOLD && n + before + 1 + after <= |cmds|
    requires m.node == Status(n, Saved([]), Around(before, OneReplica(7), after))
    ensures var m' := FinishCall(Informed(m, cmds, m.node.Last())).0;
            Active(m'.state.shards) == [] && m'.AppliedIndex() == n + before + 1 + after
  {
    var part, r := Around(before, OneReplica(7), after), TheReplica(7, epoch);
    assert part + cmds[m.node.Last()..m.node.Last()] == part;
    RestoringCall(Informed(m, cmds, m.node.Last()), m.node);
    AddedTo([r], before, after, n);
    OnlyOne(r);
    DeactivateFacts([r], {7});
  }

  /** The committed commands: the 105th adds shard 7 and no other does anything. */
  function Commands(): seq<Command> {
    Around(104, OneReplica(7), 5)
  }

  lemma Slices()
    ensures var cmds := Commands();
            && |cmds| == 110 && cmds[..64] == Quiet(64) && cmds[..100] == Quiet(100)
            && cmds[64..110] == Around(40, OneReplica(7), 5)
            && Around(40, OneReplica(7), 5)[36..] == Around(4, OneReplica(7), 5)
  {
  }

  lemma FirstCompacts() returns (trace: seq<System>, actions: seq<Action>)
    ensures AnyRun(trace, actions, [])
    ensures Last(trace, actions) == System(Commands(), [Compacted(64), Newborn()], {(64, [])})
  {
    trace, actions := Begin(Commands());
    Slices();
    FirstCall(Commands(), 64);
    trace, actions := LearnAndCall(trace, actions, [], 0, 64);
  }

  /** The first coordinator compacts at 64 and goes on to 110. */
  lemma FirstApplies() returns (trace: seq<System>, actions: seq<Action>)
    ensures AnyRun(trace, actions, [])
    ensures Last(trace, actions) ==
            System(Commands(), [Holding(64, Around(40, OneReplica(7), 5), 105), Newborn()], {(64, [])})
  {
    trace, actions := FirstCompacts();
    Slices();
    trace, actions := GoesOn(trace, actions, Commands(), 64, 40, 5);
  }

  lemma GoesOn(trace: seq<System>, actions: seq<Action>, cmds: seq<Command>, n: nat, before: nat, after: nat)
    returns (trace': seq<System>, actions': seq<Action>)
    requires AnyRun(trace, actions, []) && Last(trace, actions) == System(cmds, [Compacted(n), Newborn()], {(n, [])})
    requires 0 < n && before + after + 1 < COMPACTION_THRESHOLD && n + before + 1 + after <= |cmds|
    requires cmds[n..n + before + 1 + after] == Around(before, OneReplica(7), after)
    ensures AnyRun(trace', actions', [])
    ensures Last(trace', actions') ==
            System(cmds, [Holding(n, Around(before, OneReplica(7), after), n + before + 1), Newborn()], {(n, [])})
  {
    SecondCall(cmds, n, before, after);
    trace', actions' := LearnAndCall(trace, actions, [], 0, n + before + 1 + after);
  }

  /** The second compacts at 100, and its snapshot reaches the first one's node. */
  lemma SnapshotArrives() returns (trace: seq<System>, actions: seq<Action>)
    ensures AnyRun(trace, actions, []) && Last(trace, actions).cmds == Commands() && |Last(trace, actions).members| == 2
    ensures var m := Last(trace, actions).members[0];
            && m.state == State([TheReplica(7, 105)], {7}, 46, 64)
            && m.node == Status(100, Saved([]), Around(4, OneReplica(7), 5))
  {
    trace, actions := FirstApplies();
    Slices();
    FirstCall(Commands(), 100);
    trace, actions := LearnAndCall(trace, actions, [], 1, 100);
    assert (100, []) in Last(trace, actions).snapshots;
    trace, actions := Go(trace, actions, [], Install(0, 100, []));
  }

  /** A coordinator that has applied all 110 commands shows no shard, where replaying them gives shard 7. */
  lemma LateSnapshotLosesShard() returns (trace: seq<System>, actions: seq<Action>)
    ensures AnyRun(trace, actions, []) && Last(trace, actions).cmds == Commands() && |Last(trace, actions).members| == 2
    ensures var m := Last(trace, actions).members[0];
            && m.AppliedIndex() == |Commands()| && Active(m.state.shards) == []
            && Fold([], Commands(), 0) == [TheReplica(7, 105)]
    ensures NoReAdd([], Commands()) && forall cmd :: cmd in Commands() ==> !cmd.RemoveShard?
  {
    trace, actions := SnapshotArrives();
    LosingCall(Last(trace, actions).members[0], Commands(), 100, 105, 4, 5);
    trace, actions := LearnAndCall(trace, actions, [], 0, 110);
    ReferenceHasIt();
  }

  lemma ReferenceHasIt()
    ensures Fold([], Commands(), 0) == [TheReplica(7, 105)] && NoReAdd([], Commands())
  {
    AroundApply([], 104, OneReplica(7), 5, 0);
    OneReplicaAdds(7, 105);
    forall k: nat, j: nat | k < 110 && Commands()[k].AddShard? && j <= k ensures ShardIds(At([], Commands(), j)) == {} {
      assert k == 104 && Commands()[..j] == Quiet(j);
      QuietApply([], j, 0);
    }
  }
}
