/** A coordinator that comes back after a crash (cluster/coordinator_main.cpp:182-192, 585-598, 637).

    It loads its configuration file, which stores no epochs, and counts the snapshot of its node as applied
    without reading it. The commands applied since the snapshot are then replayed over the configuration. */
module TopologyRestart {
  import opened Topology
  import opened TopologyReplay

  // ---- One shard at a time ----

  /** The replicas of one shard, in list order. */
  function Of(view: seq<Replica>, id: int): seq<Replica> {
    if view == [] then []
    else
      var last := view[|view| - 1];
      Of(view[..|view| - 1], id) + (if last.shard == id then [last] else [])
  }

  /** What one command does to the replicas of shard `id`. */
  function ShardStep(x: seq<Replica>, cmd: Command, epoch: nat, id: int): seq<Replica> {
    match cmd
    case AddShard(shard, members) => if shard == id && x == [] then NewReplicas(id, members, epoch) else x
    case RemoveShard(shard) => if shard == id then [] else x
    case SetPrimary(shard, replica) => if shard == id then Promote(x, id, replica, epoch) else x
    case Unknown => x
  }

  function ShardFold(x: seq<Replica>, cmds: seq<Command>, base: nat, id: int): seq<Replica> {
    if cmds == [] then x
    else ShardStep(ShardFold(x, cmds[..|cmds| - 1], base, id), cmds[|cmds| - 1], base + |cmds|, id)
  }

  lemma {:induction false} OfSum(a: seq<Replica>, b: seq<Replica>, id: int)
    ensures Of(a + b, id) == Of(a, id) + Of(b, id)
  {
    if b == [] {
      assert a + b == a;
    } else {
      assert (a + b)[..|a + b| - 1] == a + b[..|b| - 1];
      OfSum(a, b[..|b| - 1], id);
    }
  }

  lemma {:induction false} OfKnown(view: seq<Replica>, id: int)
    ensures id in ShardIds(view) <==> Of(view, id) != []
    ensures forall i :: 0 <= i < |Of(view, id)| ==> Of(view, id)[i] in view && Of(view, id)[i].shard == id
  {
    if view == [] {
    } else {
      OfKnown(view[..|view| - 1], id);
    }
  }

  lemma {:induction false} OfHolds(view: seq<Replica>, id: int)
    ensures forall r :: r in Of(view, id) <==> r in view && r.shard == id
  {
    if view == [] {
    } else {
      OfHolds(view[..|view| - 1], id);
      assert view == view[..|view| - 1] + [view[|view| - 1]];
    }
  }

  lemma {:induction false} OfWithout(view: seq<Replica>, shard: int, id: int)
    ensures Of(Without(view, {shard}), id) == if id == shard then [] else Of(view, id)
  {
    if view == [] {
    } else {
      var front, last := view[..|view| - 1], view[|view| - 1];
      OfWithout(front, shard, id);
      OfSum(Without(front, {shard}), if last.shard == shard then [] else [last], id);
      assert Of([last], id) == if last.shard == id then [last] else [];
    }
  }

  lemma {:induction false} OfPromote(view: seq<Replica>, shard: int, replica: int, epoch: nat, id: int)
    ensures Of(Promote(view, shard, replica, epoch), id) ==
            if id == shard then Promote(Of(view, id), id, replica, epoch) else Of(view, id)
  {
    if view == [] {
    } else {
      var front, last := view[..|view| - 1], view[|view| - 1];
      OfPromote(front, shard, replica, epoch, id);
      var done := Promote(view, shard, replica, epoch);
      assert done[..|done| - 1] == Promote(front, shard, replica, epoch);
      PromoteOfSum(Of(front, id), if last.shard == id then [last] else [], id, replica, epoch);
    }
  }

  lemma {:induction false} OfNew(shard: int, members: seq<Endpoint>, epoch: nat, id: int)
    ensures Of(NewReplicas(shard, members, epoch), id) == if shard == id then NewReplicas(shard, members, epoch) else []
  {
    if members == [] {
    } else {
      OfNew(shard, members[..|members| - 1], epoch, id);
      var all := NewReplicas(shard, members, epoch);
      assert all[..|all| - 1] == NewReplicas(shard, members[..|members| - 1], epoch);
    }
  }

  /** The reference works on each shard by itself. */
  lemma OfStep(view: seq<Replica>, cmd: Command, epoch: nat, id: int)
    ensures Of(Step(view, cmd, epoch), id) == ShardStep(Of(view, id), cmd, epoch, id)
  {
    match cmd
    case AddShard(shard, members) =>
      OfKnown(view, id);
      OfNew(shard, members, epoch, id);
      OfSum(view, NewReplicas(shard, members, epoch), id);
    case RemoveShard(shard) => OfWithout(view, shard, id);
    case SetPrimary(shard, replica) => OfPromote(view, shard, replica, epoch, id);
    case Unknown =>
  }

  lemma {:induction false} OfFold(view: seq<Replica>, cmds: seq<Command>, base: nat, id: int)
    ensures Of(Fold(view, cmds, base), id) == ShardFold(Of(view, id), cmds, base, id)
  {
    if cmds == [] {
    } else {
      var front := cmds[..|cmds| - 1];
      OfFold(view, front, base, id);
      OfStep(Fold(view, front, base), cmds[|cmds| - 1], base + |cmds|, id);
    }
  }

  lemma {:induction false} ShardFoldOfSum(x: seq<Replica>, a: seq<Command>, b: seq<Command>, base: nat, id: int)
    ensures ShardFold(x, a + b, base, id) == ShardFold(ShardFold(x, a, base, id), b, base + |a|, id)
  {
    if b == [] {
      assert a + b == a;
    } else {
      assert (a + b)[..|a + b| - 1] == a + b[..|b| - 1];
      ShardFoldOfSum(x, a, b[..|b| - 1], base, id);
    }
  }

  // ---- The coordinator's list, which remembers retired shards ----

  ghost predicate Removed(cmds: seq<Command>, id: int) {
    exists j :: 0 <= j < |cmds| && Removes(cmds[j], id)
  }

  ghost predicate Added(cmds: seq<Command>, id: int) {
    exists j :: 0 <= j < |cmds| && Adds(cmds[j], id)
  }

  function OnOf(shards: seq<Replica>, id: int): seq<Replica> {
    Of(Active(shards), id)
  }

  lemma KnownStep(shards: seq<Replica>, cmd: Command, epoch: nat, id: int)
    ensures id in ShardIds(ApplyTo(shards, cmd, epoch)) <==> id in ShardIds(shards) || Adds(cmd, id)
  {
    match cmd
    case AddShard(shard, members) =>
      NewReplicasFacts(shard, members, epoch, {});
      IdsOfSum(shards, NewReplicas(shard, members, epoch));
    case RemoveShard(shard) => DeactivateFacts(shards, {shard});
    case SetPrimary(shard, replica) => PromoteFacts(shards, shard, replica, epoch);
    case Unknown =>
  }

  lemma AddedNext(cmds: seq<Command>, id: int)
    requires cmds != []
    ensures Added(cmds, id) <==> Added(cmds[..|cmds| - 1], id) || Adds(cmds[|cmds| - 1], id)
  {
    assert forall j :: 0 <= j < |cmds| - 1 ==> cmds[..|cmds| - 1][j] == cmds[j];
  }

  lemma {:induction false} KnownAfter(shards: seq<Replica>, cmds: seq<Command>, base: nat, id: int)
    ensures id in ShardIds(ApplyAll(shards, cmds, base)) <==> id in ShardIds(shards) || Added(cmds, id)
  {
    if cmds == [] {
    } else {
      KnownAfter(shards, cmds[..|cmds| - 1], base, id);
      KnownStep(ApplyAll(shards, cmds[..|cmds| - 1], base), cmds[|cmds| - 1], base + |cmds|, id);
      ApplyAllLast(shards, cmds, base);
      AddedNext(cmds, id);
    }
  }

  /** On the list a command works on the active replicas as on the reference, but a shard that is known and
      has no active replica is not added. */
  lemma OnOfStep(shards: seq<Replica>, cmd: Command, epoch: nat, id: int)
    ensures OnOf(ApplyTo(shards, cmd, epoch), id) ==
            if cmd.AddShard? && id in ShardIds(shards) then OnOf(shards, id) else ShardStep(OnOf(shards, id), cmd, epoch, id)
  {
    match cmd
    case AddShard(shard, members) =>
      NewReplicasFacts(shard, members, epoch, {});
      ActiveOfSum(shards, NewReplicas(shard, members, epoch));
      OfNew(shard, members, epoch, id);
      OfSum(Active(shards), NewReplicas(shard, members, epoch), id);
      ActiveIdsKnown(shards);
      OfKnown(Active(shards), id);
    case RemoveShard(shard) =>
      DeactivateFacts(shards, {shard});
      OfWithout(Active(shards), shard, id);
    case SetPrimary(shard, replica) =>
      PromoteFacts(shards, shard, replica, epoch);
      OfPromote(Active(shards), shard, replica, epoch, id);
    case Unknown =>
  }

  /** The list shows x for the shard, and says whether it knows the shard at all. */
  predicate Lists(shards: seq<Replica>, id: int, x: seq<Replica>, known: bool) {
    OnOf(shards, id) == x && (id in ShardIds(shards) <==> known)
  }

  lemma RetiredStep(shards: seq<Replica>, cmd: Command, epoch: nat, id: int)
    requires Lists(shards, id, [], true)
    ensures Lists(ApplyTo(shards, cmd, epoch), id, [], true)
  {
    KnownStep(shards, cmd, epoch, id);
    OnOfStep(shards, cmd, epoch, id);
  }

  /** A shard that is known only as retired stays away. */
  lemma {:induction false} RetiredStays(shards: seq<Replica>, cmds: seq<Command>, base: nat, id: int)
    requires Lists(shards, id, [], true)
    ensures Lists(ApplyAll(shards, cmds, base), id, [], true)
  {
    if cmds == [] {
    } else {
      var front := cmds[..|cmds| - 1];
      RetiredStays(shards, front, base, id);
      RetiredStep(ApplyAll(shards, front, base), cmds[|cmds| - 1], base + |cmds|, id);
      ApplyAllLast(shards, cmds, base);
    }
  }

  lemma ShowsStep(shards: seq<Replica>, cmd: Command, epoch: nat, id: int, x: seq<Replica>)
    requires Lists(shards, id, x, x != []) && !Removes(cmd, id)
    ensures var x' := ShardStep(x, cmd, epoch, id); Lists(ApplyTo(shards, cmd, epoch), id, x', x' != [])
  {
    KnownStep(shards, cmd, epoch, id);
    OnOfStep(shards, cmd, epoch, id);
    NonEmptyStep(x, cmd, epoch, id);
  }

  lemma NotRemovedBefore(cmds: seq<Command>, id: int)
    requires cmds != [] && !Removed(cmds, id)
    ensures !Removed(cmds[..|cmds| - 1], id) && !Removes(cmds[|cmds| - 1], id)
  {
    assert forall j :: 0 <= j < |cmds| - 1 ==> cmds[..|cmds| - 1][j] == cmds[j];
  }

  /** The list after the commands shows for the shard what the reference makes of x. */
  predicate Followed(shards: seq<Replica>, cmds: seq<Command>, base: nat, id: int, x: seq<Replica>) {
    var x' := ShardFold(x, cmds, base, id);
    Lists(ApplyAll(shards, cmds, base), id, x', x' != [])
  }

  lemma FollowedNext(shards: seq<Replica>, cmds: seq<Command>, base: nat, id: int, x: seq<Replica>)
    requires cmds != [] && !Removes(cmds[|cmds| - 1], id) && Followed(shards, cmds[..|cmds| - 1], base, id, x)
    ensures Followed(shards, cmds, base, id, x)
  {
    var front, last := cmds[..|cmds| - 1], cmds[|cmds| - 1];
    var before, x' := ApplyAll(shards, front, base), ShardFold(x, front, base, id);
    ShowsStep(before, last, base + |cmds|, id, x');
    assert ApplyAll(shards, cmds, base) == ApplyTo(before, last, base + |cmds|);
    assert ShardFold(x, cmds, base, id) == ShardStep(x', last, base + |cmds|, id);
  }

  lemma {:induction false} ChainFollowed(shards: seq<Replica>, cmds: seq<Command>, base: nat, id: int, x: seq<Replica>, k: nat)
    requires k <= |cmds| && Followed(shards, cmds[..0], base, id, x)
    requires forall j :: 0 <= j < k && Followed(shards, cmds[..j], base, id, x) ==> Followed(shards, cmds[..j + 1], base, id, x)
    ensures Followed(shards, cmds[..k], base, id, x)
  {
    if k == 0 {
    } else {
      ChainFollowed(shards, cmds, base, id, x, k - 1);
    }
  }

  /** While the shard is not removed the list does to it what the reference does. */
  lemma UnremovedFollows(shards: seq<Replica>, cmds: seq<Command>, base: nat, id: int, x: seq<Replica>)
    requires !Removed(cmds, id) && Lists(shards, id, x, x != [])
    ensures Followed(shards, cmds, base, id, x)
  {
    assert cmds[..0] == [];
    forall j | 0 <= j < |cmds| && Followed(shards, cmds[..j], base, id, x) ensures Followed(shards, cmds[..j + 1], base, id, x) {
      assert !Removes(cmds[j], id) && cmds[..j + 1][..j] == cmds[..j];
      FollowedNext(shards, cmds[..j + 1], base, id, x);
    }
    ChainFollowed(shards, cmds, base, id, x, |cmds|);
    assert cmds[..|cmds|] == cmds;
  }

  lemma NonEmptyStep(x: seq<Replica>, cmd: Command, epoch: nat, id: int)
    requires !Removes(cmd, id)
    ensures ShardStep(x, cmd, epoch, id) != [] <==> x != [] || Adds(cmd, id)
  {
    match cmd
    case AddShard(shard, members) =>
    case RemoveShard(shard) =>
    case SetPrimary(shard, replica) => PromoteLength(x, id, replica, epoch);
    case Unknown =>
  }

  lemma {:induction false} NonEmptyAfter(x: seq<Replica>, cmds: seq<Command>, base: nat, id: int)
    requires !Removed(cmds, id)
    ensures ShardFold(x, cmds, base, id) != [] <==> x != [] || Added(cmds, id)
  {
    if cmds == [] {
    } else {
      NotRemovedBefore(cmds, id);
      NonEmptyAfter(x, cmds[..|cmds| - 1], base, id);
      NonEmptyStep(ShardFold(x, cmds[..|cmds| - 1], base, id), cmds[|cmds| - 1], base + |cmds|, id);
      AddedNext(cmds, id);
    }
  }

  // ---- Shards that are not removed ----

  ghost predicate AllOf(x: seq<Replica>, id: int) {
    forall i :: 0 <= i < |x| ==> x[i].shard == id
  }

  function Unstamped(r: Replica): Replica {
    r.(primary := false, epoch := 0)
  }

  /** The same replicas, whoever is primary and whatever their epochs. */
  ghost predicate SameEndpoints(x: seq<Replica>, y: seq<Replica>) {
    |x| == |y| && forall i :: 0 <= i < |x| ==> Unstamped(x[i]) == Unstamped(y[i])
  }

  predicate Promotes(cmd: Command, id: int) {
    cmd.SetPrimary? && cmd.shard == id
  }

  ghost predicate Promoted(cmds: seq<Command>, id: int) {
    exists j :: 0 <= j < |cmds| && Promotes(cmds[j], id)
  }

  /** The first command that adds the shard lists the endpoints of x, and a later one sets its primary. */
  ghost predicate AddedAs(x: seq<Replica>, cmds: seq<Command>, id: int) {
    exists i :: 0 <= i < |cmds| && FirstAdd(cmds, id, i) && SameEndpoints(x, NewReplicas(id, cmds[i].members, 0)) &&
                Promoted(cmds[i + 1..], id)
  }

  ghost predicate FirstAdd(cmds: seq<Command>, id: int, i: nat)
    requires i < |cmds|
  {
    Adds(cmds[i], id) && forall j :: 0 <= j < i ==> !Adds(cmds[j], id)
  }

  /** The commands bring two different starting points together: a set_primary of the shard comes when both
      list it, with the same endpoints. */
  ghost predicate Joined(a: seq<Replica>, b: seq<Replica>, cmds: seq<Command>, id: int) {
    || a == b
    || (a != [] && b != [] && SameEndpoints(a, b) && Promoted(cmds, id))
    || (a == [] && b != [] && AddedAs(b, cmds, id))
    || (a != [] && b == [] && AddedAs(a, cmds, id))
  }

  lemma PromotedNext(cmds: seq<Command>, id: int)
    requires cmds != []
    ensures Promoted(cmds, id) <==> Promotes(cmds[0], id) || Promoted(cmds[1..], id)
  {
    if Promoted(cmds[1..], id) {
      var j :| 0 <= j < |cmds[1..]| && Promotes(cmds[1..][j], id);
      assert Promotes(cmds[j + 1], id);
    }
    if Promoted(cmds, id) && !Promotes(cmds[0], id) {
      var j :| 0 <= j < |cmds| && Promotes(cmds[j], id);
      assert Promotes(cmds[1..][j - 1], id);
    }
  }

  lemma FirstAddNext(cmds: seq<Command>, id: int, i: nat)
    requires cmds != [] && !Adds(cmds[0], id) && i + 1 < |cmds|
    ensures FirstAdd(cmds, id, i + 1) <==> FirstAdd(cmds[1..], id, i)
    ensures cmds[i + 1..][1..] == cmds[1..][i..][1..] && cmds[1..][i + 1..] == cmds[i + 2..]
  {
    assert cmds[1..][i] == cmds[i + 1];
    if FirstAdd(cmds, id, i + 1) {
      forall j | 0 <= j < i ensures !Adds(cmds[1..][j], id) { assert cmds[1..][j] == cmds[j + 1]; }
    }
    if FirstAdd(cmds[1..], id, i) {
      forall j | 0 <= j < i + 1 ensures !Adds(cmds[j], id) { if j > 0 { assert cmds[1..][j - 1] == cmds[j]; } }
    }
  }

  lemma AddedAsNext(x: seq<Replica>, cmds: seq<Command>, id: int)
    requires cmds != []
    ensures AddedAs(x, cmds, id) <==>
            if Adds(cmds[0], id) then SameEndpoints(x, NewReplicas(id, cmds[0].members, 0)) && Promoted(cmds[1..], id)
            else AddedAs(x, cmds[1..], id)
  {
    if Adds(cmds[0], id) {
      assert FirstAdd(cmds, id, 0);
      assert forall i :: 0 < i < |cmds| ==> !FirstAdd(cmds, id, i);
    } else {
      if AddedAs(x, cmds, id) {
        var i :| 0 <= i < |cmds| && FirstAdd(cmds, id, i) && SameEndpoints(x, NewReplicas(id, cmds[i].members, 0)) &&
                 Promoted(cmds[i + 1..], id);
        FirstAddNext(cmds, id, i - 1);
        assert FirstAdd(cmds[1..], id, i - 1) && cmds[1..][i - 1] == cmds[i];
      }
      if AddedAs(x, cmds[1..], id) {
        var i :| 0 <= i < |cmds[1..]| && FirstAdd(cmds[1..], id, i) &&
                 SameEndpoints(x, NewReplicas(id, cmds[1..][i].members, 0)) && Promoted(cmds[1..][i + 1..], id);
        FirstAddNext(cmds, id, i);
        assert FirstAdd(cmds, id, i + 1) && cmds[1..][i] == cmds[i + 1];
      }
    }
  }

  /** The endpoints of one command, whatever the epoch. */
  lemma {:induction false} NewEndpoints(id: int, members: seq<Endpoint>, e: nat, e': nat)
    ensures SameEndpoints(NewReplicas(id, members, e), NewReplicas(id, members, e'))
    ensures AllOf(NewReplicas(id, members, e), id) && Low(NewReplicas(id, members, e), e)
    ensures |NewReplicas(id, members, e)| == |members|
    ensures forall i :: 0 <= i < |members| ==> NewReplicas(id, members, e)[i].epoch == e
  {
    if members == [] {
    } else {
      NewEndpoints(id, members[..|members| - 1], e, e');
    }
  }

  lemma PromoteEndpoints(x: seq<Replica>, id: int, replica: int, epoch: nat)
    requires AllOf(x, id)
    ensures var x' := Promote(x, id, replica, epoch);
            AllOf(x', id) && Low(x', epoch) && SameEndpoints(x, x') && (x' == [] <==> x == [])
  {
    PromoteLength(x, id, replica, epoch);
    forall i | 0 <= i < |x| ensures Promote(x, id, replica, epoch)[i] == x[i].(primary := x[i].replica == replica, epoch := epoch) {
      PromoteAt(x, id, replica, epoch, i);
    }
  }

  /** Promoting makes two lists equal exactly if their endpoints are. */
  lemma PromoteJoins(x: seq<Replica>, y: seq<Replica>, id: int, replica: int, epoch: nat)
    requires AllOf(x, id) && AllOf(y, id)
    ensures Promote(x, id, replica, epoch) == Promote(y, id, replica, epoch) <==> SameEndpoints(x, y)
  {
    PromoteLength(x, id, replica, epoch);
    PromoteLength(y, id, replica, epoch);
    forall i | 0 <= i < |x|
      ensures Promote(x, id, replica, epoch)[i] == x[i].(primary := x[i].replica == replica, epoch := epoch)
    {
      PromoteAt(x, id, replica, epoch, i);
    }
    forall i | 0 <= i < |y|
      ensures Promote(y, id, replica, epoch)[i] == y[i].(primary := y[i].replica == replica, epoch := epoch)
    {
      PromoteAt(y, id, replica, epoch, i);
    }
    if Promote(x, id, replica, epoch) == Promote(y, id, replica, epoch) {
      forall i | 0 <= i < |x| ensures Unstamped(x[i]) == Unstamped(y[i]) {
        assert Unstamped(Promote(x, id, replica, epoch)[i]) == Unstamped(x[i]);
        assert Unstamped(Promote(y, id, replica, epoch)[i]) == Unstamped(y[i]);
      }
    }
    if SameEndpoints(x, y) {
      forall i | 0 <= i < |x| ensures Promote(x, id, replica, epoch)[i] == Promote(y, id, replica, epoch)[i] {
        assert Unstamped(x[i]) == Unstamped(y[i]) && x[i].replica == Unstamped(x[i]).replica;
        assert y[i].replica == Unstamped(y[i]).replica;
      }
    }
  }

  lemma SameEndpointsFacts(x: seq<Replica>, y: seq<Replica>, z: seq<Replica>)
    requires SameEndpoints(y, z)
    ensures SameEndpoints(x, y) <==> SameEndpoints(x, z)
    ensures SameEndpoints(y, x) <==> SameEndpoints(z, x)
    ensures SameEndpoints(x, y) <==> SameEndpoints(y, x)
  {
  }

  // One command at a time, seen from the front.

  lemma JoinedPromote(a: seq<Replica>, b: seq<Replica>, cmds: seq<Command>, epoch: nat, id: int)
    requires cmds != [] && Promotes(cmds[0], id) && AllOf(a, id) && AllOf(b, id)
    ensures Joined(a, b, cmds, id) <==>
            Joined(ShardStep(a, cmds[0], epoch, id), ShardStep(b, cmds[0], epoch, id), cmds[1..], id)
  {
    var r := cmds[0].replica;
    var a', b' := Promote(a, id, r, epoch), Promote(b, id, r, epoch);
    PromoteEndpoints(a, id, r, epoch);
    PromoteEndpoints(b, id, r, epoch);
    PromoteJoins(a, b, id, r, epoch);
    PromotedNext(cmds, id);
    AddedAsNext(a, cmds, id);
    AddedAsNext(b, cmds, id);
    SameEndpointsFacts(a, b, b');
    SameEndpointsFacts(b', a, a');
    AddedAsSame(a, a', cmds[1..], id);
    AddedAsSame(b, b', cmds[1..], id);
  }

  lemma AddedAsSame(x: seq<Replica>, y: seq<Replica>, cmds: seq<Command>, id: int)
    requires SameEndpoints(x, y)
    ensures AddedAs(x, cmds, id) <==> AddedAs(y, cmds, id)
  {
    forall i | 0 <= i < |cmds| && FirstAdd(cmds, id, i)
      ensures SameEndpoints(x, NewReplicas(id, cmds[i].members, 0)) <==> SameEndpoints(y, NewReplicas(id, cmds[i].members, 0))
    {
      SameEndpointsFacts(NewReplicas(id, cmds[i].members, 0), x, y);
    }
  }

  lemma JoinedAdd(a: seq<Replica>, b: seq<Replica>, cmds: seq<Command>, epoch: nat, id: int)
    requires cmds != [] && Adds(cmds[0], id) && epoch > 0 && Low(a, epoch - 1) && Low(b, epoch - 1)
    ensures Joined(a, b, cmds, id) <==>
            Joined(ShardStep(a, cmds[0], epoch, id), ShardStep(b, cmds[0], epoch, id), cmds[1..], id)
  {
    var added := NewReplicas(id, cmds[0].members, epoch);
    NewEndpoints(id, cmds[0].members, epoch, 0);
    PromotedNext(cmds, id);
    AddedAsNext(a, cmds, id);
    AddedAsNext(b, cmds, id);
    SameEndpointsFacts(a, added, NewReplicas(id, cmds[0].members, 0));
    SameEndpointsFacts(b, added, NewReplicas(id, cmds[0].members, 0));
    assert a != [] ==> a[0].epoch < epoch && a != added;
    assert b != [] ==> b[0].epoch < epoch && b != added;
  }

  lemma JoinedOther(a: seq<Replica>, b: seq<Replica>, cmds: seq<Command>, epoch: nat, id: int)
    requires cmds != [] && !Adds(cmds[0], id) && !Promotes(cmds[0], id) && !Removes(cmds[0], id)
    ensures ShardStep(a, cmds[0], epoch, id) == a && ShardStep(b, cmds[0], epoch, id) == b
    ensures Joined(a, b, cmds, id) <==> Joined(a, b, cmds[1..], id)
  {
    PromotedNext(cmds, id);
    AddedAsNext(a, cmds, id);
    AddedAsNext(b, cmds, id);
  }

  lemma StepBounds(x: seq<Replica>, cmd: Command, epoch: nat, id: int)
    requires epoch > 0 && AllOf(x, id) && Low(x, epoch - 1)
    ensures AllOf(ShardStep(x, cmd, epoch, id), id) && Low(ShardStep(x, cmd, epoch, id), epoch)
  {
    match cmd
    case AddShard(shard, members) => NewEndpoints(id, members, epoch, epoch);
    case RemoveShard(shard) =>
    case SetPrimary(shard, replica) => if shard == id { PromoteEndpoints(x, id, replica, epoch); }
    case Unknown =>
  }

  lemma JoinedStep(a: seq<Replica>, b: seq<Replica>, cmds: seq<Command>, epoch: nat, id: int)
    requires cmds != [] && epoch > 0 && !Removes(cmds[0], id)
    requires AllOf(a, id) && AllOf(b, id) && Low(a, epoch - 1) && Low(b, epoch - 1)
    ensures Joined(a, b, cmds, id) <==>
            Joined(ShardStep(a, cmds[0], epoch, id), ShardStep(b, cmds[0], epoch, id), cmds[1..], id)
  {
    if Adds(cmds[0], id) {
      JoinedAdd(a, b, cmds, epoch, id);
    } else if Promotes(cmds[0], id) {
      JoinedPromote(a, b, cmds, epoch, id);
    } else {
      JoinedOther(a, b, cmds, epoch, id);
    }
  }

  lemma NotRemovedLater(cmds: seq<Command>, id: int)
    requires cmds != [] && !Removed(cmds, id)
    ensures !Removes(cmds[0], id) && !Removed(cmds[1..], id)
  {
    assert forall j :: 0 <= j < |cmds| - 1 ==> cmds[1..][j] == cmds[j + 1];
  }

  /** From two starting points the commands lead to the same replicas exactly if they join them. */
  lemma {:induction false} JoinedExactly(a: seq<Replica>, b: seq<Replica>, cmds: seq<Command>, base: nat, id: int)
    requires AllOf(a, id) && AllOf(b, id) && Low(a, base) && Low(b, base) && !Removed(cmds, id)
    ensures ShardFold(a, cmds, base, id) == ShardFold(b, cmds, base, id) <==> Joined(a, b, cmds, id)
    decreases |cmds|
  {
    if cmds == [] {
      NothingJoins(a, b, cmds, id);
    } else {
      var a', b' := ShardStep(a, cmds[0], base + 1, id), ShardStep(b, cmds[0], base + 1, id);
      NotRemovedLater(cmds, id);
      StepBounds(a, cmds[0], base + 1, id);
      StepBounds(b, cmds[0], base + 1, id);
      JoinedExactly(a', b', cmds[1..], base + 1, id);
      JoinedStep(a, b, cmds, base + 1, id);
      FromFront(a, cmds, base, id);
      FromFront(b, cmds, base, id);
    }
  }

  lemma NothingJoins(a: seq<Replica>, b: seq<Replica>, cmds: seq<Command>, id: int)
    requires cmds == []
    ensures Joined(a, b, cmds, id) <==> a == b
  {
  }

  lemma FromFront(x: seq<Replica>, cmds: seq<Command>, base: nat, id: int)
    requires cmds != []
    ensures ShardFold(x, cmds, base, id) == ShardFold(ShardStep(x, cmds[0], base + 1, id), cmds[1..], base + 1, id)
  {
    assert [cmds[0]] + cmds[1..] == cmds && [cmds[0]][..0] == [];
    ShardFoldOfSum(x, [cmds[0]], cmds[1..], base, id);
  }

  // ---- Shards that are removed ----

  /** The shard is added for good after a removal of it that the list remembers. */
  ghost predicate BackAgain(listed: bool, cmds: seq<Command>, id: int) {
    exists r: nat :: r < |cmds| && BackAfter(listed, cmds, id, r)
  }

  ghost predicate BackAfter(listed: bool, cmds: seq<Command>, id: int, r: nat)
    requires r < |cmds|
  {
    Removes(cmds[r], id) && (listed || Added(cmds[..r], id)) && AddedForGood(cmds[r + 1..], id)
  }

  ghost predicate LastRemoval(cmds: seq<Command>, id: int, r: nat)
    requires r < |cmds|
  {
    Removes(cmds[r], id) && !Removed(cmds[r + 1..], id)
  }

  lemma {:induction false} LastRemovalExists(cmds: seq<Command>, id: int) returns (r: nat)
    requires Removed(cmds, id)
    ensures r < |cmds| && LastRemoval(cmds, id, r)
  {
    var last := |cmds| - 1;
    if Removes(cmds[last], id) {
      r := last;
    } else {
      var front := cmds[..last];
      var j :| 0 <= j < |cmds| && Removes(cmds[j], id);
      assert Removes(front[j], id);
      r := LastRemovalExists(front, id);
      var rest := cmds[r + 1..];
      forall k | 0 <= k < |rest| ensures !Removes(rest[k], id) {
        if r + 1 + k < last { assert rest[k] == front[r + 1..][k]; }
      }
    }
  }

  lemma NoneAfterLast(cmds: seq<Command>, id: int, r: nat)
    requires r < |cmds| && LastRemoval(cmds, id, r)
    ensures forall q :: r < q < |cmds| ==> !Removes(cmds[q], id)
  {
    forall q | r < q < |cmds| ensures !Removes(cmds[q], id) {
      assert cmds[r + 1..][q - r - 1] == cmds[q];
    }
  }

  lemma BackAgainAtLast(listed: bool, cmds: seq<Command>, id: int, r: nat)
    requires r < |cmds| && LastRemoval(cmds, id, r)
    ensures BackAgain(listed, cmds, id) <==> (listed || Added(cmds[..r], id)) && Added(cmds[r + 1..], id)
  {
    var rest := cmds[r + 1..];
    if (listed || Added(cmds[..r], id)) && Added(rest, id) {
      var i :| 0 <= i < |rest| && Adds(rest[i], id);
      assert AddedForGood(rest, id) && BackAfter(listed, cmds, id, r);
    }
    if BackAgain(listed, cmds, id) {
      var q: nat :| q < |cmds| && BackAfter(listed, cmds, id, q);
      NoneAfterLast(cmds, id, r);
      LaterRemoval(listed, cmds, id, q, r);
    }
  }

  lemma LaterRemoval(listed: bool, cmds: seq<Command>, id: int, q: nat, r: nat)
    requires q <= r < |cmds| && BackAfter(listed, cmds, id, q) && Removes(cmds[r], id)
    ensures (listed || Added(cmds[..r], id)) && Added(cmds[r + 1..], id)
  {
    if Added(cmds[..q], id) {
      var k :| 0 <= k < |cmds[..q]| && Adds(cmds[..q][k], id);
      assert Adds(cmds[..r][k], id);
    }
    var tail := cmds[q + 1..];
    var i :| 0 <= i < |tail| && Adds(tail[i], id) && forall j :: i < j < |tail| ==> !Removes(tail[j], id);
    if q < r { assert tail[r - q - 1] == cmds[r]; }
    assert Adds(cmds[r + 1..][q + i - r], id);
  }

  /** After its last removal the reference starts the shard afresh. */
  lemma ReferenceAfterRemoval(b: seq<Replica>, upTo: seq<Command>, rest: seq<Command>, base: nat, id: int)
    requires upTo != [] && Removes(upTo[|upTo| - 1], id)
    ensures ShardFold(b, upTo + rest, base, id) == ShardFold([], rest, base + |upTo|, id)
  {
    ShardFoldOfSum(b, upTo, rest, base, id);
    assert ShardFold(b, upTo, base, id) == [];
  }

  /** The list leaves it out from then on if it knows it. */
  lemma KnownStaysOut(shards: seq<Replica>, upTo: seq<Command>, rest: seq<Command>, base: nat, id: int)
    requires upTo != [] && Removes(upTo[|upTo| - 1], id) && (id in ShardIds(shards) || Added(upTo[..|upTo| - 1], id))
    ensures OnOf(ApplyAll(shards, upTo + rest, base), id) == []
  {
    RemovalRetires(shards, upTo, base, id);
    RetiredStays(ApplyAll(shards, upTo, base), rest, base + |upTo|, id);
    ApplyAllOfSum(shards, upTo, rest, base);
  }

  /** Otherwise it starts it afresh too. */
  lemma UnknownStartsAfresh(shards: seq<Replica>, upTo: seq<Command>, rest: seq<Command>, base: nat, id: int)
    requires upTo != [] && Removes(upTo[|upTo| - 1], id) && id !in ShardIds(shards) && !Added(upTo[..|upTo| - 1], id)
    requires !Removed(rest, id)
    ensures OnOf(ApplyAll(shards, upTo + rest, base), id) == ShardFold([], rest, base + |upTo|, id)
  {
    RemovalRetires(shards, upTo, base, id);
    UnremovedFollows(ApplyAll(shards, upTo, base), rest, base + |upTo|, id, []);
    ApplyAllOfSum(shards, upTo, rest, base);
  }

  lemma KnownExactly(shards: seq<Replica>, b: seq<Replica>, upTo: seq<Command>, rest: seq<Command>, base: nat, id: int)
    requires upTo != [] && Removes(upTo[|upTo| - 1], id) && !Removed(rest, id)
    requires id in ShardIds(shards) || Added(upTo[..|upTo| - 1], id)
    ensures OnOf(ApplyAll(shards, upTo + rest, base), id) == ShardFold(b, upTo + rest, base, id) <==> !Added(rest, id)
  {
    KnownStaysOut(shards, upTo, rest, base, id);
    ReferenceAfterRemoval(b, upTo, rest, base, id);
    NonEmptyAfter([], rest, base + |upTo|, id);
  }

  lemma RemovedExactly(shards: seq<Replica>, b: seq<Replica>, cmds: seq<Command>, base: nat, id: int)
    requires Removed(cmds, id)
    ensures OnOf(ApplyAll(shards, cmds, base), id) == ShardFold(b, cmds, base, id) <==>
            !BackAgain(id in ShardIds(shards), cmds, id)
  {
    var r := LastRemovalExists(cmds, id);
    var upTo, rest := cmds[..r + 1], cmds[r + 1..];
    BackAgainAtLast(id in ShardIds(shards), cmds, id, r);
    assert upTo + rest == cmds && upTo[..r] == cmds[..r] && upTo[r] == cmds[r];
    if id in ShardIds(shards) || Added(cmds[..r], id) {
      KnownExactly(shards, b, upTo, rest, base, id);
    } else {
      UnknownStartsAfresh(shards, upTo, rest, base, id);
      ReferenceAfterRemoval(b, upTo, rest, base, id);
    }
  }

  lemma RemovalRetires(shards: seq<Replica>, cmds: seq<Command>, base: nat, id: int)
    requires cmds != [] && Removes(cmds[|cmds| - 1], id)
    ensures OnOf(ApplyAll(shards, cmds, base), id) == []
    ensures id in ShardIds(ApplyAll(shards, cmds, base)) <==> id in ShardIds(shards) || Added(cmds[..|cmds| - 1], id)
  {
    var before := ApplyAll(shards, cmds[..|cmds| - 1], base);
    KnownAfter(shards, cmds[..|cmds| - 1], base, id);
    KnownStep(before, cmds[|cmds| - 1], base + |cmds|, id);
    OnOfStep(before, cmds[|cmds| - 1], base + |cmds|, id);
    ApplyAllLast(shards, cmds, base);
  }

  // ---- A restart ----

  /** The coordinator as it starts: the configuration, and the snapshot of its node counted as applied. */
  function Restarted(config: seq<Replica>, st: Status): State {
    State(config, ShardIds(config), 0, st.snapIndex)
  }

  lemma FirstCallReplays(config: seq<Replica>, st: Status)
    ensures CatchUp(Restarted(config, st), st).shards == ApplyAll(config, st.applied, st.snapIndex)
  {
    assert st.applied[0..] == st.applied;
  }

  /** The shard comes out of the restart as full replay has it. */
  ghost predicate Recovers(config: seq<Replica>, st: Status, id: int)
    requires st.snapData.Saved?
  {
    var mine, theirs := Of(config, id), Of(st.snapData.replicas, id);
    if Removed(st.applied, id) then !BackAgain(mine != [], st.applied, id) else Joined(mine, theirs, st.applied, id)
  }

  /** The first call after a restart shows the replicas, primary and epochs of a shard that snapshot plus
      suffix gives exactly if the commands since the snapshot remove it for good, or configuration and
      snapshot agree on it, or a set_primary of the shard overrides what they disagree on. */
  lemma RestartExactly(config: seq<Replica>, st: Status, id: int)
    requires AllOn(config) && Low(config, st.snapIndex) && st.snapData.Saved? && Low(st.snapData.replicas, st.snapIndex)
    ensures (OnOf(CatchUp(Restarted(config, st), st).shards, id) == Of(Fold(st.snapData.replicas, st.applied, st.snapIndex), id))
            <==> Recovers(config, st, id)
  {
    var theirs := st.snapData.replicas;
    FirstCallReplays(config, st);
    AllActive(config);
    OfFold(theirs, st.applied, st.snapIndex, id);
    OfKnown(config, id);
    OfKnown(theirs, id);
    if Removed(st.applied, id) {
      RemovedExactly(config, Of(theirs, id), st.applied, st.snapIndex, id);
    } else {
      UnremovedFollows(config, st.applied, st.snapIndex, id, Of(config, id));
      JoinedExactly(Of(config, id), Of(theirs, id), st.applied, st.snapIndex, id);
    }
  }

  /** What persist_cluster_state keeps of the view: everything but the epochs. */
  function Configured(view: seq<Replica>): seq<Replica> {
    if view == [] then [] else Configured(view[..|view| - 1]) + [view[|view| - 1].(epoch := 0)]
  }

  lemma {:induction false} ConfiguredAt(view: seq<Replica>)
    ensures |Configured(view)| == |view|
    ensures forall i :: 0 <= i < |view| ==> Configured(view)[i] == view[i].(epoch := 0)
  {
    if view == [] {
    } else {
      ConfiguredAt(view[..|view| - 1]);
    }
  }

  lemma {:induction false} ConfiguredOf(view: seq<Replica>, id: int)
    ensures Of(Configured(view), id) == Configured(Of(view, id))
  {
    if view == [] {
    } else {
      var front, last := view[..|view| - 1], view[|view| - 1];
      var of, done := Of(front, id), Configured(view);
      ConfiguredOf(front, id);
      assert done[..|done| - 1] == Configured(front) && done[|done| - 1] == last.(epoch := 0);
      if last.shard == id {
        assert (of + [last])[..|of|] == of;
      } else {
        assert Of(view, id) == of && Of(done, id) == Configured(of);
      }
    }
  }

  /** Stripping the epochs off leaves nothing to join exactly if there were none. */
  lemma StrippedJoins(x: seq<Replica>, cmds: seq<Command>, id: int)
    ensures Joined(Configured(x), x, cmds, id) <==> Promoted(cmds, id) || forall i :: 0 <= i < |x| ==> x[i].epoch == 0
  {
    var config := Configured(x);
    ConfiguredAt(x);
    assert SameEndpoints(config, x);
    if config == x {
      forall i | 0 <= i < |x| ensures x[i].epoch == 0 { assert config[i] == x[i]; }
    }
  }

  /** Even with the configuration saved from the snapshot's own view, a shard that stays is shown right only
      if it has no epoch to lose or a later set_primary gives it a new one. */
  lemma SavedConfigRestart(st: Status, id: int)
    requires st.snapData.Saved? && AllOn(st.snapData.replicas) && Low(st.snapData.replicas, st.snapIndex)
    requires !Removed(st.applied, id)
    ensures var view := st.snapData.replicas;
            (OnOf(CatchUp(Restarted(Configured(view), st), st).shards, id) == Of(Fold(view, st.applied, st.snapIndex), id))
            <==> (Promoted(st.applied, id) || forall r :: r in view && r.shard == id ==> r.epoch == 0)
  {
    var view := st.snapData.replicas;
    ConfiguredAt(view);
    RestartExactly(Configured(view), st, id);
    ConfiguredOf(view, id);
    StrippedJoins(Of(view, id), st.applied, id);
    OfHolds(view, id);
  }

  /** Shard 7 was stamped by command 64 and nothing has happened since the snapshot at 100. The coordinator
      comes back with the endpoints that it saved and stamps the shard's writes with 0. */
  lemma RestartForgetsEpoch()
    ensures var st := Status(100, Saved([TheReplica(7, 64)]), []);
            var config := Configured([TheReplica(7, 64)]);
            && config == [TheReplica(7, 0)]
            && Active(CatchUp(Restarted(config, st), st).shards) == [TheReplica(7, 0)]
            && Fold(st.snapData.replicas, st.applied, st.snapIndex) == [TheReplica(7, 64)]
  {
    var config := Configured([TheReplica(7, 64)]);
    ConfiguredAt([TheReplica(7, 64)]);
    assert config == [TheReplica(7, 0)];
    FirstCallReplays(config, Status(100, Saved([TheReplica(7, 64)]), []));
    AllActive(config);
  }

  /** A listed shard that is neither removed nor given a primary stays as the configuration has it. */
  lemma {:induction false} UnpromotedStays(x: seq<Replica>, cmds: seq<Command>, base: nat, id: int)
    requires x != [] && !Removed(cmds, id) && !Promoted(cmds, id)
    ensures ShardFold(x, cmds, base, id) == x
  {
    if cmds == [] {
    } else {
      NotRemovedBefore(cmds, id);
      assert forall j :: 0 <= j < |cmds| - 1 ==> cmds[..|cmds| - 1][j] == cmds[j];
      UnpromotedStays(x, cmds[..|cmds| - 1], base, id);
      assert !Promotes(cmds[|cmds| - 1], id);
    }
  }

  lemma RestartedShardStays(config: seq<Replica>, st: Status, id: int)
    requires AllOn(config) && id in ShardIds(config) && !Removed(st.applied, id) && !Promoted(st.applied, id)
    ensures OnOf(CatchUp(Restarted(config, st), st).shards, id) == Of(config, id)
  {
    FirstCallReplays(config, st);
    AllActive(config);
    OfKnown(config, id);
    UnremovedFollows(config, st.applied, st.snapIndex, id, Of(config, id));
    UnpromotedStays(Of(config, id), st.applied, st.snapIndex, id);
  }
}
