/** Quorum writes and the choice of a new primary (cluster/coordinator_main.cpp:353-414, 520-534). */
module Failover {
  import opened FiniteSets

  /** The replicas that acknowledged. */
  function Acked(acked: seq<bool>): set<nat> {
    set i: nat | i < |acked| && acked[i]
  }

  /** i is the last replica marked primary, or -1 if none is. */
  ghost predicate IsPrimaryIndex(primary: seq<bool>, i: int) {
    && -1 <= i < |primary| && (i >= 0 ==> primary[i])
    && forall j :: i < j < |primary| ==> !primary[j]
  }

  lemma OneMoreAck(acked: seq<bool>, i: nat)
    requires i < |acked|
    ensures Acked(acked[..i + 1]) == Acked(acked[..i]) + if acked[i] then {i} else {}
    ensures i !in Acked(acked[..i])
  {
  }

  /** A write or a delete at every replica: it succeeds if the primary and a majority acknowledge. */
  method QuorumWrite(primary: seq<bool>, acked: seq<bool>) returns (ok: bool, acks: nat, needed: nat)
    requires |primary| == |acked|
    ensures acks == |Acked(acked)| && needed == |acked| / 2 + 1
    ensures ok <==> Confirms(primary, acked)
  {
    var primaryIndex := -1;
    for i := 0 to |primary|
      invariant IsPrimaryIndex(primary[..i], primaryIndex)
    {
      if primary[i] { primaryIndex := i; }
    }
    assert primary[..|primary|] == primary;
    acks := 0;
    var primaryOk := false;
    for i := 0 to |acked|
      invariant acks == |Acked(acked[..i])| && (primaryOk <==> 0 <= primaryIndex < i && acked[primaryIndex])
    {
      OneMoreAck(acked, i);
      if acked[i] { acks := acks + 1; }
      if i == primaryIndex && acked[i] { primaryOk := true; }
    }
    assert acked[..|acked|] == acked;
    needed := |acked| / 2 + 1;
    ok := primaryOk && acks >= needed;
  }

  /** More than half of the replicas acknowledged, and the one that counts as primary among them. */
  ghost predicate Confirms(primary: seq<bool>, acked: seq<bool>)
    requires |primary| == |acked|
  {
    && 2 * |Acked(acked)| > |acked|
    && exists p :: IsPrimaryIndex(primary, p) && p >= 0 && acked[p]
  }

  /** So what the coordinator calls successful joins the history as confirmed: every replica that acknowledged
      has stored it, some others may have, and the primary has. */
  lemma ConfirmedJoinsHistory(writes: seq<Write>, id: nat, primary: seq<bool>, acked: seq<bool>, stored: set<nat>)
    requires |primary| == |acked| && Acked(acked) <= stored && (forall r :: r in stored ==> r < |acked|)
    requires History(writes, |acked|) && forall i :: 0 <= i < |writes| ==> writes[i].id != id
    ensures History(writes + [Write(id, stored, Confirms(primary, acked))], |acked|)
    ensures Confirms(primary, acked) ==> exists p :: IsPrimaryIndex(primary, p) && p in stored
  {
    SubsetSize(Acked(acked), stored);
    if Confirms(primary, acked) {
      var p :| IsPrimaryIndex(primary, p) && p >= 0 && acked[p];
      assert p in Acked(acked);
    }
  }

  // ---- What the replicas hold ----

  /** One write: the replicas that stored it, and whether the coordinator confirmed it. */
  datatype Write = Write(id: nat, stored: set<nat>, confirmed: bool)

  /** Replicas are 0..size-1. A confirmed write was stored by a majority, and every id is written once. */
  ghost predicate History(writes: seq<Write>, size: nat) {
    && (forall i :: 0 <= i < |writes| ==>
          && (forall r :: r in writes[i].stored ==> r < size)
          && (writes[i].confirmed ==> |writes[i].stored| >= size / 2 + 1))
    && forall i, j :: 0 <= i < j < |writes| ==> writes[i].id != writes[j].id
  }

  function Contents(writes: seq<Write>, r: nat): set<nat> {
    if writes == [] then {}
    else
      var last := writes[|writes| - 1];
      Contents(writes[..|writes| - 1], r) + (if r in last.stored then {last.id} else {})
  }

  /** The element count, which goes up by one with each write that is stored. */
  function ElementCount(writes: seq<Write>, r: nat): nat {
    if writes == [] then 0
    else ElementCount(writes[..|writes| - 1], r) + (if r in writes[|writes| - 1].stored then 1 else 0)
  }

  lemma {:induction false} ContentsAreWritten(writes: seq<Write>, r: nat)
    ensures forall id :: id in Contents(writes, r) <==> exists i :: 0 <= i < |writes| && writes[i].id == id && r in writes[i].stored
  {
    if writes == [] {
    } else {
      var front, last := writes[..|writes| - 1], writes[|writes| - 1];
      ContentsAreWritten(front, r);
      forall id ensures id in Contents(writes, r) <==> exists i :: 0 <= i < |writes| && writes[i].id == id && r in writes[i].stored {
        if id in Contents(front, r) {
          var i :| 0 <= i < |front| && front[i].id == id && r in front[i].stored;
          assert writes[i] == front[i];
        }
        if exists i :: 0 <= i < |writes| && writes[i].id == id && r in writes[i].stored {
          var i :| 0 <= i < |writes| && writes[i].id == id && r in writes[i].stored;
          assert i < |front| ==> front[i] == writes[i];
        }
      }
    }
  }

  /** With ids written once the element count is the number of ids held. */
  lemma {:induction false} CountIsSize(writes: seq<Write>, size: nat, r: nat)
    requires History(writes, size)
    ensures ElementCount(writes, r) == |Contents(writes, r)|
  {
    if writes == [] {
    } else {
      var front := writes[..|writes| - 1];
      CountIsSize(front, size, r);
      ContentsAreWritten(front, r);
    }
  }

  // ---- The choice ----

  /** A non-primary replica that answers the Stats call. */
  predicate Answers(reachable: set<nat>, primary: nat, r: nat) {
    r in reachable && r != primary
  }

  /** The first of the answering replicas with the highest count, or -1 if none answers. */
  ghost predicate IsCandidate(reachable: set<nat>, primary: nat, counts: seq<nat>, c: int) {
    if c == -1 then forall r :: 0 <= r < |counts| ==> !Answers(reachable, primary, r)
    else
      && 0 <= c < |counts| && Answers(reachable, primary, c)
      && (forall r :: 0 <= r < |counts| && Answers(reachable, primary, r) ==> counts[r] <= counts[c])
      && forall r :: 0 <= r < c && Answers(reachable, primary, r) ==> counts[r] < counts[c]
  }

  method ChooseCandidate(reachable: set<nat>, primary: nat, counts: seq<nat>) returns (c: int)
    ensures IsCandidate(reachable, primary, counts, c)
  {
    c := -1;
    var best := 0;
    for r := 0 to |counts|
      invariant c != -1 ==> 0 <= c < r && best == counts[c]
      invariant IsCandidate(reachable, primary, counts[..r], c)
    {
      if r != primary && r in reachable {
        if c == -1 || counts[r] > best { c, best := r, counts[r]; }
      }
      assert counts[..r + 1][..r] == counts[..r];
    }
    assert counts[..|counts|] == counts;
  }

  // ---- Confirmed writes survive ----

  /** Of any two reachable replicas one holds everything the other does. */
  ghost predicate Nested(writes: seq<Write>, reachable: set<nat>) {
    forall a, b :: a in reachable && b in reachable ==>
      Contents(writes, a) <= Contents(writes, b) || Contents(writes, b) <= Contents(writes, a)
  }

  /** Replica c holds every confirmed write. */
  ghost predicate Complete(writes: seq<Write>, c: nat) {
    forall i :: 0 <= i < |writes| && writes[i].confirmed ==> writes[i].id in Contents(writes, c)
  }

  function Counts(writes: seq<Write>, size: nat): (counts: seq<nat>)
    ensures |counts| == size && forall r :: 0 <= r < size ==> counts[r] == ElementCount(writes, r)
  {
    if size == 0 then [] else Counts(writes, size - 1) + [ElementCount(writes, size - 1)]
  }

  /** Among nested replicas the one with the highest count holds what any of them holds. */
  lemma HighestHoldsAll(writes: seq<Write>, size: nat, reachable: set<nat>, primary: nat, c: nat, r: nat)
    requires History(writes, size) && Nested(writes, reachable) && r < size
    requires IsCandidate(reachable, primary, Counts(writes, size), c) && Answers(reachable, primary, r)
    ensures Contents(writes, r) <= Contents(writes, c)
  {
    CountIsSize(writes, size, r);
    CountIsSize(writes, size, c);
    assert Counts(writes, size)[r] <= Counts(writes, size)[c];
    if Contents(writes, c) <= Contents(writes, r) { SubsetSize(Contents(writes, c), Contents(writes, r)); }
  }

  /** If enough non-primary replicas answer and their contents are nested, the chosen one holds every
      write that was ever confirmed. */
  lemma FailoverKeepsConfirmed(writes: seq<Write>, size: nat, reachable: set<nat>, primary: nat, c: nat)
    requires size >= 2 && History(writes, size) && primary < size && (forall r :: r in reachable ==> r < size)
    requires Nested(writes, reachable) && |reachable - {primary}| >= size - size / 2
    requires IsCandidate(reachable, primary, Counts(writes, size), c)
    ensures Complete(writes, c)
  {
    forall i | 0 <= i < |writes| && writes[i].confirmed ensures writes[i].id in Contents(writes, c) {
      var r := SetsMeet(writes[i].stored, reachable - {primary}, size);
      ContentsAreWritten(writes, r);
      HighestHoldsAll(writes, size, reachable, primary, c, r);
    }
  }

  /** The number is exact: with fewer answers, whoever they come from, a majority that did not answer may
      have confirmed a write that no answering replica holds. */
  lemma FewerAnswersMayLose(size: nat, reachable: set<nat>, primary: nat, id: nat)
    requires size >= 2 && primary < size && (forall r :: r in reachable ==> r < size)
    requires |reachable - {primary}| < size - size / 2
    ensures var writes := [Write(id, Members(size) - (reachable - {primary}), true)];
            && History(writes, size) && Nested(writes, reachable - {primary})
            && forall c :: c in reachable - {primary} ==> !Complete(writes, c)
  {
    var others := reachable - {primary};
    var writes := [Write(id, Members(size) - others, true)];
    assert others <= Members(size);
    assert |Members(size) - others| == size - |others|;
    forall r | r in others ensures Contents(writes, r) == {} {
      assert writes[..0] == [];
    }
    assert writes[0].confirmed;
  }

  lemma TwoWrites(a: Write, b: Write, r: nat)
    ensures ElementCount([a, b], r) == (if r in a.stored then 1 else 0) + (if r in b.stored then 1 else 0)
    ensures Contents([a, b], r) == (if r in a.stored then {a.id} else {}) + (if r in b.stored then {b.id} else {})
  {
    assert [a, b][..1] == [a] && [a][..0] == [];
    assert ElementCount([a], r) == if r in a.stored then 1 else 0;
    assert Contents([a], r) == if r in a.stored then {a.id} else {};
  }

  /** And without nesting the count cannot tell: two replicas that each missed one confirmed write tie, and
      the one that is chosen lacks what the other holds. */
  lemma TieMayLose(a: Write, b: Write)
    requires a == Write(1, {0, 1, 2}, true) && b == Write(2, {0, 1, 3}, true)
    ensures History([a, b], 4) && ElementCount([a, b], 2) == ElementCount([a, b], 3)
    ensures !Complete([a, b], 2) && !Complete([a, b], 3)
  {
    TwoWrites(a, b, 2);
    TwoWrites(a, b, 3);
    assert [a, b][0].confirmed && [a, b][1].confirmed;
  }
}
