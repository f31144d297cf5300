/** Moving keys when a shard is added or removed (cluster/coordinator_main.cpp:424-441, 952-974, 1043-1069).

    `Data` says which keys are live on the primary of each shard. Whether an RPC gets through is an input. */
module Migration {
  import opened HashRings

  type Key = string
  type Data = map<int, set<Key>>

  predicate HoldsKey(data: Data, shard: int, key: Key) {
    shard in data && key in data[shard]
  }

  ghost predicate Somewhere(data: Data, key: Key) {
    exists shard :: HoldsKey(data, shard, key)
  }

  ghost predicate SameKeys(data: Data, data': Data) {
    forall key :: Somewhere(data, key) <==> Somewhere(data', key)
  }

  /** The two writes a migration makes, as the primaries see them. */
  datatype Write = Put(key: Key, shard: int) | Drop(key: Key, shard: int)

  function Written(data: Data, w: Write): Data {
    if w.shard !in data then data
    else data[w.shard := if w.Put? then data[w.shard] + {w.key} else data[w.shard] - {w.key}]
  }

  function Play(data: Data, writes: seq<Write>): Data {
    if writes == [] then data else Written(Play(data, writes[..|writes| - 1]), writes[|writes| - 1])
  }

  ghost predicate SameAfter(data: Data, writes: seq<Write>, k: nat)
    requires k <= |writes|
  {
    SameKeys(data, Play(data, writes[..k]))
  }

  /** No key is lost or invented at any point of the writes. */
  ghost predicate Conserved(data: Data, writes: seq<Write>) {
    forall k :: 0 <= k <= |writes| ==> SameAfter(data, writes, k)
  }

  lemma PlayNext(data: Data, writes: seq<Write>, w: Write)
    ensures Play(data, writes + [w]) == Written(Play(data, writes), w)
  {
  }

  lemma ConservedNext(data: Data, writes: seq<Write>, w: Write)
    requires Conserved(data, writes) && SameKeys(data, Play(data, writes + [w]))
    ensures Conserved(data, writes + [w])
  {
    forall k | 0 <= k <= |writes| + 1 ensures SameAfter(data, writes + [w], k) {
      if k <= |writes| {
        assert SameAfter(data, writes, k) && (writes + [w])[..k] == writes[..k];
      } else {
        assert (writes + [w])[..k] == writes + [w];
      }
    }
  }

  /** Putting a key that is live somewhere, and dropping one that is live elsewhere too, change no set of live keys. */
  lemma WriteKeepsKeys(data: Data, w: Write)
    requires w.shard in data
    requires if w.Put? then Somewhere(data, w.key) else exists s :: s != w.shard && HoldsKey(data, s, w.key)
    ensures SameKeys(data, Written(data, w))
  {
    var data' := Written(data, w);
    forall key ensures Somewhere(data, key) <==> Somewhere(data', key) {
      if Somewhere(data, key) {
        var s :| HoldsKey(data, s, key) && (w.Drop? && key == w.key ==> s != w.shard);
        assert HoldsKey(data', s, key);
      }
      if Somewhere(data', key) {
        var s :| HoldsKey(data', s, key);
        assert HoldsKey(data, s, key) || (w.Put? && key == w.key);
      }
    }
  }

  lemma SameKeysTransitive(a: Data, b: Data, c: Data)
    requires SameKeys(a, b) && SameKeys(b, c)
    ensures SameKeys(a, c)
  {
  }

  /** What the RPCs of one move do: whether the key could be read, whether the destination's primary stored
      it, whether the quorum write as a whole succeeded, whether the source's primary deleted it. */
  datatype Outcome = Outcome(read: bool, stored: bool, quorum: bool, deleted: bool)

  /** A quorum write that succeeds includes the primary. */
  predicate Possible(o: Outcome) {
    o.quorum ==> o.stored
  }

  /** Every key is on the shard that the ring over `ids` assigns to it. */
  ghost predicate Placed(f: Hash, hash: Key -> nat, ids: set<int>, data: Data)
    requires ids != {}
  {
    forall key :: Somewhere(data, key) ==> HoldsKey(data, Owner(f, ids, hash(key)), key)
  }

  /** What one move changes: the key is added at the destination exactly if it was read and stored, it leaves
      the source only if the quorum write succeeded, and nothing else changes. */
  ghost predicate MoveOk(was: Data, now: Data, source: int, dest: int, key: Key, o: Outcome) {
    && now.Keys == was.Keys
    && (forall s, k :: s in was && (k != key || (s != source && s != dest)) ==> (k in now[s] <==> k in was[s]))
    && (HoldsKey(now, dest, key) <==> HoldsKey(was, dest, key) || (o.read && HoldsKey(was, source, key) && o.stored))
    && (HoldsKey(now, source, key) <==> HoldsKey(was, source, key) && !(o.read && o.quorum && o.deleted))
  }

  /** The data after one move. */
  function Moved(data: Data, source: int, dest: int, key: Key, o: Outcome): Data {
    if !(o.read && HoldsKey(data, source, key)) then data
    else
      var stored := if o.stored then Written(data, Put(key, dest)) else data;
      if o.quorum && o.deleted then Written(stored, Drop(key, source)) else stored
  }

  lemma MovedIsOk(data: Data, source: int, dest: int, key: Key, o: Outcome)
    requires source in data && dest in data && source != dest && Possible(o)
    ensures MoveOk(data, Moved(data, source, dest, key, o), source, dest, key, o)
  {
  }

  class DataPlane {
    var data: Data
    ghost var began: Data
    ghost var writes: seq<Write>

    /** `began` is the data when the rebalance began and `writes` what it has written since. */
    ghost predicate Valid()
      reads this
    {
      data == Play(began, writes) && Conserved(began, writes) && data.Keys == began.Keys
    }

    constructor (data: Data)
      ensures Valid() && this.data == data && began == data && writes == []
    {
      this.data, began, writes := data, data, [];
    }

    method WriteOne(w: Write)
      requires Valid() && w.shard in data
      requires if w.Put? then Somewhere(data, w.key) else exists s :: s != w.shard && HoldsKey(data, s, w.key)
      modifies this`data, this`writes
      ensures Valid() && writes == old(writes) + [w] && data == Written(old(data), w)
    {
      PlayNext(began, writes, w);
      WriteKeepsKeys(data, w);
      assert SameAfter(began, writes, |writes|) && writes[..|writes|] == writes;
      SameKeysTransitive(began, data, Written(data, w));
      ConservedNext(began, writes, w);
      data := Written(data, w);
      writes := writes + [w];
    }

    /** Read from the source, write to the destination, and only then delete from the source. */
    method MigrateOneKey(source: int, dest: int, key: Key, o: Outcome) returns (moved: bool)
      requires Valid() && source in data && dest in data && source != dest && Possible(o)
      modifies this`data, this`writes
      ensures Valid() && old(writes) <= writes
      ensures moved == (o.read && HoldsKey(old(data), source, key) && o.quorum)
      ensures data == Moved(old(data), source, dest, key, o) && MoveOk(old(data), data, source, dest, key, o)
    {
      MovedIsOk(data, source, dest, key, o);
      if !(o.read && key in data[source]) { return false; }
      if o.stored {
        assert HoldsKey(data, source, key);
        WriteOne(Put(key, dest));
      }
      if !o.quorum { return false; }
      assert HoldsKey(data, dest, key);
      if o.deleted { WriteOne(Drop(key, source)); }
      return true;
    }

    /** One listed key of a source, after those of `done`. */
    method DrainKey(ring: HashRing, hash: Key -> nat, ghost ids: set<int>, newId: int, source: int, ghost done: seq<Key>,
                    key: Key, outcome: Key -> Outcome, ghost was: Data, migrated: nat, failed: nat)
      returns (migrated': nat, failed': nat)
      requires Valid() && source != newId && Possible(outcome(key)) && Built(ring.hash, ids + {newId}, ring.ring)
      requires Drew(ring.hash, hash, ids, newId, source, done, outcome, was, data) && key in was[source]
      requires Counted(ring.hash, hash, ids, newId, done, outcome, migrated, failed)
      modifies this`data, this`writes
      ensures Valid() && old(writes) <= writes
      ensures Drew(ring.hash, hash, ids, newId, source, done + [key], outcome, was, data)
      ensures Counted(ring.hash, hash, ids, newId, done + [key], outcome, migrated', failed')
    {
      migrated', failed' := migrated, failed;
      var dest := ring.Route(hash(key), ids + {newId});
      if dest == newId {
        var moved := MigrateOneKey(source, newId, key, outcome(key));
        if moved { migrated' := migrated + 1; } else { failed' := failed + 1; }
      }
      StillThere(ring.hash, hash, ids, newId, source, done, key, outcome, was, old(data));
      DrewNext(ring.hash, hash, ids, newId, source, done, key, outcome, was, old(data), data);
      CountedNext(ring.hash, hash, ids, newId, done, key, outcome, HoldsKey(old(data), source, key), migrated, failed, migrated', failed');
    }

    /** One source of an addition: each listed key that the new ring gives to the new shard is moved. */
    method DrainSource(ring: HashRing, hash: Key -> nat, ghost ids: set<int>, newId: int, source: int, listed: seq<Key>,
                       outcome: Key -> Outcome)
      returns (migrated: nat, failed: nat)
      requires Valid() && source in data && newId in data && source != newId && forall key :: Possible(outcome(key))
      requires Built(ring.hash, ids + {newId}, ring.ring) && forall key :: key in listed <==> key in data[source]
      modifies this`data, this`writes
      ensures Valid() && old(writes) <= writes && Drew(ring.hash, hash, ids, newId, source, listed, outcome, old(data), data)
      ensures Counted(ring.hash, hash, ids, newId, listed, outcome, migrated, failed)
    {
      migrated, failed := 0, 0;
      for i := 0 to |listed|
        invariant Valid() && old(writes) <= writes
        invariant Drew(ring.hash, hash, ids, newId, source, listed[..i], outcome, old(data), data)
        invariant Counted(ring.hash, hash, ids, newId, listed[..i], outcome, migrated, failed)
      {
        assert listed[..i + 1] == listed[..i] + [listed[i]];
        migrated, failed := DrainKey(ring, hash, ids, newId, source, listed[..i], listed[i], outcome, old(data), migrated, failed);
      }
      assert listed[..|listed|] == listed;
    }

    /** The loop over the sources. */
    method SpreadKeys(ring: HashRing, hash: Key -> nat, ghost ids: set<int>, sources: seq<int>, newId: int, reached: int -> bool,
                      listing: int -> seq<Key>, outcome: (int, Key) -> Outcome)
      returns (migrated: nat, failed: nat)
      requires Valid() && newId in data && newId !in sources && (forall s :: s in sources ==> s in data) && Unrepeated(sources)
      requires Built(ring.hash, ids + {newId}, ring.ring) && forall s, key :: Possible(outcome(s, key))
      requires forall s, key :: s in sources ==> (key in listing(s) <==> key in data[s])
      modifies this`data, this`writes
      ensures Valid() && Spread(ring.hash, hash, ids, newId, sources, reached, outcome, old(data), data)
      ensures AllCounted(ring.hash, hash, ids, newId, sources, reached, listing, outcome, migrated, failed)
    {
      migrated, failed := 0, 0;
      ghost var f := ring.hash;
      for i := 0 to |sources|
        invariant Valid() && Spread(f, hash, ids, newId, sources[..i], reached, outcome, old(data), data)
        invariant AllCounted(f, hash, ids, newId, sources[..i], reached, listing, outcome, migrated, failed)
      {
        var source := sources[i];
        ghost var before, m', n' := data, migrated, failed;
        assert source in sources && source !in sources[..i] && sources[..i + 1] == sources[..i] + [source];
        if reached(source) {
          Untouched(f, hash, ids, newId, sources[..i], source, reached, outcome, old(data), data);
          var m, n := DrainSource(ring, hash, ids, newId, source, listing(source), From(outcome, source));
          migrated, failed := migrated + m, failed + n;
        }
        SpreadNext(f, hash, ids, newId, sources[..i], source, reached, listing(source), outcome, old(data), before, data);
        AllCountedNext(f, hash, ids, newId, sources[..i], source, reached, listing, outcome, m', n', migrated, failed);
      }
      assert sources[..|sources|] == sources;
    }

    /** The migration after add_shard was committed. `reached` says for each source whether it has a primary
        that could be listed. If all were reached and no move failed, every key is where the new ring says. */
    method MigrateToNew(ring: HashRing, hash: Key -> nat, sources: seq<int>, newId: int, reached: int -> bool,
                        listing: int -> seq<Key>, outcome: (int, Key) -> Outcome)
      returns (migrated: nat, failed: nat)
      requires Valid() && began == data && writes == [] && newId in data && Ids(sources) != {} && newId !in sources
      requires (forall s :: s in sources ==> s in data) && Unrepeated(sources)
      requires Built(ring.hash, Ids(sources) + {newId}, ring.ring)
      requires forall s, key :: Possible(outcome(s, key))
      requires forall s, key :: s in sources ==> (key in listing(s) <==> key in data[s])
      modifies this`data, this`writes
      ensures Valid() && SameKeys(old(data), data)
      ensures Spread(ring.hash, hash, Ids(sources), newId, sources, reached, outcome, old(data), data)
      ensures (forall s :: s in sources ==> NoRepeats(listing(s))) ==>
                && migrated == TotalMoves(ring.hash, hash, Ids(sources), newId, sources, reached, listing, outcome, true)
                && failed == TotalMoves(ring.hash, hash, Ids(sources), newId, sources, reached, listing, outcome, false)
      ensures failed == 0 && (forall s :: s in sources ==> reached(s)) && Placed(ring.hash, hash, Ids(sources), old(data)) ==>
                Placed(ring.hash, hash, Ids(sources) + {newId}, data)
      ensures (forall s :: s in sources ==> reached(s) && NoRepeats(listing(s))) && Placed(ring.hash, hash, Ids(sources), old(data))
              && (forall s, key :: s in sources ==> outcome(s, key).read && outcome(s, key).quorum) ==>
                failed == 0 && Placed(ring.hash, hash, Ids(sources) + {newId}, data)
    {
      migrated, failed := SpreadKeys(ring, hash, Ids(sources), sources, newId, reached, listing, outcome);
      ghost var ids, f := Ids(sources), ring.hash;
      assert SameAfter(began, writes, |writes|) && writes[..|writes|] == writes;
      if failed == 0 && (forall s :: s in sources ==> reached(s)) && Placed(f, hash, ids, old(data)) {
        SpreadIsPlaced(f, hash, sources, newId, reached, listing, outcome, old(data), data);
      }
      if forall s, key :: s in sources ==> outcome(s, key).read && outcome(s, key).quorum {
        NoneFail(f, hash, ids, newId, sources, reached, listing, outcome);
      }
    }

    /** The migration before remove_shard is proposed: each key of the leaving shard goes to its owner among
        the remaining ones. If the listing was reached and no move failed, the ring of the remaining shards
        finds every key, and nothing is live on the leaving shard alone. */
    method MigrateFromLeaving(ring: HashRing, hash: Key -> nat, ghost remaining: set<int>, leaving: int, reached: bool,
                              listed: seq<Key>, available: int -> bool, outcome: Key -> Outcome)
      returns (migrated: nat, failed: nat)
      requires Valid() && began == data && writes == [] && remaining != {} && leaving in data && leaving !in remaining
      requires remaining <= data.Keys && Built(ring.hash, remaining, ring.ring) && forall key :: Possible(outcome(key))
      requires forall key :: key in listed <==> key in data[leaving]
      modifies this`data, this`writes
      ensures Valid() && SameKeys(old(data), data)
      ensures failed == 0 && reached && Placed(ring.hash, hash, remaining + {leaving}, old(data)) ==>
                Placed(ring.hash, hash, remaining, data)
      ensures Emptied(ring.hash, hash, remaining, leaving, if reached then listed else [], available, outcome, old(data), data)
      ensures LeftCounted(ring.hash, hash, remaining, if reached then listed else [], available, outcome, migrated, failed)
    {
      migrated, failed := 0, 0;
      ghost var f := ring.hash;
      if reached {
        for i := 0 to |listed|
          invariant Valid() && Emptied(f, hash, remaining, leaving, listed[..i], available, outcome, old(data), data)
          invariant LeftCounted(f, hash, remaining, listed[..i], available, outcome, migrated, failed)
        {
          var key := listed[i];
          var dest := ring.Route(hash(key), remaining);
          ghost var before, m, n := data, migrated, failed;
          assert listed[..i + 1] == listed[..i] + [key];
          if !available(dest) {
            failed := failed + 1;
          } else {
            var moved := MigrateOneKey(leaving, dest, key, outcome(key));
            if moved { migrated := migrated + 1; } else { failed := failed + 1; }
          }
          EmptiedNext(f, hash, remaining, leaving, listed[..i], key, available, outcome, old(data), before, data);
          LeftCountedNext(f, hash, remaining, listed[..i], key, available, outcome, HoldsKey(before, leaving, key), m, n, migrated, failed);
        }
        assert listed[..|listed|] == listed;
      }
      assert SameAfter(began, writes, |writes|) && writes[..|writes|] == writes;
      if failed == 0 && reached && Placed(f, hash, remaining + {leaving}, old(data)) {
        LeftIsPlaced(f, hash, remaining, leaving, listed, available, outcome, old(data), data);
      }
    }

    /** The whole removal: the keys are moved, and the shard is retired once the command is committed, however
        many moves failed. A key outlives it exactly if another shard holds it already or its move arrives. */
    method RemoveShard(ring: HashRing, hash: Key -> nat, ghost remaining: set<int>, leaving: int, reached: bool,
                       listed: seq<Key>, available: int -> bool, outcome: Key -> Outcome, committed: bool)
      returns (migrated: nat, failed: nat)
      requires Valid() && began == data && writes == [] && remaining != {} && leaving in data && leaving !in remaining
      requires remaining <= data.Keys && Built(ring.hash, remaining, ring.ring) && forall key :: Possible(outcome(key))
      requires forall key :: key in listed <==> key in data[leaving]
      modifies this`data, this`writes
      ensures !committed ==> SameKeys(old(data), data)
      ensures committed ==> forall key :: Somewhere(data, key) <==>
                HeldElsewhere(old(data), leaving, key) ||
                (HoldsKey(old(data), leaving, key) && reached && Arrives(ring.hash, hash, remaining, available, outcome, key))
      ensures committed && reached && failed == 0 && Placed(ring.hash, hash, remaining + {leaving}, old(data)) ==>
                SameKeys(old(data), data) && Placed(ring.hash, hash, remaining, data)
      ensures LeftCounted(ring.hash, hash, remaining, if reached then listed else [], available, outcome, migrated, failed)
      ensures NoRepeats(listed) && (forall key :: Carried(ring.hash, hash, remaining, available, outcome, key)) ==> failed == 0
    {
      migrated, failed := MigrateFromLeaving(ring, hash, remaining, leaving, reached, listed, available, outcome);
      if forall key :: Carried(ring.hash, hash, remaining, available, outcome, key) {
        NoLeaveFails(ring.hash, hash, remaining, if reached then listed else [], available, outcome);
      }
      if committed {
        ghost var moved := data;
        data := Retire(data, leaving);
        forall key ensures Somewhere(data, key) <==> HeldElsewhere(moved, leaving, key) {
          RetiredKeys(moved, leaving, key);
        }
        forall key ensures HeldElsewhere(moved, leaving, key) <==>
                  HeldElsewhere(old(data), leaving, key) ||
                  (HoldsKey(old(data), leaving, key) && reached &&
                   Arrives(ring.hash, hash, remaining, available, outcome, key)) {
          EmptiedKeys(ring.hash, hash, remaining, leaving, if reached then listed else [], available, outcome, old(data), moved, key);
        }
        if reached && failed == 0 && Placed(ring.hash, hash, remaining + {leaving}, old(data)) {
          CleanRetirement(ring.hash, hash, remaining, leaving, moved);
          SameKeysTransitive(old(data), moved, data);
        }
      }
    }
  }

  /** The move of the key reaches its new owner: the owner has replicas, the key can be read and is stored. */
  ghost predicate Arrives(f: Hash, hash: Key -> nat, remaining: set<int>, available: int -> bool, outcome: Key -> Outcome, key: Key)
    requires remaining != {}
  {
    available(Owner(f, remaining, hash(key))) && outcome(key).read && outcome(key).stored
  }

  ghost predicate HeldElsewhere(data: Data, leaving: int, key: Key) {
    exists s :: s != leaving && HoldsKey(data, s, key)
  }

  /** After the moves of `done`: on the other shards there is exactly what was there and what arrived, and the
      leaving shard has lost exactly the keys that were deleted after a quorum write. */
  ghost predicate Emptied(f: Hash, hash: Key -> nat, remaining: set<int>, leaving: int, done: seq<Key>,
                          available: int -> bool, outcome: Key -> Outcome, was: Data, now: Data)
    requires remaining != {}
  {
    && now.Keys == was.Keys
    && (forall s, key :: s != leaving ==>
          (HoldsKey(now, s, key) <==>
             HoldsKey(was, s, key) ||
             (key in done && s == Owner(f, remaining, hash(key)) && Arrives(f, hash, remaining, available, outcome, key))))
    && forall key :: HoldsKey(now, leaving, key) <==>
         HoldsKey(was, leaving, key) &&
         !(key in done && available(Owner(f, remaining, hash(key))) && Leaves(outcome(key)))
  }

  /** The move of the key is carried out: the owner has replicas, the key can be read, a quorum stores it. */
  ghost predicate Carried(f: Hash, hash: Key -> nat, remaining: set<int>, available: int -> bool, outcome: Key -> Outcome, key: Key)
    requires remaining != {}
  {
    available(Owner(f, remaining, hash(key))) && outcome(key).read && outcome(key).quorum
  }

  /** How many of the listed keys have their move carried out, or have not. */
  ghost function LeaveCount(f: Hash, hash: Key -> nat, remaining: set<int>, listed: seq<Key>, available: int -> bool,
                            outcome: Key -> Outcome, done: bool): nat
    requires remaining != {}
  {
    if listed == [] then 0
    else
      LeaveCount(f, hash, remaining, listed[..|listed| - 1], available, outcome, done) +
      (if done == Carried(f, hash, remaining, available, outcome, listed[|listed| - 1]) then 1 else 0)
  }

  /** The two counters of a removal. */
  ghost predicate LeftCounted(f: Hash, hash: Key -> nat, remaining: set<int>, listed: seq<Key>, available: int -> bool,
                              outcome: Key -> Outcome, migrated: nat, failed: nat)
    requires remaining != {}
  {
    && (failed == 0 ==> forall key :: key in listed ==> Carried(f, hash, remaining, available, outcome, key))
    && (NoRepeats(listed) ==>
          && migrated == LeaveCount(f, hash, remaining, listed, available, outcome, true)
          && failed == LeaveCount(f, hash, remaining, listed, available, outcome, false))
  }

  lemma LeftCountedNext(f: Hash, hash: Key -> nat, remaining: set<int>, listed: seq<Key>, key: Key, available: int -> bool,
                        outcome: Key -> Outcome, held: bool, migrated: nat, failed: nat, migrated': nat, failed': nat)
    requires remaining != {} && LeftCounted(f, hash, remaining, listed, available, outcome, migrated, failed)
    requires key !in listed ==> held
    requires if Carried(f, hash, remaining, available, outcome, key) && held then migrated' == migrated + 1 && failed' == failed
             else migrated' == migrated && failed' == failed + 1
    ensures LeftCounted(f, hash, remaining, listed + [key], available, outcome, migrated', failed')
  {
    assert (listed + [key])[..|listed|] == listed;
    if NoRepeats(listed + [key]) { NoRepeatsFront(listed, key); }
  }

  lemma {:induction false} NoLeaveFails(f: Hash, hash: Key -> nat, remaining: set<int>, listed: seq<Key>, available: int -> bool,
                                        outcome: Key -> Outcome)
    requires remaining != {} && forall key :: Carried(f, hash, remaining, available, outcome, key)
    ensures LeaveCount(f, hash, remaining, listed, available, outcome, false) == 0
  {
    if listed == [] {
    } else {
      NoLeaveFails(f, hash, remaining, listed[..|listed| - 1], available, outcome);
    }
  }

  /** The ring with the new shard gives the key to it. */
  ghost predicate MovesTo(f: Hash, hash: Key -> nat, ids: set<int>, newId: int, key: Key) {
    Owner(f, ids + {newId}, hash(key)) == newId
  }

  // ---- What an addition moves, in terms of what the calls do ----

  ghost predicate NoRepeats(keys: seq<Key>) {
    forall i, j :: 0 <= i < j < |keys| ==> keys[i] != keys[j]
  }

  lemma NoRepeatsFront(keys: seq<Key>, key: Key)
    requires NoRepeats(keys + [key])
    ensures NoRepeats(keys) && key !in keys
  {
    var all := keys + [key];
    forall i, j | 0 <= i < j < |keys| ensures keys[i] != keys[j] { assert all[i] != all[j]; }
    forall i | 0 <= i < |keys| ensures keys[i] != key { assert all[i] != all[|keys|]; }
  }

  /** What the calls do for the keys of one source. */
  function From(outcome: (int, Key) -> Outcome, source: int): Key -> Outcome {
    key => outcome(source, key)
  }

  /** How many of the listed keys are bound for the new shard and are read and stored by a quorum, or are not. */
  ghost function MoveCount(f: Hash, hash: Key -> nat, ids: set<int>, newId: int, listed: seq<Key>, outcome: Key -> Outcome,
                           done: bool): nat
  {
    if listed == [] then 0
    else
      var key := listed[|listed| - 1];
      MoveCount(f, hash, ids, newId, listed[..|listed| - 1], outcome, done) +
      (if MovesTo(f, hash, ids, newId, key) && done == (outcome(key).read && outcome(key).quorum) then 1 else 0)
  }

  /** Every listed key that is bound for the new shard is read and stored by a quorum. */
  ghost predicate AllDone(f: Hash, hash: Key -> nat, ids: set<int>, newId: int, listed: seq<Key>, outcome: Key -> Outcome) {
    forall key :: key in listed && MovesTo(f, hash, ids, newId, key) ==> outcome(key).read && outcome(key).quorum
  }

  /** The two counters after the listed keys of one source. */
  ghost predicate Counted(f: Hash, hash: Key -> nat, ids: set<int>, newId: int, listed: seq<Key>, outcome: Key -> Outcome,
                          migrated: nat, failed: nat)
  {
    && (failed == 0 ==> AllDone(f, hash, ids, newId, listed, outcome))
    && (NoRepeats(listed) ==>
          && migrated == MoveCount(f, hash, ids, newId, listed, outcome, true)
          && failed == MoveCount(f, hash, ids, newId, listed, outcome, false))
  }

  lemma CountedNext(f: Hash, hash: Key -> nat, ids: set<int>, newId: int, listed: seq<Key>, key: Key, outcome: Key -> Outcome,
                    held: bool, migrated: nat, failed: nat, migrated': nat, failed': nat)
    requires Counted(f, hash, ids, newId, listed, outcome, migrated, failed) && (key !in listed ==> held)
    requires if !MovesTo(f, hash, ids, newId, key) then migrated' == migrated && failed' == failed
             else if outcome(key).read && held && outcome(key).quorum then migrated' == migrated + 1 && failed' == failed
             else migrated' == migrated && failed' == failed + 1
    ensures Counted(f, hash, ids, newId, listed + [key], outcome, migrated', failed')
  {
    MoveCountNext(f, hash, ids, newId, listed, key, outcome);
    if NoRepeats(listed + [key]) { NoRepeatsFront(listed, key); }
  }

  lemma MoveCountNext(f: Hash, hash: Key -> nat, ids: set<int>, newId: int, listed: seq<Key>, key: Key, outcome: Key -> Outcome)
    ensures forall done :: MoveCount(f, hash, ids, newId, listed + [key], outcome, done) ==
              MoveCount(f, hash, ids, newId, listed, outcome, done) +
              if MovesTo(f, hash, ids, newId, key) && done == (outcome(key).read && outcome(key).quorum) then 1 else 0
  {
    assert (listed + [key])[..|listed|] == listed;
  }

  /** The same over all sources that are reached. */
  ghost function TotalMoves(f: Hash, hash: Key -> nat, ids: set<int>, newId: int, sources: seq<int>, reached: int -> bool,
                            listing: int -> seq<Key>, outcome: (int, Key) -> Outcome, done: bool): nat
  {
    if sources == [] then 0
    else
      var source := sources[|sources| - 1];
      TotalMoves(f, hash, ids, newId, sources[..|sources| - 1], reached, listing, outcome, done) +
      (if reached(source) then MoveCount(f, hash, ids, newId, listing(source), From(outcome, source), done) else 0)
  }

  /** The two counters after all the keys of these sources. */
  ghost predicate AllCounted(f: Hash, hash: Key -> nat, ids: set<int>, newId: int, sources: seq<int>, reached: int -> bool,
                             listing: int -> seq<Key>, outcome: (int, Key) -> Outcome, migrated: nat, failed: nat)
  {
    && (failed == 0 ==>
          forall s :: s in sources && reached(s) ==> AllDone(f, hash, ids, newId, listing(s), From(outcome, s)))
    && ((forall s :: s in sources ==> NoRepeats(listing(s))) ==>
          && migrated == TotalMoves(f, hash, ids, newId, sources, reached, listing, outcome, true)
          && failed == TotalMoves(f, hash, ids, newId, sources, reached, listing, outcome, false))
  }

  lemma AllCountedNext(f: Hash, hash: Key -> nat, ids: set<int>, newId: int, sources: seq<int>, source: int,
                       reached: int -> bool, listing: int -> seq<Key>, outcome: (int, Key) -> Outcome,
                       migrated: nat, failed: nat, migrated': nat, failed': nat)
    requires AllCounted(f, hash, ids, newId, sources, reached, listing, outcome, migrated, failed)
    requires migrated <= migrated' && failed <= failed'
    requires if reached(source) then
               Counted(f, hash, ids, newId, listing(source), From(outcome, source), migrated' - migrated, failed' - failed)
             else migrated' == migrated && failed' == failed
    ensures AllCounted(f, hash, ids, newId, sources + [source], reached, listing, outcome, migrated', failed')
  {
    TotalMovesNext(f, hash, ids, newId, sources, source, reached, listing, outcome);
    assert source in sources + [source] && forall s :: s in sources ==> s in sources + [source];
  }

  lemma TotalMovesNext(f: Hash, hash: Key -> nat, ids: set<int>, newId: int, sources: seq<int>, source: int,
                       reached: int -> bool, listing: int -> seq<Key>, outcome: (int, Key) -> Outcome)
    ensures forall done :: TotalMoves(f, hash, ids, newId, sources + [source], reached, listing, outcome, done) ==
              TotalMoves(f, hash, ids, newId, sources, reached, listing, outcome, done) +
              if reached(source) then MoveCount(f, hash, ids, newId, listing(source), From(outcome, source), done) else 0
  {
    assert (sources + [source])[..|sources|] == sources;
  }

  lemma {:induction false} NoMoveFails(f: Hash, hash: Key -> nat, ids: set<int>, newId: int, listed: seq<Key>, outcome: Key -> Outcome)
    requires forall key :: outcome(key).read && outcome(key).quorum
    ensures MoveCount(f, hash, ids, newId, listed, outcome, false) == 0
  {
    if listed == [] {
    } else {
      NoMoveFails(f, hash, ids, newId, listed[..|listed| - 1], outcome);
    }
  }

  lemma {:induction false} NoneFail(f: Hash, hash: Key -> nat, ids: set<int>, newId: int, sources: seq<int>, reached: int -> bool,
                                    listing: int -> seq<Key>, outcome: (int, Key) -> Outcome)
    requires forall s, key :: s in sources ==> outcome(s, key).read && outcome(s, key).quorum
    ensures TotalMoves(f, hash, ids, newId, sources, reached, listing, outcome, false) == 0
  {
    if sources == [] {
    } else {
      var source := sources[|sources| - 1];
      NoneFail(f, hash, ids, newId, sources[..|sources| - 1], reached, listing, outcome);
      NoMoveFails(f, hash, ids, newId, listing(source), From(outcome, source));
    }
  }

  /** The data after the moves of the keys `done` of one source: the new shard has gained exactly those bound
      for it that were read and stored, the source has lost exactly those deleted after a quorum write. */
  ghost predicate Drew(f: Hash, hash: Key -> nat, ids: set<int>, newId: int, source: int, done: seq<Key>,
                       outcome: Key -> Outcome, was: Data, now: Data)
  {
    && now.Keys == was.Keys && source in was && newId in was
    && (forall s :: s in was && s != source && s != newId ==> now[s] == was[s])
    && (forall key :: key in now[newId] <==>
          key in was[newId] ||
          (key in done && key in was[source] && MovesTo(f, hash, ids, newId, key) && outcome(key).read && outcome(key).stored))
    && (forall key :: key in now[source] <==>
          key in was[source] && !(key in done && MovesTo(f, hash, ids, newId, key) && Leaves(outcome(key))))
  }

  /** The calls take the key off its source. */
  predicate Leaves(o: Outcome) {
    o.read && o.quorum && o.deleted
  }

  lemma DrewNext(f: Hash, hash: Key -> nat, ids: set<int>, newId: int, source: int, done: seq<Key>, key: Key,
                 outcome: Key -> Outcome, was: Data, before: Data, now: Data)
    requires Drew(f, hash, ids, newId, source, done, outcome, was, before) && key in was[source] && source != newId
    requires Possible(outcome(key))
    requires if MovesTo(f, hash, ids, newId, key) then MoveOk(before, now, source, newId, key, outcome(key)) else now == before
    ensures Drew(f, hash, ids, newId, source, done + [key], outcome, was, now)
  {
    forall s | s in was && s != source && s != newId ensures now[s] == was[s] {
      assert now[s] == before[s];
    }
  }

  /** A key whose turn has not come is still on the source. */
  lemma StillThere(f: Hash, hash: Key -> nat, ids: set<int>, newId: int, source: int, done: seq<Key>, key: Key,
                   outcome: Key -> Outcome, was: Data, before: Data)
    requires Drew(f, hash, ids, newId, source, done, outcome, was, before) && key in was[source]
    ensures key !in done ==> HoldsKey(before, source, key)
  {
  }

  /** Some source of `done` has sent the key to the new shard. */
  ghost predicate Sent(f: Hash, hash: Key -> nat, ids: set<int>, newId: int, done: seq<int>, reached: int -> bool,
                       outcome: (int, Key) -> Outcome, was: Data, key: Key)
  {
    && MovesTo(f, hash, ids, newId, key)
    && exists s :: s in done && reached(s) && HoldsKey(was, s, key) && outcome(s, key).read && outcome(s, key).stored
  }

  /** The data after all the moves of the sources `done`: the new shard has what it had and exactly what was
      sent, and every other shard has what it had but for what the calls took off it. */
  ghost predicate Spread(f: Hash, hash: Key -> nat, ids: set<int>, newId: int, done: seq<int>, reached: int -> bool,
                         outcome: (int, Key) -> Outcome, was: Data, now: Data)
  {
    && now.Keys == was.Keys
    && (forall key :: HoldsKey(now, newId, key) <==>
          HoldsKey(was, newId, key) || Sent(f, hash, ids, newId, done, reached, outcome, was, key))
    && (forall s, key :: s != newId ==>
          (HoldsKey(now, s, key) <==>
             HoldsKey(was, s, key) &&
             !(s in done && reached(s) && MovesTo(f, hash, ids, newId, key) && Leaves(outcome(s, key)))))
  }

  /** A source whose turn has not come is as it was. */
  lemma Untouched(f: Hash, hash: Key -> nat, ids: set<int>, newId: int, done: seq<int>, source: int, reached: int -> bool,
                  outcome: (int, Key) -> Outcome, was: Data, now: Data)
    requires Spread(f, hash, ids, newId, done, reached, outcome, was, now) && source !in done && source != newId && source in was
    ensures now[source] == was[source]
  {
    forall key ensures key in now[source] <==> key in was[source] {
      assert HoldsKey(now, source, key) <==> HoldsKey(was, source, key);
    }
  }

  lemma SentNext(f: Hash, hash: Key -> nat, ids: set<int>, newId: int, done: seq<int>, source: int, reached: int -> bool,
                 outcome: (int, Key) -> Outcome, was: Data, key: Key)
    ensures Sent(f, hash, ids, newId, done + [source], reached, outcome, was, key) <==>
            || Sent(f, hash, ids, newId, done, reached, outcome, was, key)
            || (MovesTo(f, hash, ids, newId, key) && reached(source) && HoldsKey(was, source, key)
                && outcome(source, key).read && outcome(source, key).stored)
  {
  }

  lemma SpreadNext(f: Hash, hash: Key -> nat, ids: set<int>, newId: int, done: seq<int>, source: int, reached: int -> bool,
                   listed: seq<Key>, outcome: (int, Key) -> Outcome, was: Data, before: Data, now: Data)
    requires Spread(f, hash, ids, newId, done, reached, outcome, was, before) && source !in done && source != newId
    requires source in was && newId in was && forall key :: key in listed <==> key in was[source]
    requires if reached(source) then Drew(f, hash, ids, newId, source, listed, From(outcome, source), before, now) else now == before
    ensures Spread(f, hash, ids, newId, done + [source], reached, outcome, was, now)
  {
    forall key ensures HoldsKey(now, newId, key) <==>
              HoldsKey(was, newId, key) || Sent(f, hash, ids, newId, done + [source], reached, outcome, was, key) {
      SentNext(f, hash, ids, newId, done, source, reached, outcome, was, key);
      assert HoldsKey(before, source, key) <==> HoldsKey(was, source, key);
    }
  }

  ghost predicate Unrepeated(ids: seq<int>) {
    forall i, j :: 0 <= i < j < |ids| ==> ids[i] != ids[j]
  }

  /** By minimal disruption a key that does not go to the new shard stays with its owner; so if every source
      was reached and every move was read and stored, each key is where the new ring says. */
  lemma SpreadIsPlaced(f: Hash, hash: Key -> nat, sources: seq<int>, newId: int, reached: int -> bool,
                       listing: int -> seq<Key>, outcome: (int, Key) -> Outcome, was: Data, now: Data)
    requires Ids(sources) != {} && newId !in sources && SameKeys(was, now) && Placed(f, hash, Ids(sources), was)
    requires Spread(f, hash, Ids(sources), newId, sources, reached, outcome, was, now)
    requires forall s, key :: Possible(outcome(s, key))
    requires forall s, key :: s in sources && s in was ==> (key in listing(s) <==> key in was[s])
    requires forall s :: s in sources ==> reached(s) && AllDone(f, hash, Ids(sources), newId, listing(s), From(outcome, s))
    ensures Placed(f, hash, Ids(sources) + {newId}, now)
  {
    var ids := Ids(sources);
    forall key | Somewhere(now, key) ensures HoldsKey(now, Owner(f, ids + {newId}, hash(key)), key) {
      var owner := Owner(f, ids, hash(key));
      assert Somewhere(was, key) && HoldsKey(was, owner, key);
      MinimalDisruption(f, ids, newId, hash(key));
      if MovesTo(f, hash, ids, newId, key) {
        assert AllDone(f, hash, ids, newId, listing(owner), From(outcome, owner)) && key in listing(owner);
        assert Sent(f, hash, ids, newId, sources, reached, outcome, was, key);
      }
    }
  }

  lemma LeftIsPlaced(f: Hash, hash: Key -> nat, remaining: set<int>, leaving: int, listed: seq<Key>, available: int -> bool,
                     outcome: Key -> Outcome, was: Data, now: Data)
    requires remaining != {} && leaving !in remaining && leaving in was && forall key :: Possible(outcome(key))
    requires Emptied(f, hash, remaining, leaving, listed, available, outcome, was, now)
    requires SameKeys(was, now) && Placed(f, hash, remaining + {leaving}, was)
    requires forall key :: key in was[leaving] ==> key in listed && Carried(f, hash, remaining, available, outcome, key)
    ensures Placed(f, hash, remaining, now)
  {
    forall key | Somewhere(now, key) ensures HoldsKey(now, Owner(f, remaining, hash(key)), key) {
      var owner := Owner(f, remaining + {leaving}, hash(key));
      assert Somewhere(was, key) && HoldsKey(was, owner, key);
      MinimalDisruption(f, remaining, leaving, hash(key));
      if owner == leaving { assert Carried(f, hash, remaining, available, outcome, key); }
    }
  }

  // ---- Retiring the shard ----

  function Retire(data: Data, leaving: int): Data {
    data - {leaving}
  }

  lemma RetiredKeys(data: Data, leaving: int, key: Key)
    ensures Somewhere(Retire(data, leaving), key) <==> HeldElsewhere(data, leaving, key)
  {
    var data' := Retire(data, leaving);
    if Somewhere(data', key) {
      var s :| HoldsKey(data', s, key);
      assert HoldsKey(data, s, key);
    }
    if HeldElsewhere(data, leaving, key) {
      var s :| s != leaving && HoldsKey(data, s, key);
      assert HoldsKey(data', s, key);
    }
  }

  /** After a removal without failures retiring the shard loses nothing. */
  lemma CleanRetirement(f: Hash, hash: Key -> nat, remaining: set<int>, leaving: int, data: Data)
    requires remaining != {} && leaving !in remaining && Placed(f, hash, remaining, data)
    ensures SameKeys(data, Retire(data, leaving)) && Placed(f, hash, remaining, Retire(data, leaving))
  {
    var data' := Retire(data, leaving);
    forall key ensures Somewhere(data, key) <==> Somewhere(data', key) {
      RetiredKeys(data, leaving, key);
      if Somewhere(data, key) { assert HoldsKey(data, Owner(f, remaining, hash(key)), key); }
    }
    forall key | Somewhere(data', key) ensures HoldsKey(data', Owner(f, remaining, hash(key)), key) {
      assert Somewhere(data, key);
    }
  }

  /** One more key: `now` differs from `before` as the move of the key says. */
  lemma EmptiedNext(f: Hash, hash: Key -> nat, remaining: set<int>, leaving: int, done: seq<Key>, key: Key,
                    available: int -> bool, outcome: Key -> Outcome, was: Data, before: Data, now: Data)
    requires remaining != {} && leaving in was && Emptied(f, hash, remaining, leaving, done, available, outcome, was, before)
    requires key in was[leaving] && now.Keys == before.Keys && Owner(f, remaining, hash(key)) != leaving
    requires forall s, k :: s in now && k != key ==> (k in now[s] <==> k in before[s])
    requires forall s :: s in now && s != leaving && s != Owner(f, remaining, hash(key)) ==> (key in now[s] <==> key in before[s])
    requires HoldsKey(now, leaving, key) <==>
               HoldsKey(before, leaving, key) && !(available(Owner(f, remaining, hash(key))) && Leaves(outcome(key)))
    requires Possible(outcome(key))
    requires HoldsKey(now, Owner(f, remaining, hash(key)), key) <==>
               HoldsKey(before, Owner(f, remaining, hash(key)), key) ||
               (HoldsKey(before, leaving, key) && Arrives(f, hash, remaining, available, outcome, key))
    ensures Emptied(f, hash, remaining, leaving, done + [key], available, outcome, was, now)
  {
    var owner := Owner(f, remaining, hash(key));
    assert HoldsKey(was, leaving, key);
    if Arrives(f, hash, remaining, available, outcome, key) && !HoldsKey(before, leaving, key) {
      assert key in done && HoldsKey(before, owner, key);
    }
    forall s, k | s != leaving
      ensures HoldsKey(now, s, k) <==>
                HoldsKey(was, s, k) ||
                (k in done + [key] && s == Owner(f, remaining, hash(k)) && Arrives(f, hash, remaining, available, outcome, k))
    {
      assert HoldsKey(before, s, k) <==>
               HoldsKey(was, s, k) ||
               (k in done && s == Owner(f, remaining, hash(k)) && Arrives(f, hash, remaining, available, outcome, k));
    }
  }

  lemma EmptiedKeys(f: Hash, hash: Key -> nat, remaining: set<int>, leaving: int, done: seq<Key>,
                    available: int -> bool, outcome: Key -> Outcome, was: Data, now: Data, key: Key)
    requires remaining != {} && leaving !in remaining && Emptied(f, hash, remaining, leaving, done, available, outcome, was, now)
    ensures HeldElsewhere(now, leaving, key) <==>
              HeldElsewhere(was, leaving, key) || (key in done && Arrives(f, hash, remaining, available, outcome, key))
  {
    if HeldElsewhere(now, leaving, key) {
      var s :| s != leaving && HoldsKey(now, s, key);
      assert HoldsKey(was, s, key) || (key in done && Arrives(f, hash, remaining, available, outcome, key));
    }
    if HeldElsewhere(was, leaving, key) {
      var s :| s != leaving && HoldsKey(was, s, key);
      assert HoldsKey(now, s, key);
    }
    if key in done && Arrives(f, hash, remaining, available, outcome, key) {
      assert HoldsKey(now, Owner(f, remaining, hash(key)), key);
    }
  }

  /** A key that the leaving shard holds alone and that cannot be read is gone after the removal, which the
      handler completes all the same. */
  method FailedMoveIsLost(plane: DataPlane, ring: HashRing, hash: Key -> nat, ghost remaining: set<int>, leaving: int,
                          listed: seq<Key>, available: int -> bool, outcome: Key -> Outcome, ghost key: Key)
    requires plane.Valid() && plane.began == plane.data && plane.writes == []
    requires remaining != {} && leaving in plane.data && leaving !in remaining && remaining <= plane.data.Keys
    requires Built(ring.hash, remaining, ring.ring) && forall k :: Possible(outcome(k))
    requires forall k :: k in listed <==> k in plane.data[leaving]
    requires HoldsKey(plane.data, leaving, key) && !HeldElsewhere(plane.data, leaving, key) && !outcome(key).read
    modifies plane
    ensures Somewhere(old(plane.data), key) && !Somewhere(plane.data, key)
  {
    var _, _ := plane.RemoveShard(ring, hash, remaining, leaving, true, listed, available, outcome, true);
  }
}
