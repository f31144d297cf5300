/** Where sending and installing around a snapshot departs from the full log
    (cluster/raft_node.hpp, cluster/raft_log.hpp; section 7 of the Raft paper). */
module SnapshotTransfer {
  import opened RaftLogs
  import opened RaftNodes

  // ---- Building a request from a compacted log ----

  lemma SliceAt(log: Log, next: nat, k: nat)
    requires next + k <= log.LastIndex()
    ensures |LogSlice(log, next)| == log.LastIndex() + 1 - next
    ensures LogSlice(log, next)[k] == Entry(log.TermAt(next + k), log.CommandAt(next + k))
  {
  }

  /** A compacted log answers for every index above its snapshot as the full log does. */
  lemma SliceAboveSnapshot(log: Log, full: seq<Entry>, next: nat)
    requires Represents(log, full) && next > log.snapIndex
    ensures LogSlice(log, next) == full[Min(next - 1, |full|)..]
  {
    if next <= |full| {
      var slice, rest := LogSlice(log, next), full[next - 1..];
      forall k: nat | k < |slice| ensures slice[k] == rest[k] {
        SliceAt(log, next, k);
        assert log.entries[next + k - 1 - log.snapIndex] == full[next + k - 1];
      }
      assert slice == rest;
    }
  }

  /** The sender checks the snapshot in one locked block and reads the log in another. The request it
      builds is the one the full log would give exactly when no compaction in between has passed `next`:
      otherwise it would send entries without their commands. */
  lemma RequestIsFullLogs(n: Node, full: seq<Entry>, next: nat)
    requires Represents(n.log, full) && next > 0
    requires forall i :: 0 <= i < |full| ==> full[i].command != ""
    ensures BuildAppend(n, next) == BuildAppend(n.(log := Uncompacted(full)), next) <==> next > n.log.snapIndex
  {
    var sent, meant := LogSlice(n.log, next), LogSlice(Uncompacted(full), next);
    SliceAboveSnapshot(Uncompacted(full), full, next);
    if next > n.log.snapIndex {
      SliceAboveSnapshot(n.log, full, next);
    } else {
      SliceAt(n.log, next, 0);
      assert sent[0].command == "" && meant[0] == full[next - 1];
    }
  }

  /** The first locked block: a node that leads the term sends a snapshot exactly if it has compacted the
      peer's next entry, and that snapshot ends with the entry of the full log at its index. Otherwise it
      goes on, and a request built before the next compaction is the full log's. */
  lemma ChoiceIsRight(n: Node, full: seq<Entry>, term: nat, next: nat)
    requires Represents(n.log, full) && next > 0 && n.role == Leader && n.term == term
    requires forall i :: 0 <= i < |full| ==> full[i].command != ""
    ensures var choice := Choose(n, term, next);
            && (choice.SendSnapshot? <==> next <= n.log.snapIndex) && (choice == GoOn <==> next > n.log.snapIndex)
            && (choice.SendSnapshot? ==>
                  && 0 < choice.req.lastIndex == n.log.snapIndex <= |full|
                  && choice.req == SnapshotOf(term, n.id, full, n.log.snapIndex, n.log.snapData))
            && (choice == GoOn ==> BuildAppend(n, next) == BuildAppend(n.(log := Uncompacted(full)), next))
  {
    RequestIsFullLogs(n, full, next);
  }

  /** What the peer of such a request stores: the commands inside the snapshot come out empty. */
  lemma CompactedCommandsAreSentEmpty(n: Node, full: seq<Entry>, next: nat, k: nat)
    requires Represents(n.log, full) && 0 < next && next + k <= n.log.snapIndex
    ensures k < |BuildAppend(n, next).entries| && BuildAppend(n, next).entries[k] == Entry(n.log.snapTerm, "")
  {
    SliceAt(n.log, next, k);
  }

  // ---- Installing a snapshot ----

  /** One term at an index means one history up to it. */
  ghost predicate Matching(a: seq<Entry>, b: seq<Entry>) {
    forall k :: 0 <= k < |a| && k < |b| && a[k].term == b[k].term ==> a[..k + 1] == b[..k + 1]
  }

  /** The full log behind a follower's log once it holds a snapshot of the leader's first `index` entries. */
  function Installed(follower: seq<Entry>, leader: seq<Entry>, index: nat): seq<Entry>
    requires index <= |leader|
  {
    leader[..index] + follower[Min(index, |follower|)..]
  }

  function SnapshotOf(term: nat, id: nat, leader: seq<Entry>, index: nat, data: string): SnapshotRequest
    requires 0 < index <= |leader|
  {
    SnapshotRequest(term, id, index, leader[index - 1].term, data)
  }

  lemma InstallRefines(n: Node, follower: seq<Entry>, leader: seq<Entry>, index: nat, term: nat, id: nat, data: string)
    requires Represents(n.log, follower) && n.log.snapIndex < index <= |leader| && term >= n.term
    ensures Represents(HandleSnapshot(n, SnapshotOf(term, id, leader, index, data)).log, Installed(follower, leader, index))
  {
  }

  /** Section 7 keeps what follows the snapshot only if the entry the snapshot ends with is in the log. */
  function PaperInstall(log: Log, req: SnapshotRequest): Log {
    if req.lastIndex <= log.snapIndex then log
    else if log.HasRealEntryAt(req.lastIndex) && log.TermAt(req.lastIndex) == req.lastTerm then
      log.Compact(req.lastIndex, req.lastTerm, req.data)
    else Log(req.lastIndex, req.lastTerm, req.data, [])
  }

  /** The code keeps it always, so the two agree exactly when nothing follows or the terms are the same. */
  lemma InstallIsPapers(n: Node, req: SnapshotRequest)
    requires req.term >= n.term && req.lastIndex > n.log.snapIndex
    ensures HandleSnapshot(n, req).log == PaperInstall(n.log, req) <==>
            n.log.LastIndex() <= req.lastIndex || n.log.TermAt(req.lastIndex) == req.lastTerm
  {
  }

  /** Installing keeps log matching with a node that has the follower's old log exactly under the same condition. */
  lemma InstallKeepsMatching(follower: seq<Entry>, leader: seq<Entry>, index: nat)
    requires Matching(follower, leader) && 0 < index <= |leader|
    ensures (|follower| <= index || follower[index - 1].term == leader[index - 1].term) <==>
            Matching(Installed(follower, leader, index), follower)
  {
    var full := Installed(follower, leader, index);
    if |follower| <= index {
      MatchingPrefix(follower, leader, index);
    } else if follower[index - 1].term == leader[index - 1].term {
      assert follower[..index] == leader[..index];
      assert full == follower;
    } else {
      assert full[index] == follower[index];
      assert full[..index + 1][index - 1] != follower[..index + 1][index - 1];
    }
  }

  lemma MatchingPrefix(follower: seq<Entry>, leader: seq<Entry>, index: nat)
    requires Matching(follower, leader) && |follower| <= index <= |leader|
    ensures Matching(leader[..index], follower)
    ensures Installed(follower, leader, index) == leader[..index]
  {
  }

  /** A case for every index: the follower has one entry more than that, all of a leader of term 1 and never
      committed, the leader of term 2 sends a snapshot of the entries it committed instead, and the follower
      keeps its last one. Another node with the old log then has the same term there and another history. */
  lemma InstallBreaksMatching(index: nat, old': string, new': string)
    requires index > 0
    ensures var follower, leader := seq(index + 1, _ => Entry(1, old')), seq(index, _ => Entry(2, new'));
            && Matching(follower, leader) && Installed(follower, leader, index) == leader + [Entry(1, old')]
            && !Matching(Installed(follower, leader, index), follower)
  {
    var follower, leader := seq(index + 1, _ => Entry(1, old')), seq(index, _ => Entry(2, new'));
    assert Matching(follower, leader);
    InstallKeepsMatching(follower, leader, index);
  }
}
