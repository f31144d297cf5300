/** The replicated log with snapshot compaction (cluster/raft_log.hpp).

    `Log` is the value of the log; `RaftLog` is the object that updates it in place.
    Indices are absolute and 1-based. `Represents` relates a compacted log to the log
    that was never compacted. */
module RaftLogs {

  datatype Entry = Entry(term: nat, command: string)

  datatype Log = Log(snapIndex: nat, snapTerm: nat, snapData: string, entries: seq<Entry>) {

    function LastIndex(): nat {
      snapIndex + |entries|
    }

    function LastTerm(): nat {
      if entries != [] then entries[|entries| - 1].term else snapTerm
    }

    function TermAt(index: nat): nat {
      if index == 0 || index > LastIndex() then 0
      else if index <= snapIndex then snapTerm
      else entries[index - 1 - snapIndex].term
    }

    predicate HasRealEntryAt(index: nat) {
      snapIndex < index <= LastIndex()
    }

    function CommandAt(index: nat): string {
      if index < 1 || index <= snapIndex || index > LastIndex() then ""
      else entries[index - 1 - snapIndex].command
    }

    function Append(term: nat, command: string): Log {
      this.(entries := entries + [Entry(term, command)])
    }

    /** Keep the first `keep` entries (absolute), then add those of `more` that lie above the snapshot. */
    function TruncateAndAppend(keep: nat, more: seq<Entry>): Log {
      var physicalKeep := if keep > snapIndex then keep - snapIndex else 0;
      var kept := if physicalKeep < |entries| then entries[..physicalKeep] else entries;
      this.(entries := kept + more[Skipped(keep, |more|)..])
    }

    /** How many of `count` incoming entries placed after index `keep` fall inside the snapshot. */
    function Skipped(keep: nat, count: nat): (k: nat)
      ensures k <= count
    {
      if snapIndex <= keep then 0 else if snapIndex - keep <= count then snapIndex - keep else count
    }

    function Compact(upTo: nat, term: nat, data: string): Log {
      if upTo <= snapIndex then this
      else
        var remove := if upTo - snapIndex > |entries| then |entries| else upTo - snapIndex;
        Log(upTo, term, data, entries[remove..])
    }
  }

  /** The log as it would be had it never been compacted. */
  function Uncompacted(full: seq<Entry>): Log {
    Log(0, 0, "", full)
  }

  /** The object of the source: mutations rewrite the fields, as `persist` then writes them out. */
  class RaftLog {
    var snapIndex: nat
    var snapTerm: nat
    var snapData: string
    var entries: seq<Entry>

    constructor ()
      ensures Value() == Uncompacted([])
    {
      snapIndex, snapTerm, snapData, entries := 0, 0, "", [];
    }

    function Value(): Log
      reads this
    {
      Log(snapIndex, snapTerm, snapData, entries)
    }

    method TruncateAndAppend(keep: nat, more: seq<Entry>)
      modifies this
      ensures Value() == old(Value()).TruncateAndAppend(keep, more)
    {
      var physicalKeep := if keep > snapIndex then keep - snapIndex else 0;
      if physicalKeep < |entries| {
        entries := entries[..physicalKeep];
      }
      ghost var kept := entries;
      ghost var skip := Value().Skipped(keep, |more|);
      for j := 0 to |more|
        invariant snapIndex == old(snapIndex) && snapTerm == old(snapTerm) && snapData == old(snapData)
        invariant entries == kept + more[(if j < skip then j else skip)..j]
      {
        var index := keep + 1 + j;
        if index > snapIndex {
          assert skip <= j && more[skip..j + 1] == more[skip..j] + [more[j]];
          entries := entries + [more[j]];
        }
      }
      assert more[skip..|more|] == more[skip..];
    }

    method Append(term: nat, command: string)
      modifies this
      ensures Value() == old(Value()).Append(term, command)
    {
      entries := entries + [Entry(term, command)];
    }

    method Compact(upTo: nat, term: nat, data: string)
      modifies this
      ensures Value() == old(Value()).Compact(upTo, term, data)
    {
      if upTo <= snapIndex { return; }
      var remove := upTo - snapIndex;
      if remove > |entries| { remove := |entries|; }
      entries := entries[remove..];
      snapIndex, snapTerm, snapData := upTo, term, data;
    }
  }

  // ---- A compacted log refines the log that was never compacted ----

  ghost predicate Represents(log: Log, full: seq<Entry>) {
    && log.snapIndex <= |full|
    && log.entries == full[log.snapIndex..]
    && log.snapTerm == Uncompacted(full).TermAt(log.snapIndex)
  }

  /** Everything a caller can read above the snapshot is what the full log would answer. */
  lemma RepresentsObservations(log: Log, full: seq<Entry>)
    requires Represents(log, full)
    ensures log.LastIndex() == |full|
    ensures log.LastTerm() == Uncompacted(full).LastTerm()
    ensures forall i: nat :: i > log.snapIndex ==>
              && log.TermAt(i) == Uncompacted(full).TermAt(i)
              && log.CommandAt(i) == Uncompacted(full).CommandAt(i)
              && (log.HasRealEntryAt(i) <==> Uncompacted(full).HasRealEntryAt(i))
    ensures log.TermAt(log.snapIndex) == Uncompacted(full).TermAt(log.snapIndex)
  {
  }

  /** A batch written after index `keep` leaves a compacted log faithful exactly when it does not stop
      short of the snapshot and does not claim another term for the entry the snapshot ends with. */
  predicate BatchFits(log: Log, keep: nat, more: seq<Entry>) {
    || keep >= log.snapIndex
    || (keep + |more| >= log.snapIndex && more[log.snapIndex - keep - 1].term == log.snapTerm)
  }

  lemma TruncateRefines(log: Log, full: seq<Entry>, keep: nat, more: seq<Entry>)
    requires Represents(log, full)
    ensures BatchFits(log, keep, more) <==>
            Represents(log.TruncateAndAppend(keep, more), Uncompacted(full).TruncateAndAppend(keep, more).entries)
  {
  }

  lemma AppendRefines(log: Log, full: seq<Entry>, term: nat, command: string)
    requires Represents(log, full)
    ensures Represents(log.Append(term, command), full + [Entry(term, command)])
  {
  }

  lemma CompactRefines(log: Log, full: seq<Entry>, upTo: nat, data: string)
    requires Represents(log, full) && upTo <= |full|
    ensures Represents(log.Compact(upTo, log.TermAt(upTo), data), full)
  {
  }

  /** One mutation, as a node may request it. `CompactOp` is a node compacting its own log. */
  datatype LogOp =
    | AppendOp(term: nat, command: string)
    | BatchOp(keep: nat, more: seq<Entry>)
    | CompactOp(upTo: nat, data: string)

  function RunOp(log: Log, op: LogOp): Log {
    match op
    case AppendOp(term, command) => log.Append(term, command)
    case BatchOp(keep, more) => log.TruncateAndAppend(keep, more)
    case CompactOp(upTo, data) => log.Compact(upTo, log.TermAt(upTo), data)
  }

  function RunAll(log: Log, ops: seq<LogOp>): Log {
    if ops == [] then log else RunOp(RunAll(log, ops[..|ops| - 1]), ops[|ops| - 1])
  }

  /** The same operations with every compaction left out. */
  function WithoutCompaction(ops: seq<LogOp>): seq<LogOp> {
    if ops == [] then []
    else
      var front := WithoutCompaction(ops[..|ops| - 1]);
      if ops[|ops| - 1].CompactOp? then front else front + [ops[|ops| - 1]]
  }

  predicate OpFits(log: Log, op: LogOp) {
    match op
    case AppendOp(_, _) => true
    case BatchOp(keep, more) => BatchFits(log, keep, more)
    case CompactOp(upTo, _) => upTo <= log.LastIndex()
  }

  ghost predicate AllFit(log: Log, ops: seq<LogOp>) {
    forall i :: 0 <= i < |ops| ==> OpFits(RunAll(log, ops[..i]), ops[i])
  }

  lemma {:induction false} UncompactedStaysUncompacted(ops: seq<LogOp>)
    ensures RunAll(Uncompacted([]), WithoutCompaction(ops)) ==
            Uncompacted(RunAll(Uncompacted([]), WithoutCompaction(ops)).entries)
  {
    if ops == [] {
    } else {
      var front := WithoutCompaction(ops[..|ops| - 1]);
      UncompactedStaysUncompacted(ops[..|ops| - 1]);
      if !ops[|ops| - 1].CompactOp? {
        assert (front + [ops[|ops| - 1]])[..|front|] == front;
      }
    }
  }

  /** Any sequence of operations on a log that compacts gives what the same operations give without compaction. */
  lemma {:induction false} CompactionRefines(ops: seq<LogOp>)
    requires AllFit(Uncompacted([]), ops)
    ensures Represents(RunAll(Uncompacted([]), ops), RunAll(Uncompacted([]), WithoutCompaction(ops)).entries)
  {
    if ops == [] {
    } else {
      var front, op := ops[..|ops| - 1], ops[|ops| - 1];
      forall i | 0 <= i < |front| ensures OpFits(RunAll(Uncompacted([]), front[..i]), front[i]) {
        assert front[..i] == ops[..i];
      }
      CompactionRefines(front);
      var log := RunAll(Uncompacted([]), front);
      var full := RunAll(Uncompacted([]), WithoutCompaction(front)).entries;
      UncompactedStaysUncompacted(front);
      assert OpFits(log, op);
      if !op.CompactOp? {
        var kept := WithoutCompaction(front);
        assert (kept + [op])[..|kept|] == kept;
      }
      match op
      case AppendOp(term, command) => AppendRefines(log, full, term, command);
      case BatchOp(keep, more) => TruncateRefines(log, full, keep, more);
      case CompactOp(upTo, data) => CompactRefines(log, full, upTo, data);
    }
  }
}
