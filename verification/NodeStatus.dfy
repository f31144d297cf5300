/** The Raft node as its coordinator sees it: RaftNode::status (cluster/raft_node.hpp:222-245) reports the
    snapshot and the applied commands, and the coordinator parses both. The three things that happen to
    the node in `TopologyRuns` are what the node of `RaftNodes` does. */
module NodeStatus {
  import opened RaftLogs
  import opened RaftNodes
  import opened Topology
  import Alignment
  import TopologyRuns

  /** How the coordinator reads the strings that Raft carries. */
  datatype Reader = Reader(command: string -> Command, snapshot: string -> SnapText)

  function Parsed(reader: Reader, commands: seq<string>): seq<Command> {
    seq(|commands|, i requires 0 <= i < |commands| => reader.command(commands[i]))
  }

  function StatusOf(reader: Reader, n: Node): Status {
    Status(n.log.snapIndex, reader.snapshot(n.log.snapData), Parsed(reader, n.applied))
  }

  lemma ParsedRest(reader: Reader, commands: seq<string>, k: nat)
    requires k <= |commands|
    ensures Parsed(reader, commands[k..]) == Parsed(reader, commands)[k..]
  {
  }

  /** Compacting the node is the compaction of the coordinators' model. */
  lemma CompactCommutes(reader: Reader, n: Node, upTo: nat, text: string, data: seq<Replica>)
    requires reader.snapshot(text) == Saved(data) && n.lastApplied == n.log.snapIndex + |n.applied|
    ensures var (n', done) := CompactNode(n, upTo, text);
            (StatusOf(reader, n'), done) == Compact(StatusOf(reader, n), upTo, data)
  {
    if n.log.snapIndex < upTo <= n.lastApplied { ParsedRest(reader, n.applied, upTo - n.log.snapIndex); }
  }

  /** Installing a snapshot on the node is the installation of the coordinators' model. */
  lemma InstallCommutes(reader: Reader, n: Node, req: SnapshotRequest, data: seq<Replica>)
    requires req.term >= n.term && reader.snapshot(req.data) == Saved(data)
    ensures StatusOf(reader, HandleSnapshot(n, req)) == TopologyRuns.InstallOn(StatusOf(reader, n), req.lastIndex, data)
  {
    if req.lastIndex > n.log.snapIndex {
      ParsedRest(reader, n.applied, Min(req.lastIndex - n.log.snapIndex, |n.applied|));
    }
  }

  /** What the coordinators' model calls the committed commands. */
  function CommandsOf(reader: Reader, committed: seq<Entry>): seq<Command> {
    Parsed(reader, Alignment.Commands(committed))
  }

  lemma PartOfCommands(reader: Reader, committed: seq<Entry>, from: nat, last: nat)
    requires from <= last <= |committed|
    ensures Parsed(reader, Alignment.Commands(committed[from..last])) == CommandsOf(reader, committed)[from..last]
  {
  }

  /** An aligned node reports the committed commands from its snapshot to its commit index. */
  lemma AlignedReports(reader: Reader, n: Node, committed: seq<Entry>)
    requires Alignment.Aligned(n, committed)
    ensures var st := StatusOf(reader, n);
            st.Last() == n.commitIndex <= |committed| && st.applied == CommandsOf(reader, committed)[st.snapIndex..st.Last()]
  {
    PartOfCommands(reader, committed, n.log.snapIndex, n.commitIndex);
  }

  lemma LongerReport(reader: Reader, n: Node, n': Node, committed: seq<Entry>)
    requires Alignment.Aligned(n, committed) && Alignment.Aligned(n', committed)
    requires n'.log == n.log && n.commitIndex <= n'.commitIndex
    ensures var st := StatusOf(reader, n);
            && st.Last() <= n'.commitIndex <= |committed|
            && StatusOf(reader, n') == st.(applied := st.applied + CommandsOf(reader, committed)[st.Last()..n'.commitIndex])
  {
    AlignedReports(reader, n, committed);
    AlignedReports(reader, n', committed);
    var cmds, from := CommandsOf(reader, committed), n.log.snapIndex;
    assert cmds[from..n'.commitIndex] == cmds[from..n.commitIndex] + cmds[n.commitIndex..n'.commitIndex];
  }

  /** Applying up to a higher commit index is the learning of the coordinators' model. */
  lemma LearnCommutes(reader: Reader, n: Node, commit: nat, committed: seq<Entry>)
    requires Alignment.Aligned(n, committed) && Alignment.NonEmpty(committed)
    requires n.commitIndex <= commit && Alignment.Holds(n.log, commit, committed)
    ensures var st := StatusOf(reader, n);
            && st.Last() <= commit <= |committed|
            && StatusOf(reader, ApplyCommitted(n.(commitIndex := commit))) ==
               st.(applied := st.applied + CommandsOf(reader, committed)[st.Last()..commit])
  {
    Alignment.ApplyAligns(n, commit, committed);
    LongerReport(reader, n, ApplyCommitted(n.(commitIndex := commit)), committed);
  }
}
