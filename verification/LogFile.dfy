/** The log file: what persist writes and open_file reads (cluster/raft_log.hpp:59-112, 220-252).
    A write is one byte sequence; a torn write leaves a prefix of it. */
module LogFile {
  import opened RaftLogs

  type Byte = x: nat | x < 256
  type Bytes = seq<Byte>

  datatype FileEntry = FileEntry(term: nat, command: Bytes)

  datatype FileLog = FileLog(snapIndex: nat, snapTerm: nat, snapData: Bytes, entries: seq<FileEntry>)

  const MAGIC := 0x4E414654
  const HEADER := 24
  const FRESH := FileLog(0, 0, [], [])

  // ---- Numbers, little-endian ----

  function Power(width: nat): (p: nat)
    ensures p > 0
  {
    if width == 0 then 1 else 256 * Power(width - 1)
  }

  function Encode(n: nat, width: nat): (b: Bytes)
    ensures |b| == width
  {
    if width == 0 then [] else [n % 256] + Encode(n / 256, width - 1)
  }

  function Decode(b: Bytes): (n: nat)
    ensures n < Power(|b|)
  {
    if b == [] then 0 else b[0] + 256 * Decode(b[1..])
  }

  /** Writing keeps the low bytes: all of the number exactly when it fits. */
  lemma {:induction false} DecodeEncode(n: nat, width: nat)
    ensures Decode(Encode(n, width)) == n <==> n < Power(width)
  {
    if width == 0 {
    } else {
      DecodeEncode(n / 256, width - 1);
      assert Encode(n, width)[1..] == Encode(n / 256, width - 1);
    }
  }

  /** The number without its k lowest bytes. */
  function Shifted(n: nat, k: nat): nat {
    if k == 0 then n else Shifted(n / 256, k - 1)
  }

  /** The lowest byte comes first. */
  lemma {:induction false} EncodeAt(n: nat, width: nat, k: nat)
    requires k < width
    ensures Encode(n, width)[k] == Shifted(n, k) % 256
  {
    if k == 0 {
    } else {
      EncodeAt(n / 256, width - 1, k - 1);
    }
  }

  // ---- Writing ----

  /** Lengths are written in 32 bits, and that many bytes follow. */
  function Kept(b: Bytes): Bytes {
    if |b| < Power(4) then b else b[..|b| % Power(4)]
  }

  lemma KeptIs(b: Bytes)
    ensures Kept(b) <= b && |Kept(b)| == |b| % 0x1_0000_0000
  {
    assert Power(4) == 0x1_0000_0000;
  }

  function Record(e: FileEntry): Bytes {
    Encode(e.term, 8) + Encode(|Kept(e.command)|, 4) + Kept(e.command)
  }

  function Records(entries: seq<FileEntry>): Bytes {
    if entries == [] then [] else Record(entries[0]) + Records(entries[1..])
  }

  function Header(log: FileLog): Bytes {
    Encode(MAGIC, 4) + Encode(log.snapIndex, 8) + Encode(log.snapTerm, 8) + Encode(|Kept(log.snapData)|, 4)
  }

  function Persisted(log: FileLog): Bytes {
    Header(log) + Kept(log.snapData) + Records(log.entries)
  }

  lemma {:induction false} RecordsNext(entries: seq<FileEntry>, e: FileEntry)
    ensures Records(entries + [e]) == Records(entries) + Record(e)
  {
    if entries == [] {
      assert entries + [e] == [e];
    } else {
      assert (entries + [e])[1..] == entries[1..] + [e];
      RecordsNext(entries[1..], e);
    }
  }

  method PersistEntries(entries: seq<FileEntry>) returns (file: Bytes)
    ensures file == Records(entries)
  {
    file := [];
    for i := 0 to |entries|
      invariant file == Records(entries[..i])
    {
      RecordsNext(entries[..i], entries[i]);
      assert entries[..i + 1] == entries[..i] + [entries[i]];
      file := file + Record(entries[i]);
    }
    assert entries[..|entries|] == entries;
  }

  /** The writes of persist, in order. */
  method PersistFile(log: FileLog) returns (file: Bytes)
    ensures file == Persisted(log)
  {
    var snapshot := Kept(log.snapData);
    file := Encode(MAGIC, 4) + Encode(log.snapIndex, 8) + Encode(log.snapTerm, 8) + Encode(|snapshot|, 4);
    if |snapshot| > 0 { file := file + snapshot; }
    var records := PersistEntries(log.entries);
    file := file + records;
  }

  /** Where things lie in the file: the four letters of the magic from the lowest byte on, snapshot index and term in
      eight bytes each and its length in four, lowest byte first, then the snapshot. */
  lemma HeaderBytes(log: FileLog, k: nat)
    requires SnapshotFits(log) && k < 24 + |log.snapData|
    ensures var file := Persisted(log);
            && k < |file|
            && file[k] == if k < 4 then [0x54, 0x46, 0x41, 0x4E][k]
                          else if k < 12 then Shifted(log.snapIndex, k - 4) % 256
                          else if k < 20 then Shifted(log.snapTerm, k - 12) % 256
                          else if k < 24 then Shifted(|log.snapData|, k - 20) % 256
                          else log.snapData[k - 24]
  {
    var header := Header(log);
    assert Kept(log.snapData) == log.snapData;
    if k < 4 {
      EncodeAt(MAGIC, 4, k);
      MagicBytes();
    } else if k < 12 {
      EncodeAt(log.snapIndex, 8, k - 4);
    } else if k < 20 {
      EncodeAt(log.snapTerm, 8, k - 12);
    } else if k < 24 {
      EncodeAt(|log.snapData|, 4, k - 20);
    }
  }

  lemma MagicBytes()
    ensures Shifted(MAGIC, 0) % 256 == 0x54 && Shifted(MAGIC, 1) % 256 == 0x46
    ensures Shifted(MAGIC, 2) % 256 == 0x41 && Shifted(MAGIC, 3) % 256 == 0x4E
  {
  }

  /** A record: the term in eight bytes, the length in four, the command. */
  lemma RecordBytes(e: FileEntry, k: nat)
    requires EntryFits(e) && k < 12 + |e.command|
    ensures var record := Record(e);
            && |record| == 12 + |e.command|
            && record[k] == if k < 8 then Shifted(e.term, k) % 256
                            else if k < 12 then Shifted(|e.command|, k - 8) % 256
                            else e.command[k - 12]
  {
    assert Kept(e.command) == e.command;
    if k < 8 {
      EncodeAt(e.term, 8, k);
    } else if k < 12 {
      EncodeAt(|e.command|, 4, k - 8);
    }
  }

  ghost predicate EntryFits(e: FileEntry) {
    e.term < Power(8) && |e.command| < Power(4)
  }

  ghost predicate SnapshotFits(log: FileLog) {
    log.snapIndex < Power(8) && log.snapTerm < Power(8) && |log.snapData| < Power(4)
  }

  /** Terms and indices of 64 bits, lengths below 2^32. */
  ghost predicate Fits(log: FileLog) {
    && SnapshotFits(log)
    && forall i :: 0 <= i < |log.entries| ==> EntryFits(log.entries[i])
  }

  // ---- Reading ----

  function ReadRecords(data: Bytes): seq<FileEntry>
    decreases |data|
  {
    if |data| < 12 then []
    else
      var len := Decode(data[8..12]);
      if 12 + len > |data| then []
      else [FileEntry(Decode(data[..8]), data[12..12 + len])] + ReadRecords(data[12 + len..])
  }

  function Opened(data: Bytes): FileLog {
    if |data| < 4 || Decode(data[..4]) != MAGIC then FileLog(0, 0, [], ReadRecords(data))
    else if HEADER > |data| then FRESH
    else
      var index, term, len := Decode(data[4..12]), Decode(data[12..20]), Decode(data[20..24]);
      if HEADER + len > |data| then FileLog(index, term, [], [])
      else FileLog(index, term, data[HEADER..HEADER + len], ReadRecords(data[HEADER + len..]))
  }

  /** Slices of the rest of a file are slices of the file. */
  lemma SliceOfRest(data: Bytes, pos: nat, a: nat, b: nat)
    requires pos <= |data| && a <= b && pos + b <= |data|
    ensures data[pos..][a..b] == data[pos + a..pos + b] && data[pos..][b..] == data[pos + b..]
  {
  }

  /** The length field of the record at `pos`. */
  function LengthAt(data: Bytes, pos: nat): nat
    requires pos + 12 <= |data|
  {
    Decode(data[pos + 8..pos + 12])
  }

  /** There is a whole record at `pos`. */
  predicate WholeAt(data: Bytes, pos: nat) {
    pos + 12 <= |data| && pos + 12 + LengthAt(data, pos) <= |data|
  }

  function EntryAt(data: Bytes, pos: nat): FileEntry
    requires WholeAt(data, pos)
  {
    FileEntry(Decode(data[pos..pos + 8]), data[pos + 12..pos + 12 + LengthAt(data, pos)])
  }

  lemma ReadTornAt(data: Bytes, pos: nat)
    requires pos <= |data| && !WholeAt(data, pos)
    ensures ReadRecords(data[pos..]) == []
  {
    if pos + 12 <= |data| { SliceOfRest(data, pos, 8, 12); }
  }

  lemma ReadWholeAt(data: Bytes, pos: nat)
    requires WholeAt(data, pos)
    ensures ReadRecords(data[pos..]) == [EntryAt(data, pos)] + ReadRecords(data[pos + 12 + LengthAt(data, pos)..])
  {
    SliceOfRest(data, pos, 0, 8);
    SliceOfRest(data, pos, 8, 12);
    SliceOfRest(data, pos, 12, 12 + LengthAt(data, pos));
  }

  /** One round of the loop of open_file. */
  method ReadOne(data: Bytes, pos: nat) returns (whole: bool, e: FileEntry, next: nat)
    requires pos <= |data|
    ensures whole ==> pos < next <= |data| && ReadRecords(data[pos..]) == [e] + ReadRecords(data[next..])
    ensures !whole ==> ReadRecords(data[pos..]) == []
  {
    if WholeAt(data, pos) {
      ReadWholeAt(data, pos);
      return true, EntryAt(data, pos), pos + 12 + LengthAt(data, pos);
    }
    ReadTornAt(data, pos);
    return false, FileEntry(0, []), pos;
  }

  lemma OneMoreRead(all: seq<FileEntry>, done: seq<FileEntry>, e: FileEntry, rest: seq<FileEntry>)
    requires all == done + ([e] + rest)
    ensures all == done + [e] + rest
  {
  }

  /** The loop of open_file over the records from `start` on. */
  method ReadEntries(data: Bytes, start: nat) returns (entries: seq<FileEntry>)
    requires start <= |data|
    ensures entries == ReadRecords(data[start..])
  {
    entries := [];
    ghost var all, rest := ReadRecords(data[start..]), ReadRecords(data[start..]);
    var pos, whole := start, true;
    while whole
      invariant pos <= |data| && all == entries + rest && (if whole then rest == ReadRecords(data[pos..]) else rest == [])
      decreases |data| - pos, whole
    {
      var e, next;
      whole, e, next := ReadOne(data, pos);
      if whole {
        OneMoreRead(all, entries, e, ReadRecords(data[next..]));
        rest := ReadRecords(data[next..]);
        entries, pos := entries + [e], next;
      }
    }
  }

  /** What is found at the path of the log. */
  datatype Disk = NoFile | File(data: Bytes)

  /** The log after open_file. */
  function OpenedDisk(disk: Disk): FileLog {
    if disk.NoFile? then FRESH else Opened(disk.data)
  }

  /** Whether open_file returns early: there is no file, or it is cut inside the header or the snapshot. */
  predicate GivesUp(disk: Disk) {
    disk.NoFile? ||
    var data := disk.data;
    |data| >= 4 && Decode(data[..4]) == MAGIC && (|data| < HEADER || |data| < HEADER + Decode(data[20..24]))
  }

  /** Opening a log; `after` is the file it leaves, which is written anew only where it gives up. */
  method OpenFile(disk: Disk) returns (log: FileLog, after: Bytes)
    ensures log == OpenedDisk(disk)
    ensures after == if GivesUp(disk) then Persisted(log) else disk.data
  {
    if disk.NoFile? {
      log := FRESH;
      after := PersistFile(log);
      return;
    }
    var data := disk.data;
    var pos, index, term, snapshot := 0, 0, 0, [];
    if |data| >= 4 {
      if Decode(data[..4]) == MAGIC {
        pos := 4;
        if pos + 20 > |data| {
          log := FRESH;
          after := PersistFile(log);
          return;
        }
        index := Decode(data[pos..pos + 8]);
        term := Decode(data[pos + 8..pos + 16]);
        var len := Decode(data[pos + 16..pos + 20]);
        pos := pos + 20;
        if pos + len > |data| {
          log := FileLog(index, term, [], []);
          after := PersistFile(log);
          return;
        }
        snapshot := data[pos..pos + len];
        pos := pos + len;
      } else {
        assert data[0..] == data;
      }
    } else {
      assert data[0..] == data;
    }
    var entries := ReadEntries(data, pos);
    return FileLog(index, term, snapshot, entries), data;
  }

  // ---- Round trip ----

  /** How many whole records of `entries` lie in the first n bytes. */
  function Whole(entries: seq<FileEntry>, n: nat): (m: nat)
    ensures m <= |entries|
  {
    if entries == [] || |Record(entries[0])| > n then 0 else 1 + Whole(entries[1..], n - |Record(entries[0])|)
  }

  lemma RecordParts(e: FileEntry, rest: Bytes)
    requires EntryFits(e)
    ensures var data := Record(e) + rest;
            && Decode(data[..8]) == e.term && Decode(data[8..12]) == |e.command|
            && data[12..12 + |e.command|] == e.command && data[12 + |e.command|..] == rest
  {
    var data := Record(e) + rest;
    assert data[..8] == Encode(e.term, 8) && data[8..12] == Encode(|e.command|, 4);
    DecodeEncode(e.term, 8);
    DecodeEncode(|e.command|, 4);
  }

  /** A record that is cut short is not read. */
  lemma CutRecord(e: FileEntry, data: Bytes)
    requires EntryFits(e) && data <= Record(e) && |data| < |Record(e)|
    ensures ReadRecords(data) == []
  {
    if |data| >= 12 {
      assert data[8..12] == Record(e)[8..12] == Encode(|e.command|, 4);
      DecodeEncode(|e.command|, 4);
    }
  }

  lemma FirstRecord(e: FileEntry, tail: Bytes)
    requires EntryFits(e)
    ensures ReadRecords(Record(e) + tail) == [e] + ReadRecords(tail)
  {
    RecordParts(e, tail);
  }

  lemma WholeStep(entries: seq<FileEntry>, n: nat)
    requires entries != [] && |Record(entries[0])| <= n
    ensures entries[..Whole(entries, n)] == [entries[0]] + entries[1..][..Whole(entries[1..], n - |Record(entries[0])|)]
  {
  }

  /** Any prefix of the records reads as the records that are whole in it. */
  lemma {:induction false} PrefixOfRecords(entries: seq<FileEntry>, data: Bytes)
    requires (forall i :: 0 <= i < |entries| ==> EntryFits(entries[i])) && data <= Records(entries)
    ensures ReadRecords(data) == entries[..Whole(entries, |data|)]
    decreases |entries|
  {
    if entries == [] {
    } else {
      var first, rest := Record(entries[0]), Records(entries[1..]);
      if |data| < |first| {
        assert data <= first;
        CutRecord(entries[0], data);
      } else {
        var tail := data[|first|..];
        assert data == first + tail && tail <= rest;
        FirstRecord(entries[0], tail);
        PrefixOfRecords(entries[1..], tail);
        WholeStep(entries, |data|);
      }
    }
  }

  lemma {:induction false} AllWhole(entries: seq<FileEntry>)
    ensures Whole(entries, |Records(entries)|) == |entries|
  {
    if entries == [] {
    } else {
      AllWhole(entries[1..]);
    }
  }

  /** The four fields of a header, cut out of a + b + c + d. */
  lemma FourFields(a: Bytes, b: Bytes, c: Bytes, d: Bytes, data: Bytes)
    requires |a| == 4 && |b| == 8 && |c| == 8 && |d| == 4 && a + b + c + d <= data
    ensures data[..4] == a && data[4..12] == b && data[12..20] == c && data[20..24] == d
  {
    var h := a + b + c + d;
    assert h == data[..24];
    assert h[..4] == a && h[4..12] == b;
    assert h[12..20] == c && h[20..24] == d;
  }

  lemma HeaderParts(log: FileLog, data: Bytes)
    requires SnapshotFits(log) && Header(log) <= data
    ensures |data| >= HEADER && Decode(data[..4]) == MAGIC && Decode(data[4..12]) == log.snapIndex
    ensures Decode(data[12..20]) == log.snapTerm && Decode(data[20..24]) == |log.snapData|
  {
    FourFields(Encode(MAGIC, 4), Encode(log.snapIndex, 8), Encode(log.snapTerm, 8), Encode(|log.snapData|, 4), data);
    MagicFits();
    DecodeEncode(MAGIC, 4);
    DecodeEncode(log.snapIndex, 8);
    DecodeEncode(log.snapTerm, 8);
    DecodeEncode(|log.snapData|, 4);
  }

  lemma MagicFits()
    ensures MAGIC < Power(4) == 0x1_0000_0000
  {
  }

  lemma HeaderIsPrefix(log: FileLog, data: Bytes)
    requires data <= Persisted(log) && |data| >= HEADER
    ensures Header(log) <= data
  {
  }

  lemma SnapshotParts(log: FileLog, data: Bytes)
    requires |log.snapData| < Power(4) && data <= Persisted(log) && |data| >= HEADER + |log.snapData|
    ensures data[HEADER..HEADER + |log.snapData|] == log.snapData && data[HEADER + |log.snapData|..] <= Records(log.entries)
  {
    SecondAndThird(Header(log), log.snapData, Records(log.entries), data);
  }

  lemma SecondAndThird(a: Bytes, b: Bytes, c: Bytes, data: Bytes)
    requires data <= a + b + c && |data| >= |a| + |b|
    ensures data[|a|..|a| + |b|] == b && data[|a| + |b|..] <= c
  {
    var whole, n := a + b + c, |a| + |b|;
    assert data == whole[..|data|];
    assert whole[|a|..n] == b && whole[n..] == c;
    assert data[|a|..n] == whole[|a|..n] && data[n..] == c[..|data| - n];
  }

  lemma TornSnapshot(log: FileLog, data: Bytes)
    requires SnapshotFits(log) && data <= Persisted(log) && HEADER <= |data| < HEADER + |log.snapData|
    ensures Opened(data) == Survives(log, |data|)
  {
    HeaderIsPrefix(log, data);
    HeaderParts(log, data);
  }

  lemma WholeSnapshot(log: FileLog, data: Bytes)
    requires SnapshotFits(log) && data <= Persisted(log) && |data| >= HEADER + |log.snapData|
    ensures Opened(data) == log.(entries := ReadRecords(data[HEADER + |log.snapData|..]))
    ensures data[HEADER + |log.snapData|..] <= Records(log.entries)
  {
    HeaderIsPrefix(log, data);
    HeaderParts(log, data);
    SnapshotParts(log, data);
  }

  lemma WholePrefix(log: FileLog, data: Bytes)
    requires Fits(log) && data <= Persisted(log) && |data| >= HEADER + |log.snapData|
    ensures Opened(data) == Survives(log, |data|)
  {
    var tail := data[HEADER + |log.snapData|..];
    WholeSnapshot(log, data);
    PrefixOfRecords(log.entries, tail);
    assert |tail| == |data| - HEADER - |log.snapData|;
  }

  /** What the first n bytes of a persisted file stand for. With the header and the snapshot whole, the same
      snapshot and the entries that are whole; cut inside the snapshot, the index and term without the data;
      cut inside the header, nothing. */
  function Survives(log: FileLog, n: nat): FileLog {
    if n < HEADER then FRESH
    else if n < HEADER + |log.snapData| then FileLog(log.snapIndex, log.snapTerm, [], [])
    else log.(entries := log.entries[..Whole(log.entries, n - HEADER - |log.snapData|)])
  }

  /** Every prefix of a persisted file decodes to what it stands for. */
  lemma PrefixDecodes(log: FileLog, data: Bytes)
    requires Fits(log) && data <= Persisted(log)
    ensures Opened(data) == Survives(log, |data|)
  {
    if |data| < HEADER {
      ShortHeader(log, data);
    } else if |data| < HEADER + |log.snapData| {
      TornSnapshot(log, data);
    } else {
      WholePrefix(log, data);
    }
  }

  lemma ShortHeader(log: FileLog, data: Bytes)
    requires SnapshotFits(log) && data <= Persisted(log) && |data| < HEADER
    ensures Opened(data) == Survives(log, |data|)
  {
    if |data| >= 4 {
      assert data[..4] == Persisted(log)[..4] == Encode(MAGIC, 4);
      MagicFits();
      DecodeEncode(MAGIC, 4);
    }
  }

  /** Reopening what persist wrote restores the same log. */
  lemma RoundTrip(log: FileLog)
    requires Fits(log)
    ensures Opened(Persisted(log)) == log
  {
    WholePrefix(log, Persisted(log));
    AllWhole(log.entries);
    assert |Header(log)| == HEADER;
    assert log.entries[..|log.entries|] == log.entries;
  }

  /** Opening again what opening left gives the same log and leaves the file alone. */
  lemma ReopenIsStable(disk: Disk)
    ensures var after := if GivesUp(disk) then Persisted(OpenedDisk(disk)) else disk.data;
            OpenedDisk(File(after)) == OpenedDisk(disk) && !GivesUp(File(after))
  {
    if GivesUp(disk) {
      var log := OpenedDisk(disk);
      assert Fits(log);
      RoundTrip(log);
      HeaderIsPrefix(log, Persisted(log));
      HeaderParts(log, Persisted(log));
    }
  }

  // ---- The log of a node ----

  /** The bytes of a string of one-byte characters. */
  function BytesOf(text: string): Bytes
    requires OneByte(text)
  {
    seq(|text|, i requires 0 <= i < |text| => text[i] as nat)
  }

  predicate OneByte(text: string) {
    forall i :: 0 <= i < |text| ==> text[i] as int < 256
  }

  function TextOf(b: Bytes): (text: string)
    ensures OneByte(text)
  {
    seq(|b|, i requires 0 <= i < |b| => b[i] as char)
  }

  lemma TextOfBytes(text: string)
    requires OneByte(text)
    ensures TextOf(BytesOf(text)) == text
  {
  }

  ghost predicate StorableEntry(e: Entry) {
    OneByte(e.command) && e.term < Power(8) && |e.command| < Power(4)
  }

  /** A log whose strings and numbers the file can hold. */
  ghost predicate Storable(log: Log) {
    && OneByte(log.snapData) && |log.snapData| < Power(4) && log.snapIndex < Power(8) && log.snapTerm < Power(8)
    && forall i :: 0 <= i < |log.entries| ==> StorableEntry(log.entries[i])
  }

  function FileEntryOf(e: Entry): FileEntry
    requires OneByte(e.command)
  {
    FileEntry(e.term, BytesOf(e.command))
  }

  function EntryOf(e: FileEntry): Entry {
    Entry(e.term, TextOf(e.command))
  }

  /** What persist writes for a node's log, and the log that a file gives a node. */
  function FileLogOf(log: Log): FileLog
    requires Storable(log)
  {
    FileLog(log.snapIndex, log.snapTerm, BytesOf(log.snapData),
            seq(|log.entries|, i requires 0 <= i < |log.entries| => FileEntryOf(log.entries[i])))
  }

  function LogOf(log: FileLog): Log {
    Log(log.snapIndex, log.snapTerm, TextOf(log.snapData),
        seq(|log.entries|, i requires 0 <= i < |log.entries| => EntryOf(log.entries[i])))
  }

  /** A node that reopens the file of its log has that log again. */
  lemma NodeLogSurvives(log: Log)
    requires Storable(log)
    ensures LogOf(Opened(Persisted(FileLogOf(log)))) == log
  {
    var file := FileLogOf(log);
    forall i | 0 <= i < |file.entries| ensures EntryFits(file.entries[i]) && EntryOf(file.entries[i]) == log.entries[i] {
      assert StorableEntry(log.entries[i]);
      TextOfBytes(log.entries[i].command);
    }
    TextOfBytes(log.snapData);
    RoundTrip(file);
  }

  // ---- Files without a header ----

  lemma {:induction false} ReadTakesSpace(data: Bytes)
    ensures |Records(ReadRecords(data))| <= |data|
    decreases |data|
  {
    if |data| < 12 || 12 + Decode(data[8..12]) > |data| {
    } else {
      var len := Decode(data[8..12]);
      ReadTakesSpace(data[12 + len..]);
      var read := ReadRecords(data);
      assert read[1..] == ReadRecords(data[12 + len..]);
    }
  }

  /** A file that begins with the magic never opens with records that fill it. */
  lemma MagicTakesSpace(data: Bytes)
    requires |data| >= 4 && Decode(data[..4]) == MAGIC
    ensures |Records(Opened(data).entries)| < |data|
  {
    if |data| >= HEADER {
      var len := Decode(data[20..24]);
      if HEADER + len <= |data| { ReadTakesSpace(data[HEADER + len..]); }
    }
  }

  lemma FirstBytes(entries: seq<FileEntry>)
    requires entries != []
    ensures |Records(entries)| >= 12 && Records(entries)[..4] == Encode(entries[0].term, 8)[..4]
  {
  }

  /** A file of bare records opens as those entries exactly when it does not happen to begin with the magic. */
  lemma BareRecordsOpen(entries: seq<FileEntry>)
    requires forall i :: 0 <= i < |entries| ==> EntryFits(entries[i])
    ensures Opened(Records(entries)) == FileLog(0, 0, [], entries) <==>
            entries == [] || Decode(Encode(entries[0].term, 8)[..4]) != MAGIC
  {
    var data := Records(entries);
    PrefixOfRecords(entries, data);
    AllWhole(entries);
    assert entries[..|entries|] == entries;
    if entries != [] {
      FirstBytes(entries);
      if Decode(data[..4]) == MAGIC { MagicTakesSpace(data); }
    }
  }
}
