/** The invariant of the crash-and-recovery machine and its consequences over whole runs. */
module DurabilityProof {
  import opened Options
  import opened InternalKeys
  import opened History
  import opened Durability

  // ------------------------------------------------------------------ the invariant, by part

  ghost predicate RecordsWithin(logs: map<nat, seq<Record>>, n: nat) {
    forall l, r :: l in logs && r in logs[l] ==> 1 <= r.first && r.first + |r.ops| <= n + 1
  }

  /** The manifest and the logs it does not supersede hold every durable write. */
  ghost predicate DiskHolds(logs: map<nat, seq<Record>>, tables: map<nat, set<Entry>>, mf: Manifest, durable: seq<Op>) {
    && mf.tables <= tables.Keys
    && TableEntries(tables, mf.tables) + LogsFrom(logs, mf.logNumber) == All(durable)
    && (forall e :: e in TableEntries(tables, mf.tables) ==> e.key.sequence <= mf.lastSequence)
    && mf.lastSequence <= |durable|
    && (forall t :: t in mf.tables ==> t < mf.nextFile)
    && mf.logNumber < mf.nextFile
    && RecordsWithin(logs, |durable|)
  }

  /** How far the current group has come. */
  ghost predicate LeaderHolds(leader: Leader, lastSequence: nat, durable: seq<Op>, acked: nat) {
    && acked == lastSequence <= |durable|
    && match leader
       case Idle => |durable| == lastSequence
       case Logging(g) => |durable| == lastSequence && g.first == lastSequence + 1
       case Logged(g) => durable[lastSequence..] == g.ops && g.first == lastSequence + 1
  }

  ghost function GroupEntries(leader: Leader): set<Entry> {
    if leader.Logged? then Entries(leader.group) else {}
  }

  /** The newest log holds exactly the active memtable and the group being applied. */
  ghost predicate LogHolds(logs: map<nat, seq<Record>>, logfile: nat, mem: set<Entry>, leader: Leader, nextFile: nat) {
    && logfile in logs && logfile < nextFile
    && (forall n :: n in logs ==> n <= logfile)
    && LogEntries(logs[logfile]) == mem + GroupEntries(leader)
  }

  /** What readers can see is every acknowledged write. */
  ghost predicate ContentHolds(mem: set<Entry>, imm: Option<set<Entry>>, versionEntries: set<Entry>, durable: seq<Op>,
      lastSequence: nat) {
    && lastSequence <= |durable|
    && mem + (if imm.Some? then imm.value else {}) + versionEntries == Written(durable, 0, lastSequence)
  }

  ghost predicate FilesHold(keys: set<nat>, tables: set<nat>, pinned: seq<set<nat>>, pending: set<nat>, nextFile: nat) {
    && tables <= keys
    && (forall v :: v in pinned ==> v <= keys)
    && (forall t :: t in LiveTables(tables, pinned, pending) ==> t < nextFile)
    && pending !! tables
    && (forall v :: v in pinned ==> v !! pending)
  }

  ghost predicate CompactionHolds(disk: map<nat, set<Entry>>, tables: set<nat>, pending: set<nat>,
      compaction: Option<Compaction>) {
    compaction.Some? ==>
      var c := compaction.value;
      && c.inputs <= tables && c.outputs <= pending && c.outputs <= disk.Keys
      && TableEntries(disk, c.outputs) <= TableEntries(disk, c.inputs)
  }

  /** A table built for the flush in progress, which no version names yet. */
  ghost predicate FlushTable(disk: map<nat, set<Entry>>, imm: Option<set<Entry>>, live: set<nat>, nextFile: nat,
      t: nat) {
    imm.Some? && t in disk && disk[t] == imm.value && t < nextFile && t !in live
  }

  ghost predicate EditWithin(disk: map<nat, set<Entry>>, edit: Manifest, lastSequence: nat, nextFile: nat) {
    && edit.lastSequence <= lastSequence && edit.nextFile <= nextFile
    && (forall t :: t in edit.tables ==> t < edit.nextFile && t in disk)
    && edit.logNumber < edit.nextFile
    && (forall e :: e in TableEntries(disk, edit.tables) ==> e.key.sequence <= edit.lastSequence)
  }

  ghost predicate InstallEdit(disk: map<nat, set<Entry>>, tables: set<nat>, compaction: Option<Compaction>,
      logNumber: nat, edit: Manifest) {
    && compaction.Some?
    && edit.logNumber == logNumber
    && edit.tables == tables - compaction.value.inputs + compaction.value.outputs
    && TableEntries(disk, edit.tables) == TableEntries(disk, tables)
  }

  /** The manifest says what memory says, except between writing it and installing it. */
  ghost predicate InStep(mf: Manifest, tables: set<nat>, logNumber: nat) {
    mf.tables == tables && mf.logNumber == logNumber
  }

  ghost predicate BackgroundHolds(disk: map<nat, set<Entry>>, mf: Manifest, tables: set<nat>, logNumber: nat,
      live: set<nat>, pending: set<nat>,
                                  nextFile: nat, imm: Option<set<Entry>>, logfile: nat, lastSequence: nat,
                                  compaction: Option<Compaction>, background: Background) {
    match background
    case Free => InStep(mf, tables, logNumber)
    case Building(t) =>
      && InStep(mf, tables, logNumber)
      && imm.Some? && t in pending && (compaction.Some? ==> t !in compaction.value.outputs)
    case Built(t) =>
      InStep(mf, tables, logNumber) && FlushTable(disk, imm, live, nextFile, t)
    case WritingFlush(t, edit) =>
      && InStep(mf, tables, logNumber) && FlushTable(disk, imm, live, nextFile, t)
      && edit.logNumber == logfile && edit.tables == tables + {t} && EditWithin(disk, edit, lastSequence, nextFile)
    case WroteFlush(t, edit) =>
      && mf == edit && FlushTable(disk, imm, live, nextFile, t)
      && edit.logNumber == logfile && edit.tables == tables + {t} && EditWithin(disk, edit, lastSequence, nextFile)
    case WritingInstall(edit) =>
      InStep(mf, tables, logNumber) && InstallEdit(disk, tables, compaction, logNumber, edit)
        && EditWithin(disk, edit, lastSequence, nextFile)
    case WroteInstall(edit) =>
      mf == edit && InstallEdit(disk, tables, compaction, logNumber, edit)
        && EditWithin(disk, edit, lastSequence, nextFile)
    case Deleting(ts, ls) =>
      && InStep(mf, tables, logNumber) && ts !! live
      && (forall l :: l in ls ==> l < logNumber)
  }

  ghost predicate UpHolds(d: Disk, m: Memory, durable: seq<Op>, acked: nat) {
    var live := LiveTables(m.tables, m.pinned, m.pending);
    && m.logNumber <= m.logfile
    && LeaderHolds(m.leader, m.lastSequence, durable, acked)
    && LogHolds(d.logs, m.logfile, m.mem, m.leader, m.nextFile)
    && ContentHolds(m.mem, m.imm, TableEntries(d.tables, m.tables), durable, m.lastSequence)
    && FilesHold(d.tables.Keys, m.tables, m.pinned, m.pending, m.nextFile)
    && CompactionHolds(d.tables, m.tables, m.pending, m.compaction)
    && BackgroundHolds(d.tables, d.manifest, m.tables, m.logNumber, live, m.pending, m.nextFile, m.imm, m.logfile,
       m.lastSequence, m.compaction, m.background)
  }

  /** The logs still to be replayed. */
  ghost function LogsIn(logs: map<nat, seq<Record>>, which: set<nat>): set<Entry> {
    set n, e | n in which && n in logs && e in LogEntries(logs[n]) :: e
  }

  ghost predicate RecoveryHolds(d: Disk, r: Recovery, durable: seq<Op>) {
    && d.manifest.nextFile < r.nextFile
    && r.tables <= d.tables.Keys && (forall t :: t in r.tables ==> t < r.nextFile)
    && r.toReplay <= d.logs.Keys
    && (forall n :: n in d.logs && n !in r.toReplay ==> n < r.nextFile)
    && r.replayed <= TableEntries(d.tables, r.tables)
    && TableEntries(d.tables, r.tables) + LogsIn(d.logs, r.toReplay) == All(durable)
    && r.lastSequence <= |durable|
    && (forall e :: e in All(durable) ==> e.key.sequence <= r.lastSequence || e in LogsIn(d.logs, r.toReplay))
    && (r.newLog.Some? ==>
          && r.toReplay == {} && r.newLog.value in d.logs && d.logs[r.newLog.value] == [] && r.newLog.value < r.nextFile
          && forall n :: n in d.logs ==> n <= r.newLog.value)
  }

  /** Beyond what was acknowledged there is at most the group in flight, whole. */
  ghost predicate AckedHolds(st: State) {
    && st.acked <= |st.durable|
    && (st.durable[st.acked..] == [] || (st.inFlight.Some? && st.durable[st.acked..] == st.inFlight.value.ops))
  }

  ghost predicate Inv(st: State) {
    && DiskHolds(st.disk.logs, st.disk.tables, st.disk.manifest, st.durable)
    && match st.process
       case Up(m) => UpHolds(st.disk, m, st.durable, st.acked)
       case Down => AckedHolds(st)
       case Recovering(r) => AckedHolds(st) && RecoveryHolds(st.disk, r, st.durable)
  }

  lemma InitInv(st: State)
    requires Init(st)
    ensures Inv(st)
  {
  }

  // ------------------------------------------------------------------ contents of logs and tables

  lemma {:induction false} RecordEntries(durable: seq<Op>, r: Record)
    requires r.first == |durable| + 1
    ensures Entries(r) == Written(durable + r.ops, |durable|, |durable| + |r.ops|)
    decreases |r.ops|
  {
    if r.ops != [] {
      var n := |r.ops| - 1;
      var shorter := Record(r.first, r.ops[..n]);
      RecordEntries(durable, shorter);
      var h := durable + r.ops;
      WrittenPrefix(durable + shorter.ops, [r.ops[n]], |durable|, |durable| + n);
      assert durable + shorter.ops + [r.ops[n]] == h;
      assert EntryOf(h, |durable| + n) == Stamp(r.ops[n], r.first + n);
    }
  }

  lemma {:induction false} WrittenPrefix(h: seq<Op>, more: seq<Op>, a: nat, b: nat)
    requires a <= b <= |h|
    ensures Written(h + more, a, b) == Written(h, a, b)
  {
    if a < b {
      WrittenPrefix(h, more, a, b - 1);
    }
  }

  lemma {:induction false} WrittenJoin(h: seq<Op>, a: nat, b: nat, c: nat)
    requires a <= b <= c <= |h|
    ensures Written(h, a, c) == Written(h, a, b) + Written(h, b, c)
    decreases c
  {
    if b < c {
      WrittenJoin(h, a, b, c - 1);
    }
  }

  lemma {:induction false} RecordSequences(r: Record, e: Entry)
    requires e in Entries(r)
    ensures r.first <= e.key.sequence < r.first + |r.ops|
    decreases |r.ops|
  {
    if e in Entries(Record(r.first, r.ops[..|r.ops| - 1])) {
      RecordSequences(Record(r.first, r.ops[..|r.ops| - 1]), e);
    }
  }

  /** A log's last sequence number bounds those of its entries. */
  lemma {:induction false} LastLoggedBounds(rs: seq<Record>, e: Entry)
    requires e in LogEntries(rs)
    ensures e.key.sequence <= LastLogged(rs)
  {
    if e in Entries(rs[|rs| - 1]) {
      RecordSequences(rs[|rs| - 1], e);
    } else {
      LastLoggedBounds(rs[..|rs| - 1], e);
    }
  }

  lemma {:induction false} LastLoggedWithin(rs: seq<Record>, n: nat)
    requires forall r :: r in rs ==> 1 <= r.first && r.first + |r.ops| <= n + 1
    ensures LastLogged(rs) <= n
  {
    if rs != [] {
      LastLoggedWithin(rs[..|rs| - 1], n);
    }
  }

  lemma AppendEntries(rs: seq<Record>, r: Record)
    ensures LogEntries(rs + [r]) == LogEntries(rs) + Entries(r)
  {
    assert (rs + [r])[..|rs|] == rs;
  }

  lemma AppendLogsFrom(logs: map<nat, seq<Record>>, n: nat, r: Record, from: nat)
    requires n in logs && from <= n
    ensures LogsFrom(logs[n := logs[n] + [r]], from) == LogsFrom(logs, from) + Entries(r)
  {
    var after := logs[n := logs[n] + [r]];
    AppendEntries(logs[n], r);
    forall e
      ensures e in LogsFrom(after, from) <==> e in LogsFrom(logs, from) || e in Entries(r)
    {
      if e in LogsFrom(after, from) {
        var l :| l in after && l >= from && e in LogEntries(after[l]);
        if l != n {
          assert l in logs && e in LogEntries(logs[l]);
        }
      }
      if e in LogsFrom(logs, from) {
        var l :| l in logs && l >= from && e in LogEntries(logs[l]);
        assert l in after && e in LogEntries(after[l]);
      }
      if e in Entries(r) {
        assert n in after && e in LogEntries(after[n]);
      }
    }
  }

  lemma EmptyLogAdds(logs: map<nat, seq<Record>>, n: nat, from: nat)
    requires n !in logs
    ensures LogsFrom(logs[n := []], from) == LogsFrom(logs, from)
  {
    var after := logs[n := []];
    assert LogEntries([]) == {};
    forall e
      ensures e in LogsFrom(after, from) <==> e in LogsFrom(logs, from)
    {
      if e in LogsFrom(logs, from) {
        var l :| l in logs && l >= from && e in LogEntries(logs[l]);
        assert l in after && after[l] == logs[l];
      }
    }
  }

  lemma NewestLogOnly(logs: map<nat, seq<Record>>, logfile: nat)
    requires logfile in logs && forall n :: n in logs ==> n <= logfile
    ensures LogsFrom(logs, logfile) == LogEntries(logs[logfile])
  {
  }

  lemma DropOldLog(logs: map<nat, seq<Record>>, n: nat, from: nat)
    requires n < from
    ensures LogsFrom(logs - {n}, from) == LogsFrom(logs, from)
  {
    var after := logs - {n};
    forall e
      ensures e in LogsFrom(after, from) <==> e in LogsFrom(logs, from)
    {
      if e in LogsFrom(logs, from) {
        var l :| l in logs && l >= from && e in LogEntries(logs[l]);
        assert l in after && after[l] == logs[l];
      }
      if e in LogsFrom(after, from) {
        var l :| l in after && l >= from && e in LogEntries(after[l]);
        assert l in logs && after[l] == logs[l];
      }
    }
  }

  /** Writing or removing a table that is not among the ones read changes nothing. */
  lemma OtherTable(tables: map<nat, set<Entry>>, t: nat, content: set<Entry>, which: set<nat>)
    requires t !in which
    ensures TableEntries(tables[t := content], which) == TableEntries(tables, which)
    ensures TableEntries(tables - {t}, which) == TableEntries(tables, which)
  {
    forall e
      ensures e in TableEntries(tables[t := content], which) <==> e in TableEntries(tables, which)
      ensures e in TableEntries(tables - {t}, which) <==> e in TableEntries(tables, which)
    {
      if e in TableEntries(tables, which) {
        var u :| u in which && u in tables && e in tables[u];
        assert u in tables[t := content] && u in tables - {t};
        assert (tables - {t})[u] == tables[u];
      }
      if e in TableEntries(tables - {t}, which) {
        var u :| u in which && u in tables - {t} && e in (tables - {t})[u];
        assert u in tables && tables[u] == (tables - {t})[u];
      }
    }
  }

  lemma AddTable(tables: map<nat, set<Entry>>, which: set<nat>, t: nat)
    requires t in tables
    ensures TableEntries(tables, which + {t}) == TableEntries(tables, which) + tables[t]
  {
    forall e | e in TableEntries(tables, which) + tables[t]
      ensures e in TableEntries(tables, which + {t})
    {
      if e in tables[t] {
        assert t in which + {t};
      }
    }
  }

  /** Exchanging tables for others with the same entries changes nothing. */
  lemma ExchangeTables(tables: map<nat, set<Entry>>, which: set<nat>, inputs: set<nat>, outputs: set<nat>)
    requires inputs <= which
    requires TableEntries(tables, inputs) == TableEntries(tables, outputs)
    ensures TableEntries(tables, which - inputs + outputs) == TableEntries(tables, which)
  {
    forall e
      ensures e in TableEntries(tables, which - inputs + outputs) <==> e in TableEntries(tables, which)
    {
      if e in TableEntries(tables, which) {
        var t :| t in which && t in tables && e in tables[t];
        if t in inputs {
          assert e in TableEntries(tables, inputs);
          var u :| u in outputs && u in tables && e in tables[u];
          assert u in which - inputs + outputs;
        } else {
          assert t in which - inputs + outputs;
        }
      }
      if e in TableEntries(tables, which - inputs + outputs) {
        var t :| t in which - inputs + outputs && t in tables && e in tables[t];
        if t !in which {
          assert e in TableEntries(tables, outputs);
          assert e in TableEntries(tables, inputs);
          var u :| u in inputs && u in tables && e in tables[u];
          assert u in which;
        }
      }
    }
  }

  // ------------------------------------------------------------------ the commit path

  lemma BeginGroupInv(st: State, st': State, ops: seq<Op>)
    requires Inv(st) && st.process.Up? && UpStep(st, st', BeginGroup(ops))
    ensures Inv(st')
  {
    hide DiskHolds, ContentHolds, FilesHold, CompactionHolds, BackgroundHolds, LiveTables, LogEntries;
  }

  lemma AppendDisk(logs: map<nat, seq<Record>>, tables: map<nat, set<Entry>>, mf: Manifest, durable: seq<Op>,
      logfile: nat, g: Record)
    requires DiskHolds(logs, tables, mf, durable)
    requires logfile in logs && mf.logNumber <= logfile && g.first == |durable| + 1
    ensures DiskHolds(logs[logfile := logs[logfile] + [g]], tables, mf, durable + g.ops)
  {
    hide LogsFrom, TableEntries, Entries;
    var n, n' := |durable|, |durable + g.ops|;
    AppendLogsFrom(logs, logfile, g, mf.logNumber);
    RecordEntries(durable, g);
    WrittenPrefix(durable, g.ops, 0, n);
    WrittenJoin(durable + g.ops, 0, n, n');
  }

  lemma AppendLogHolds(logs: map<nat, seq<Record>>, logfile: nat, mem: set<Entry>, g: Record, nextFile: nat)
    requires LogHolds(logs, logfile, mem, Logging(g), nextFile)
    ensures LogHolds(logs[logfile := logs[logfile] + [g]], logfile, mem, Logged(g), nextFile)
  {
    hide LogEntries, Entries;
    AppendEntries(logs[logfile], g);
  }

  /** No manifest in use names a log beyond the newest one. */
  lemma ManifestLogBound(st: State)
    requires Inv(st) && st.process.Up?
    ensures st.disk.manifest.logNumber <= st.process.memory.logfile
  {
    hide DiskHolds, ContentHolds, FilesHold, CompactionHolds, LogHolds, LeaderHolds, LiveTables, TableEntries,
         FlushTable, EditWithin;
  }

  lemma AppendLogInv(st: State, st': State)
    requires Inv(st) && st.process.Up? && UpStep(st, st', AppendLog)
    ensures Inv(st')
  {
    hide DiskHolds, FilesHold, CompactionHolds, BackgroundHolds, LiveTables, LogHolds, Written, TableEntries;
    var d, m, g := st.disk, st.process.memory, st.process.memory.leader.group;
    ManifestLogBound(st);
    AppendDisk(d.logs, d.tables, d.manifest, st.durable, m.logfile, g);
    AppendLogHolds(d.logs, m.logfile, m.mem, g, m.nextFile);
    WrittenPrefix(st.durable, g.ops, 0, m.lastSequence);
  }

  lemma ApplyContent(mem: set<Entry>, imm: Option<set<Entry>>, versionEntries: set<Entry>, durable: seq<Op>, n: nat,
      g: Record)
    requires ContentHolds(mem, imm, versionEntries, durable, n)
    requires durable[n..] == g.ops && g.first == n + 1
    ensures n + |g.ops| == |durable|
    ensures ContentHolds(mem + Entries(g), imm, versionEntries, durable, |durable|)
  {
    hide Entries;
    assert durable == durable[..n] + g.ops;
    RecordEntries(durable[..n], g);
    WrittenJoin(durable, 0, n, |durable|);
  }

  lemma ApplyGroupInv(st: State, st': State)
    requires Inv(st) && st.process.Up? && UpStep(st, st', ApplyGroup)
    ensures Inv(st')
  {
    hide DiskHolds, ContentHolds, FilesHold, CompactionHolds, BackgroundHolds, LiveTables, TableEntries, LogEntries,
         Entries;
    var d, m, g := st.disk, st.process.memory, st.process.memory.leader.group;
    ApplyContent(m.mem, m.imm, TableEntries(d.tables, m.tables), st.durable, m.lastSequence, g);
    LaterSequence(d.tables, d.manifest, m, m.lastSequence + |g.ops|);
  }

  /** What the background thread is doing is not disturbed by the last sequence number growing. */
  lemma LaterSequence(disk: map<nat, set<Entry>>, mf: Manifest, m: Memory, last: nat)
    requires BackgroundHolds(disk, mf, m.tables, m.logNumber, LiveTables(m.tables, m.pinned, m.pending), m.pending,
             m.nextFile, m.imm, m.logfile, m.lastSequence, m.compaction, m.background)
    requires m.lastSequence <= last
    ensures BackgroundHolds(disk, mf, m.tables, m.logNumber, LiveTables(m.tables, m.pinned, m.pending), m.pending,
            m.nextFile, m.imm, m.logfile, last, m.compaction, m.background)
  {
    hide TableEntries, LiveTables;
  }

  /** Nor by file numbers being handed out. */
  lemma LaterFile(disk: map<nat, set<Entry>>, mf: Manifest, m: Memory, logfile: nat, imm: Option<set<Entry>>, next: nat)
    requires BackgroundHolds(disk, mf, m.tables, m.logNumber, LiveTables(m.tables, m.pinned, m.pending), m.pending,
             m.nextFile, m.imm, m.logfile, m.lastSequence, m.compaction, m.background)
    requires FilesHold(disk.Keys, m.tables, m.pinned, m.pending, m.nextFile)
    requires m.nextFile <= next && (m.imm.Some? ==> imm == m.imm && logfile == m.logfile)
    ensures BackgroundHolds(disk, mf, m.tables, m.logNumber, LiveTables(m.tables, m.pinned, m.pending), m.pending, next,
            imm, logfile, m.lastSequence, m.compaction, m.background)
    ensures FilesHold(disk.Keys, m.tables, m.pinned, m.pending, next)
  {
    hide TableEntries, LiveTables;
  }

  lemma SwitchDisk(logs: map<nat, seq<Record>>, tables: map<nat, set<Entry>>, mf: Manifest, durable: seq<Op>, n: nat)
    requires DiskHolds(logs, tables, mf, durable) && n !in logs
    ensures DiskHolds(logs[n := []], tables, mf, durable)
  {
    hide LogsFrom, TableEntries;
    EmptyLogAdds(logs, n, mf.logNumber);
  }

  lemma SwitchInv(st: State, st': State)
    requires Inv(st) && st.process.Up? && UpStep(st, st', SwitchMemtable)
    ensures Inv(st')
  {
    hide DiskHolds, FilesHold, CompactionHolds, BackgroundHolds, LiveTables, TableEntries, Written;
    var d, m := st.disk, st.process.memory;
    SwitchDisk(d.logs, d.tables, d.manifest, st.durable, m.nextFile);
    LaterFile(d.tables, d.manifest, m, m.nextFile, Some(m.mem), m.nextFile + 1);
  }

  // ------------------------------------------------------------------ flushing

  lemma StartFlushInv(st: State, st': State)
    requires Inv(st) && st.process.Up? && UpStep(st, st', StartFlush)
    ensures Inv(st')
  {
    hide DiskHolds, ContentHolds, TableEntries, LeaderHolds, LogEntries;
    var d, m := st.disk, st.process.memory;
    AllocateFiles(d.tables.Keys, m.tables, m.pinned, m.pending, m.nextFile);
  }

  lemma AllocateFiles(keys: set<nat>, tables: set<nat>, pinned: seq<set<nat>>, pending: set<nat>, next: nat)
    requires FilesHold(keys, tables, pinned, pending, next)
    ensures FilesHold(keys, tables, pinned, pending + {next}, next + 1)
    ensures next !in LiveTables(tables, pinned, pending)
    ensures LiveTables(tables, pinned, pending + {next}) == LiveTables(tables, pinned, pending) + {next}
  {
    assert forall t :: t in tables + pending ==> t in LiveTables(tables, pinned, pending);
    forall v, t | v in pinned && t in v
      ensures t < next
    {
      assert t in LiveTables(tables, pinned, pending);
    }
    assert next !in tables;
  }

  lemma PendingNotNamed(keys: set<nat>, tables: set<nat>, pinned: seq<set<nat>>, pending: set<nat>, next: nat, t: nat)
    requires FilesHold(keys, tables, pinned, pending, next) && t in pending
    ensures t < next && t !in tables
    ensures LiveTables(tables, pinned, pending - {t}) == LiveTables(tables, pinned, pending) - {t}
    ensures FilesHold(keys + {t}, tables, pinned, pending - {t}, next)
  {
    assert t in LiveTables(tables, pinned, pending);
  }

  /** A table no version names can be written or removed without the disk losing anything. */
  lemma OtherTableDisk(logs: map<nat, seq<Record>>, tables: map<nat, set<Entry>>, mf: Manifest, durable: seq<Op>,
      t: nat, content: set<Entry>)
    requires DiskHolds(logs, tables, mf, durable) && t !in mf.tables
    ensures DiskHolds(logs, tables[t := content], mf, durable)
    ensures DiskHolds(logs, tables - {t}, mf, durable)
  {
    hide TableEntries, LogsFrom, RecordsWithin;
    OtherTable(tables, t, content, mf.tables);
  }

  lemma OtherTableCompaction(disk: map<nat, set<Entry>>, tables: set<nat>, pending: set<nat>,
      compaction: Option<Compaction>, t: nat, content: set<Entry>)
    requires CompactionHolds(disk, tables, pending, compaction) && t !in tables
    requires compaction.Some? ==> t !in compaction.value.outputs
    ensures CompactionHolds(disk[t := content], tables, pending - {t}, compaction)
    ensures CompactionHolds(disk - {t}, tables, pending, compaction)
  {
    hide TableEntries;
    if compaction.Some? {
      OtherTable(disk, t, content, compaction.value.inputs);
      OtherTable(disk, t, content, compaction.value.outputs);
    }
  }

  lemma BuildTableInv(st: State, st': State)
    requires Inv(st) && st.process.Up? && UpStep(st, st', BuildTable)
    ensures Inv(st')
  {
    hide DiskHolds, ContentHolds, FilesHold, CompactionHolds, TableEntries, LeaderHolds, LogHolds, LiveTables;
    var d, m := st.disk, st.process.memory;
    var t := m.background.table;
    PendingNotNamed(d.tables.Keys, m.tables, m.pinned, m.pending, m.nextFile, t);
    OtherTable(d.tables, t, m.imm.value, m.tables);
    OtherTableDisk(d.logs, d.tables, d.manifest, st.durable, t, m.imm.value);
    OtherTableCompaction(d.tables, m.tables, m.pending, m.compaction, t, m.imm.value);
    assert d.tables[t := m.imm.value].Keys == d.tables.Keys + {t};
  }

  /** Everything visible was written at or before the last sequence number. */
  lemma ContentSequences(mem: set<Entry>, imm: Option<set<Entry>>, versionEntries: set<Entry>, durable: seq<Op>, n: nat)
    requires ContentHolds(mem, imm, versionEntries, durable, n)
    ensures forall e :: e in versionEntries ==> e.key.sequence <= n
    ensures imm.Some? ==> forall e :: e in imm.value ==> e.key.sequence <= n
  {
    forall e | e in Written(durable, 0, n)
      ensures e.key.sequence <= n
    {
      WrittenMembers(durable, 0, n, e);
    }
  }

  lemma FilesBelow(keys: set<nat>, tables: set<nat>, pinned: seq<set<nat>>, pending: set<nat>, next: nat)
    requires FilesHold(keys, tables, pinned, pending, next)
    ensures forall t :: t in tables ==> t < next && t in keys
    ensures forall t :: t in pending ==> t < next
  {
    assert forall t :: t in tables + pending ==> t in LiveTables(tables, pinned, pending);
  }

  lemma PrepareFlushInv(st: State, st': State)
    requires Inv(st) && st.process.Up? && UpStep(st, st', PrepareFlush)
    ensures Inv(st')
  {
    hide DiskHolds, ContentHolds, FilesHold, CompactionHolds, TableEntries, LeaderHolds, LogEntries, LiveTables;
    var d, m := st.disk, st.process.memory;
    var t := m.background.table;
    ContentSequences(m.mem, m.imm, TableEntries(d.tables, m.tables), st.durable, m.lastSequence);
    AddTable(d.tables, m.tables, t);
    FilesBelow(d.tables.Keys, m.tables, m.pinned, m.pending, m.nextFile);
  }

  /** Once the manifest names the flushed table, the older logs are no longer needed. */
  lemma FlushedDisk(d: Disk, m: Memory, durable: seq<Op>, acked: nat, edit: Manifest, t: nat)
    requires DiskHolds(d.logs, d.tables, d.manifest, durable)
    requires LeaderHolds(m.leader, m.lastSequence, durable, acked)
    requires LogHolds(d.logs, m.logfile, m.mem, m.leader, m.nextFile)
    requires ContentHolds(m.mem, m.imm, TableEntries(d.tables, m.tables), durable, m.lastSequence)
    requires m.imm.Some? && t in d.tables && d.tables[t] == m.imm.value
    requires edit.logNumber == m.logfile && edit.tables == m.tables + {t}
             && EditWithin(d.tables, edit, m.lastSequence, m.nextFile)
    ensures DiskHolds(d.logs, d.tables, edit, durable)
  {
    hide TableEntries, LogEntries, Entries, LogsFrom, RecordsWithin;
    NewestLogOnly(d.logs, m.logfile);
    AddTable(d.tables, m.tables, t);
    WrittenJoin(durable, 0, m.lastSequence, |durable|);
    if m.leader.Logged? {
      assert durable == durable[..m.lastSequence] + m.leader.group.ops;
      RecordEntries(durable[..m.lastSequence], m.leader.group);
    }
  }

  lemma WriteFlushInv(st: State, st': State)
    requires Inv(st) && st.process.Up? && UpStep(st, st', WriteFlush)
    ensures Inv(st')
  {
    hide DiskHolds, ContentHolds, FilesHold, CompactionHolds, TableEntries, LeaderHolds, LogHolds, LiveTables,
         EditWithin;
    var d, m := st.disk, st.process.memory;
    FlushedDisk(d, m, st.durable, st.acked, m.background.edit, m.background.table);
  }

  lemma InstallFlushInv(st: State, st': State)
    requires Inv(st) && st.process.Up? && UpStep(st, st', InstallFlush)
    ensures Inv(st')
  {
    hide DiskHolds, FilesHold, CompactionHolds, TableEntries, LeaderHolds, LogHolds, LiveTables, EditWithin, Written;
    var d, m := st.disk, st.process.memory;
    var t := m.background.table;
    AddTable(d.tables, m.tables, t);
    NameTable(d.tables.Keys, m.tables, m.pinned, m.pending, m.nextFile, t);
    MoreTables(d.tables, m.tables, m.pending, m.compaction, t);
  }

  lemma NameTable(keys: set<nat>, tables: set<nat>, pinned: seq<set<nat>>, pending: set<nat>, next: nat, t: nat)
    requires FilesHold(keys, tables, pinned, pending, next) && t in keys && t < next
             && t !in LiveTables(tables, pinned, pending)
    ensures FilesHold(keys, tables + {t}, pinned, pending, next)
    ensures LiveTables(tables + {t}, pinned, pending) == LiveTables(tables, pinned, pending) + {t}
  {
    assert t !in pending;
  }

  lemma MoreTables(disk: map<nat, set<Entry>>, tables: set<nat>, pending: set<nat>, compaction: Option<Compaction>,
      t: nat)
    requires CompactionHolds(disk, tables, pending, compaction)
    ensures CompactionHolds(disk, tables + {t}, pending, compaction)
  {
    hide TableEntries;
  }

  // ------------------------------------------------------------------ deleting obsolete files

  lemma DoomedTable(keys: set<nat>, tables: set<nat>, pinned: seq<set<nat>>, pending: set<nat>, next: nat, t: nat)
    requires FilesHold(keys, tables, pinned, pending, next) && t !in LiveTables(tables, pinned, pending)
    ensures t !in tables && t !in pending && FilesHold(keys - {t}, tables, pinned, pending, next)
  {
    assert t !in tables + pending;
    forall v | v in pinned
      ensures v <= keys - {t}
    {
      assert t in v ==> t in LiveTables(tables, pinned, pending);
    }
  }

  lemma DeleteTableInv(st: State, st': State, number: nat)
    requires Inv(st) && st.process.Up? && UpStep(st, st', DeleteTable(number))
    ensures Inv(st')
  {
    hide DiskHolds, ContentHolds, FilesHold, TableEntries, LeaderHolds, LogHolds, LiveTables;
    var d, m := st.disk, st.process.memory;
    DoomedTable(d.tables.Keys, m.tables, m.pinned, m.pending, m.nextFile, number);
    OtherTable(d.tables, number, {}, m.tables);
    OtherTableDisk(d.logs, d.tables, d.manifest, st.durable, number, {});
    OtherTableCompaction(d.tables, m.tables, m.pending, m.compaction, number, {});
    hide CompactionHolds;
    assert (d.tables - {number}).Keys == d.tables.Keys - {number};
  }

  lemma DropLogDisk(logs: map<nat, seq<Record>>, tables: map<nat, set<Entry>>, mf: Manifest, durable: seq<Op>, n: nat)
    requires DiskHolds(logs, tables, mf, durable) && n < mf.logNumber
    ensures DiskHolds(logs - {n}, tables, mf, durable)
  {
    hide TableEntries, LogsFrom;
    DropOldLog(logs, n, mf.logNumber);
    forall l, r | l in logs - {n} && r in (logs - {n})[l]
      ensures 1 <= r.first && r.first + |r.ops| <= |durable| + 1
    {
      assert r in logs[l];
    }
  }

  lemma DeleteLogInv(st: State, st': State, number: nat)
    requires Inv(st) && st.process.Up? && UpStep(st, st', DeleteLog(number))
    ensures Inv(st')
  {
    hide DiskHolds, ContentHolds, FilesHold, CompactionHolds, TableEntries, LeaderHolds, LogEntries, LiveTables;
    DropLogDisk(st.disk.logs, st.disk.tables, st.disk.manifest, st.durable, number);
    assert (st.disk.logs - {number})[st.process.memory.logfile] == st.disk.logs[st.process.memory.logfile];
  }

  lemma DeletionDoneInv(st: State, st': State)
    requires Inv(st) && st.process.Up? && UpStep(st, st', DeletionDone)
    ensures Inv(st')
  {
    hide DiskHolds, ContentHolds, FilesHold, CompactionHolds, TableEntries, LeaderHolds, LogHolds, LiveTables;
  }

  // ------------------------------------------------------------------ compaction

  lemma StartCompactionInv(st: State, st': State, inputs: set<nat>)
    requires Inv(st) && st.process.Up? && UpStep(st, st', StartCompaction(inputs))
    ensures Inv(st')
  {
    hide DiskHolds, ContentHolds, FilesHold, CompactionHolds, TableEntries, LeaderHolds, LogHolds, LiveTables;
    Started(st.disk.tables, st.process.memory.tables, st.process.memory.pending, inputs);
  }

  lemma Started(disk: map<nat, set<Entry>>, tables: set<nat>, pending: set<nat>, inputs: set<nat>)
    requires inputs <= tables
    ensures CompactionHolds(disk, tables, pending, Some(Compaction(inputs, {})))
  {
    assert TableEntries(disk, {}) == {};
  }

  lemma WriteOutputCompaction(disk: map<nat, set<Entry>>, tables: set<nat>, pending: set<nat>, c: Compaction, next: nat,
      content: set<Entry>)
    requires CompactionHolds(disk, tables, pending, Some(c))
    requires next !in tables && next !in pending && content <= TableEntries(disk, c.inputs)
    ensures CompactionHolds(disk[next := content], tables, pending + {next}, Some(c.(outputs := c.outputs + {next})))
  {
    hide TableEntries;
    OtherTable(disk, next, content, c.inputs);
    OtherTable(disk, next, content, c.outputs);
    AddTable(disk[next := content], c.outputs, next);
  }

  lemma WriteOutputInv(st: State, st': State, content: set<Entry>)
    requires Inv(st) && st.process.Up? && UpStep(st, st', WriteOutput(content))
    ensures Inv(st')
  {
    hide DiskHolds, ContentHolds, FilesHold, CompactionHolds, TableEntries, LeaderHolds, LogEntries, LiveTables;
    var d, m := st.disk, st.process.memory;
    AllocateFiles(d.tables.Keys, m.tables, m.pinned, m.pending, m.nextFile);
    FilesBelow(d.tables.Keys, m.tables, m.pinned, m.pending, m.nextFile);
    OtherTable(d.tables, m.nextFile, content, m.tables);
    OtherTableDisk(d.logs, d.tables, d.manifest, st.durable, m.nextFile, content);
    WriteOutputCompaction(d.tables, m.tables, m.pending, m.compaction.value, m.nextFile, content);
    MoreKeys(d.tables.Keys, m.tables, m.pinned, m.pending + {m.nextFile}, m.nextFile + 1, m.nextFile);
    assert d.tables[m.nextFile := content].Keys == d.tables.Keys + {m.nextFile};
  }

  lemma MoreKeys(keys: set<nat>, tables: set<nat>, pinned: seq<set<nat>>, pending: set<nat>, next: nat, t: nat)
    requires FilesHold(keys, tables, pinned, pending, next)
    ensures FilesHold(keys + {t}, tables, pinned, pending, next)
  {
    hide LiveTables;
  }

  lemma PrepareInstallInv(st: State, st': State)
    requires Inv(st) && st.process.Up? && UpStep(st, st', PrepareInstall)
    ensures Inv(st')
  {
    hide DiskHolds, ContentHolds, FilesHold, TableEntries, LeaderHolds, LogEntries, LiveTables;
    var d, m := st.disk, st.process.memory;
    var c := m.compaction.value;
    ExchangeTables(d.tables, m.tables, c.inputs, c.outputs);
    ContentSequences(m.mem, m.imm, TableEntries(d.tables, m.tables), st.durable, m.lastSequence);
    FilesBelow(d.tables.Keys, m.tables, m.pinned, m.pending, m.nextFile);
  }

  lemma InstalledDisk(logs: map<nat, seq<Record>>, tables: map<nat, set<Entry>>, mf: Manifest, durable: seq<Op>,
      edit: Manifest, lastSequence: nat, nextFile: nat)
    requires DiskHolds(logs, tables, mf, durable) && lastSequence <= |durable|
    requires edit.logNumber == mf.logNumber && TableEntries(tables, edit.tables) == TableEntries(tables, mf.tables)
    requires EditWithin(tables, edit, lastSequence, nextFile)
    ensures DiskHolds(logs, tables, edit, durable)
  {
    hide TableEntries, LogsFrom, RecordsWithin;
  }

  lemma WriteInstallInv(st: State, st': State)
    requires Inv(st) && st.process.Up? && UpStep(st, st', WriteInstall)
    ensures Inv(st')
  {
    hide DiskHolds, ContentHolds, FilesHold, CompactionHolds, TableEntries, LogHolds, LiveTables, EditWithin;
    var d, m := st.disk, st.process.memory;
    InstalledDisk(d.logs, d.tables, d.manifest, st.durable, m.background.edit, m.lastSequence, m.nextFile);
  }

  lemma InstallNames(disk: map<nat, set<Entry>>, tables: set<nat>, pinned: seq<set<nat>>, pending: set<nat>, next: nat,
      c: Compaction)
    requires FilesHold(disk.Keys, tables, pinned, pending, next) && CompactionHolds(disk, tables, pending, Some(c))
    ensures FilesHold(disk.Keys, tables - c.inputs + c.outputs, pinned, pending - c.outputs, next)
    ensures CompactionHolds(disk, tables - c.inputs + c.outputs, pending - c.outputs, None)
  {
    hide TableEntries;
    var tables', pending' := tables - c.inputs + c.outputs, pending - c.outputs;
    forall t | t in LiveTables(tables', pinned, pending')
      ensures t < next
    {
      assert t in LiveTables(tables, pinned, pending);
    }
    forall v | v in pinned
      ensures v <= disk.Keys && v !! pending'
    {
    }
  }

  /** What has just been computed as obsolete is safe to delete. */
  lemma ObsoleteIsSafe(d: Disk, m: Memory)
    requires InStep(d.manifest, m.tables, m.logNumber)
    ensures var b := Deleting(ObsoleteTables(d, m), ObsoleteLogs(d, m.logNumber));
            BackgroundHolds(d.tables, d.manifest, m.tables, m.logNumber, LiveTables(m.tables, m.pinned, m.pending),
              m.pending, m.nextFile, m.imm, m.logfile, m.lastSequence, m.compaction, b)
  {
    hide LiveTables, TableEntries;
  }

  lemma InstallCompactionInv(st: State, st': State)
    requires Inv(st) && st.process.Up? && UpStep(st, st', InstallCompaction)
    ensures Inv(st')
  {
    hide DiskHolds, ContentHolds, FilesHold, CompactionHolds, TableEntries, LeaderHolds, LogHolds, LiveTables,
         EditWithin, ObsoleteTables, ObsoleteLogs;
    var d, m := st.disk, st.process.memory;
    InstallNames(d.tables, m.tables, m.pinned, m.pending, m.nextFile, m.compaction.value);
    assert InstallEdit(d.tables, m.tables, m.compaction, m.logNumber, m.background.edit)
           && d.manifest == m.background.edit;
    hide BackgroundHolds;
    ObsoleteIsSafe(d, m.(tables := m.background.edit.tables, pending := m.pending - m.compaction.value.outputs,
      compaction := None));
  }

  // ------------------------------------------------------------------ readers

  lemma PinInv(st: State, st': State)
    requires Inv(st) && st.process.Up? && UpStep(st, st', Pin)
    ensures Inv(st')
  {
    hide DiskHolds, ContentHolds, CompactionHolds, BackgroundHolds, TableEntries, LeaderHolds, LogHolds;
    var m := st.process.memory;
    PinnedAlready(m.tables, m.pinned, m.pending);
  }

  lemma PinnedAlready(tables: set<nat>, pinned: seq<set<nat>>, pending: set<nat>)
    ensures LiveTables(tables, pinned + [tables], pending) == LiveTables(tables, pinned, pending)
  {
  }

  lemma UnpinLive(keys: set<nat>, tables: set<nat>, pinned: seq<set<nat>>, pending: set<nat>, next: nat, i: nat)
    requires i < |pinned| && FilesHold(keys, tables, pinned, pending, next)
    ensures FilesHold(keys, tables, pinned[..i] + pinned[i + 1..], pending, next)
    ensures LiveTables(tables, pinned[..i] + pinned[i + 1..], pending) <= LiveTables(tables, pinned, pending)
  {
    var fewer := pinned[..i] + pinned[i + 1..];
    assert forall v :: v in fewer ==> v in pinned;
    var live := LiveTables(tables, fewer, pending);
    forall t | t in live
      ensures t in LiveTables(tables, pinned, pending)
    {
    }
  }

  /** Fewer live tables do not disturb the background thread. */
  lemma LessLive(disk: map<nat, set<Entry>>, mf: Manifest, m: Memory, live: set<nat>, live': set<nat>)
    requires BackgroundHolds(disk, mf, m.tables, m.logNumber, live, m.pending, m.nextFile, m.imm, m.logfile,
             m.lastSequence, m.compaction, m.background)
    requires live' <= live
    ensures BackgroundHolds(disk, mf, m.tables, m.logNumber, live', m.pending, m.nextFile, m.imm, m.logfile,
            m.lastSequence, m.compaction, m.background)
  {
    hide TableEntries, EditWithin, InstallEdit;
  }

  lemma UnpinInv(st: State, st': State, index: nat)
    requires Inv(st) && st.process.Up? && UpStep(st, st', Unpin(index))
    ensures Inv(st')
  {
    hide DiskHolds, ContentHolds, CompactionHolds, FilesHold, BackgroundHolds, TableEntries, LeaderHolds, LogHolds,
         LiveTables;
    var d, m, m' := st.disk, st.process.memory, st'.process.memory;
    UnpinLive(d.tables.Keys, m.tables, m.pinned, m.pending, m.nextFile, index);
    LessLive(d.tables, d.manifest, m, LiveTables(m.tables, m.pinned, m.pending),
      LiveTables(m'.tables, m'.pinned, m'.pending));
  }

  // ------------------------------------------------------------------ crash and recovery

  lemma CrashInv(st: State, st': State)
    requires Inv(st) && st.process.Up? && UpStep(st, st', Crash)
    ensures Inv(st')
  {
    hide DiskHolds, ContentHolds, FilesHold, CompactionHolds, BackgroundHolds, TableEntries, LogHolds, LiveTables;
    var m := st.process.memory;
    assert !m.leader.Logged? ==> st.durable[m.lastSequence..] == [];
  }

  lemma StartedRecovery(d: Disk, durable: seq<Op>, which: set<nat>, next: nat)
    requires DiskHolds(d.logs, d.tables, d.manifest, durable)
    requires which == set n | n in d.logs && n >= d.manifest.logNumber
    requires d.manifest.nextFile < next && d.manifest.logNumber < next
    ensures RecoveryHolds(d, Recovery(which, {}, d.manifest.tables, d.manifest.lastSequence, next, None), durable)
  {
    hide TableEntries, LogsFrom, LogsIn, LogEntries, Written, RecordsWithin;
    ReplayAll(d.logs, d.manifest.logNumber, which);
  }

  lemma StartRecoveryInv(st: State, st': State)
    requires Inv(st) && st.process.Down? && DownStep(st, st', StartRecovery)
    ensures Inv(st')
  {
    hide DiskHolds, RecoveryHolds, TableEntries;
    var d := st.disk;
    StartedRecovery(d, st.durable, st'.process.recovery.toReplay, st'.process.recovery.nextFile);
  }

  lemma ReplayAll(logs: map<nat, seq<Record>>, from: nat, which: set<nat>)
    requires which == set n | n in logs && n >= from
    ensures LogsIn(logs, which) == LogsFrom(logs, from)
  {
  }

  lemma ReplayTableHolds(d: Disk, r: Recovery, durable: seq<Op>, log: nat, content: set<Entry>)
    requires RecoveryHolds(d, r, durable) && log in r.toReplay && log in d.logs && content <= LogEntries(d.logs[log])
    ensures RecoveryHolds(d.(tables := d.tables[r.nextFile := content]),
                          r.(tables := r.tables + {r.nextFile}, replayed := r.replayed + content,
                            nextFile := r.nextFile + 1), durable)
  {
    OneOfLogs(d.logs, r.toReplay, log);
    hide TableEntries, LogsIn, LogEntries, Written;
    var tables' := d.tables[r.nextFile := content];
    OtherTable(d.tables, r.nextFile, content, r.tables);
    AddTable(tables', r.tables, r.nextFile);
  }

  lemma OneOfLogs(logs: map<nat, seq<Record>>, which: set<nat>, log: nat)
    requires log in which && log in logs
    ensures LogEntries(logs[log]) <= LogsIn(logs, which)
    ensures LogsIn(logs, which) == LogsIn(logs, which - {log}) + LogEntries(logs[log])
  {
    forall e | e in LogsIn(logs, which)
      ensures e in LogsIn(logs, which - {log}) + LogEntries(logs[log])
    {
      var n :| n in which && n in logs && e in LogEntries(logs[n]);
      if n != log {
        assert n in which - {log};
      }
    }
  }

  lemma ReplayTableInv(st: State, st': State, log: nat, content: set<Entry>)
    requires Inv(st) && st.process.Recovering? && RecoveryStep(st, st', ReplayTable(log, content))
    ensures Inv(st')
  {
    var d, r := st.disk, st.process.recovery;
    ReplayTableHolds(d, r, st.durable, log, content);
    assert r.nextFile !in d.manifest.tables;
    OtherTableDisk(d.logs, d.tables, d.manifest, st.durable, r.nextFile, content);
    hide DiskHolds, RecoveryHolds, TableEntries, LogEntries;
  }

  lemma LogReplayedHolds(d: Disk, r: Recovery, durable: seq<Op>, log: nat)
    requires RecoveryHolds(d, r, durable) && log in r.toReplay && RecordsWithin(d.logs, |durable|)
    requires LogEntries(d.logs[log]) <= r.replayed
    ensures RecoveryHolds(d, r.(toReplay := r.toReplay - {log},
            lastSequence := Max(r.lastSequence, LastLogged(d.logs[log])), nextFile := Max(r.nextFile, log + 1)),
              durable)
  {
    OneOfLogs(d.logs, r.toReplay, log);
    assert forall x :: x in d.logs[log] ==> 1 <= x.first && x.first + |x.ops| <= |durable| + 1;
    LastLoggedWithin(d.logs[log], |durable|);
    forall e | e in LogEntries(d.logs[log])
      ensures e.key.sequence <= LastLogged(d.logs[log])
    {
      LastLoggedBounds(d.logs[log], e);
    }
    hide RecordsWithin, TableEntries, LogEntries, LogsIn, Written, LastLogged;
  }

  lemma LogReplayedInv(st: State, st': State, log: nat)
    requires Inv(st) && st.process.Recovering? && RecoveryStep(st, st', LogReplayed(log))
    ensures Inv(st')
  {
    hide RecordsWithin, RecoveryHolds, TableEntries, LogEntries, LogsIn, Written, LastLogged;
    LogReplayedHolds(st.disk, st.process.recovery, st.durable, log);
  }

  lemma NewLogHolds(d: Disk, r: Recovery, durable: seq<Op>)
    requires RecoveryHolds(d, r, durable) && r.toReplay == {}
    ensures r.nextFile !in d.logs
    ensures RecoveryHolds(d.(logs := d.logs[r.nextFile := []]),
            r.(newLog := Some(r.nextFile), nextFile := r.nextFile + 1), durable)
  {
    assert LogsIn(d.logs[r.nextFile := []], {}) == LogsIn(d.logs, {});
    hide TableEntries, LogEntries, LogsIn, Written;
  }

  lemma NewLogInv(st: State, st': State)
    requires Inv(st) && st.process.Recovering? && RecoveryStep(st, st', NewLog)
    ensures Inv(st')
  {
    var d, r := st.disk, st.process.recovery;
    NewLogHolds(d, r, st.durable);
    hide DiskHolds, RecoveryHolds, TableEntries, LogEntries;
    SwitchDisk(d.logs, d.tables, d.manifest, st.durable, r.nextFile);
  }

  lemma RecoveredAll(d: Disk, r: Recovery, durable: seq<Op>)
    requires RecoveryHolds(d, r, durable) && r.newLog.Some?
    ensures TableEntries(d.tables, r.tables) == All(durable)
    ensures r.lastSequence == |durable|
    ensures forall e :: e in All(durable) ==> e.key.sequence <= r.lastSequence
  {
    assert LogsIn(d.logs, {}) == {};
    if |durable| > 0 {
      assert EntryOf(durable, |durable| - 1) in All(durable);
    }
  }

  lemma FinishedDisk(d: Disk, r: Recovery, durable: seq<Op>)
    requires DiskHolds(d.logs, d.tables, d.manifest, durable) && RecoveryHolds(d, r, durable) && r.newLog.Some?
    ensures DiskHolds(d.logs, d.tables, Manifest(r.newLog.value, r.lastSequence, r.tables, r.nextFile), durable)
  {
    RecoveredAll(d, r, durable);
    NewestLogOnly(d.logs, r.newLog.value);
    assert LogEntries([]) == {};
    hide TableEntries, LogEntries, LogsIn, LogsFrom, Written, RecordsWithin;
  }

  lemma FinishedContent(d: Disk, r: Recovery, durable: seq<Op>)
    requires RecoveryHolds(d, r, durable) && r.newLog.Some?
    ensures r.lastSequence == |durable|
    ensures ContentHolds({}, None, TableEntries(d.tables, r.tables), durable, r.lastSequence)
    ensures LogHolds(d.logs, r.newLog.value, {}, Idle, r.nextFile)
    ensures FilesHold(d.tables.Keys, r.tables, [], {}, r.nextFile)
  {
    RecoveredAll(d, r, durable);
    assert LogEntries([]) == {};
    hide TableEntries, LogEntries, LogsIn, Written;
  }

  lemma FinishRecoveryInv(st: State, st': State)
    requires Inv(st) && st.process.Recovering? && RecoveryStep(st, st', FinishRecovery)
    ensures Inv(st')
  {
    hide DiskHolds, RecoveryHolds, ContentHolds, LogHolds, FilesHold, TableEntries, LiveTables, LogEntries;
    var d, r := st.disk, st.process.recovery;
    FinishedDisk(d, r, st.durable);
    FinishedContent(d, r, st.durable);
  }

  lemma NextInv(st: State, st': State, step: Step)
    requires Inv(st) && NextStep(st, st', step)
    ensures Inv(st')
  {
    hide Inv, UpStep;
    if st.process.Up? {
      UpInv(st, st', step);
    } else if st.process.Recovering? {
      RecoveringInv(st, st', step);
    } else {
      assert step.StartRecovery?;
      StartRecoveryInv(st, st');
    }
  }

  lemma RecoveringInv(st: State, st': State, step: Step)
    requires Inv(st) && st.process.Recovering? && RecoveryStep(st, st', step)
    ensures Inv(st')
  {
    match step
    case ReplayTable(log, content) => ReplayTableInv(st, st', log, content);
    case LogReplayed(log) => LogReplayedInv(st, st', log);
    case NewLog => NewLogInv(st, st');
    case FinishRecovery => FinishRecoveryInv(st, st');
    case Crash =>
    case _ =>
  }

  lemma UpInv(st: State, st': State, step: Step)
    requires Inv(st) && st.process.Up? && UpStep(st, st', step)
    ensures Inv(st')
  {
    hide Inv;
    match step
    case BeginGroup(ops) => BeginGroupInv(st, st', ops);
    case AppendLog => AppendLogInv(st, st');
    case ApplyGroup => ApplyGroupInv(st, st');
    case SwitchMemtable => SwitchInv(st, st');
    case StartFlush => StartFlushInv(st, st');
    case BuildTable => BuildTableInv(st, st');
    case PrepareFlush => PrepareFlushInv(st, st');
    case WriteFlush => WriteFlushInv(st, st');
    case InstallFlush => InstallFlushInv(st, st');
    case DeleteTable(n) => DeleteTableInv(st, st', n);
    case DeleteLog(n) => DeleteLogInv(st, st', n);
    case DeletionDone => DeletionDoneInv(st, st');
    case StartCompaction(inputs) => StartCompactionInv(st, st', inputs);
    case WriteOutput(content) => WriteOutputInv(st, st', content);
    case PrepareInstall => PrepareInstallInv(st, st');
    case WriteInstall => WriteInstallInv(st, st');
    case InstallCompaction => InstallCompactionInv(st, st');
    case Pin => PinInv(st, st');
    case Unpin(i) => UnpinInv(st, st', i);
    case Crash => CrashInv(st, st');
    case _ =>
  }
}
