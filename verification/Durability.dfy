/** Crashes and recovery.  The disk holds log files, table files and a manifest; a process may die
    between any two steps.  What recovery rebuilds is exactly what was acknowledged, plus at most
    the one commit group that was in flight, whole or not at all.

    A log append is one step: a record cut short by a crash reads as absent (LogReader.ReadLog).
    Which entries compactions drop is a separate matter (CompactionMeaning); here a compaction moves
    entries between tables. */
module Durability {
  import opened Options
  import opened InternalKeys
  import opened History

  /** A commit group as logged: the sequence number of its first write, and its writes. */
  datatype Record = Record(first: nat, ops: seq<Op>)

  datatype Manifest = Manifest(logNumber: nat, lastSequence: nat, tables: set<nat>, nextFile: nat)

  datatype Disk = Disk(logs: map<nat, seq<Record>>, tables: map<nat, set<Entry>>, manifest: Manifest)

  /** The leader of a commit group: between groups, about to log, or logged but not yet applied. */
  datatype Leader = Idle | Logging(group: Record) | Logged(group: Record)

  datatype Compaction = Compaction(inputs: set<nat>, outputs: set<nat>)

  /** Where the single background thread stands.  The mutex is released while a table is built,
      while the manifest is written, and while files are deleted. */
  datatype Background =
    | Free
    | Building(table: nat)
    | Built(table: nat)
    | WritingFlush(table: nat, edit: Manifest)
    | WroteFlush(table: nat, edit: Manifest)
    | WritingInstall(edit: Manifest)
    | WroteInstall(edit: Manifest)
    | Deleting(tables: set<nat>, logs: set<nat>)

  datatype Memory = Memory(
    mem: set<Entry>,
    imm: Option<set<Entry>>,
    lastSequence: nat,
    logfile: nat,
    logNumber: nat,
    tables: set<nat>,
    pinned: seq<set<nat>>,
    pending: set<nat>,
    nextFile: nat,
    leader: Leader,
    background: Background,
    compaction: Option<Compaction>)

  /** A recovery in progress: logs still to replay, what has been replayed of the current one, the
      tables of the version being rebuilt. */
  datatype Recovery = Recovery(toReplay: set<nat>, replayed: set<Entry>, tables: set<nat>, lastSequence: nat,
    nextFile: nat, newLog: Option<nat>)

  datatype Process = Down | Recovering(recovery: Recovery) | Up(memory: Memory)

  /** `durable` lists all writes that have reached a log, in order; `acked` counts those whose
      callers have been told; `inFlight` is the group a crash interrupted. */
  datatype State = State(disk: Disk, process: Process, durable: seq<Op>, acked: nat, inFlight: Option<Record>)

  // ------------------------------------------------------------------ contents

  function Stamp(op: Op, sequence: nat): Entry {
    match op
    case Put(u, value) => Entry(InternalKey(u, sequence, TYPE_VALUE), value)
    case Delete(u) => Entry(InternalKey(u, sequence, TYPE_DELETION), [])
  }

  ghost function Entries(r: Record): set<Entry>
    decreases |r.ops|
  {
    if r.ops == [] then {}
    else Entries(Record(r.first, r.ops[..|r.ops| - 1])) + {Stamp(r.ops[|r.ops| - 1], r.first + |r.ops| - 1)}
  }

  ghost function LogEntries(rs: seq<Record>): set<Entry> {
    if rs == [] then {} else LogEntries(rs[..|rs| - 1]) + Entries(rs[|rs| - 1])
  }

  ghost function LogsFrom(logs: map<nat, seq<Record>>, from: nat): set<Entry> {
    set n, e | n in logs && n >= from && e in LogEntries(logs[n]) :: e
  }

  ghost function TableEntries(tables: map<nat, set<Entry>>, which: set<nat>): set<Entry> {
    set t, e | t in which && t in tables && e in tables[t] :: e
  }

  ghost function All(durable: seq<Op>): set<Entry> {
    Written(durable, 0, |durable|)
  }

  /** Everything a running process can read. */
  ghost function Stored(disk: Disk, m: Memory): set<Entry> {
    m.mem + (if m.imm.Some? then m.imm.value else {}) + TableEntries(disk.tables, m.tables)
  }

  /** Tables named by the current version, by versions that readers hold, or being written. */
  ghost function LiveTables(tables: set<nat>, pinned: seq<set<nat>>, pending: set<nat>): set<nat> {
    tables + pending + set v, t | v in pinned && t in v :: t
  }

  function Max(a: nat, b: nat): nat {
    if a < b then b else a
  }

  // ------------------------------------------------------------------ steps

  datatype Step =
    | BeginGroup(ops: seq<Op>)
    | AppendLog
    | ApplyGroup
    | SwitchMemtable
    | StartFlush
    | BuildTable
    | PrepareFlush
    | WriteFlush
    | InstallFlush
    | DeleteTable(number: nat)
    | DeleteLog(number: nat)
    | DeletionDone
    | StartCompaction(inputs: set<nat>)
    | WriteOutput(content: set<Entry>)
    | PrepareInstall
    | WriteInstall
    | InstallCompaction
    | Pin
    | Unpin(index: nat)
    | Crash
    | StartRecovery
    | ReplayTable(log: nat, content: set<Entry>)
    | LogReplayed(log: nat)
    | NewLog
    | FinishRecovery

  /** Obsolete files: tables no version or pending output needs, logs older than the version's. */
  ghost function ObsoleteTables(disk: Disk, m: Memory): set<nat> {
    disk.tables.Keys - LiveTables(m.tables, m.pinned, m.pending)
  }

  ghost function ObsoleteLogs(disk: Disk, logNumber: nat): set<nat> {
    set n | n in disk.logs && n < logNumber
  }

  ghost predicate UpStep(st: State, st': State, step: Step)
    requires st.process.Up?
  {
    var d, m := st.disk, st.process.memory;
    match step
    case BeginGroup(ops) =>
      && m.leader.Idle?
      && st' == st.(process := Up(m.(leader := Logging(Record(m.lastSequence + 1, ops)))))
    case AppendLog =>
      && m.leader.Logging? && m.logfile in d.logs
      && st' == st.(disk := d.(logs := d.logs[m.logfile := d.logs[m.logfile] + [m.leader.group]]),
                    durable := st.durable + m.leader.group.ops,
                    process := Up(m.(leader := Logged(m.leader.group))))
    case ApplyGroup =>
      && m.leader.Logged?
      && var last := m.lastSequence + |m.leader.group.ops|;
      && st' == st.(acked := last,
                    process := Up(m.(mem := m.mem + Entries(m.leader.group), lastSequence := last, leader := Idle)))
    case SwitchMemtable =>
      // Done by the leader before it logs
      && m.leader.Idle? && m.imm.None?
      && st' == st.(disk := d.(logs := d.logs[m.nextFile := []]),
                    process := Up(m.(mem := {}, imm := Some(m.mem), logfile := m.nextFile, nextFile := m.nextFile + 1)))
    case StartFlush =>
      && m.background.Free? && m.imm.Some?
      && st' == st.(process := Up(m.(background := Building(m.nextFile), pending := m.pending + {m.nextFile},
         nextFile := m.nextFile + 1)))
    case BuildTable =>
      // The table leaves pending outputs before the manifest names it
      && m.background.Building? && m.imm.Some?
      && st' == st.(disk := d.(tables := d.tables[m.background.table := m.imm.value]),
                    process := Up(m.(background := Built(m.background.table),
                      pending := m.pending - {m.background.table})))
    case PrepareFlush =>
      && m.background.Built?
      && var edit := Manifest(m.logfile, m.lastSequence, m.tables + {m.background.table}, m.nextFile);
      && st' == st.(process := Up(m.(background := WritingFlush(m.background.table, edit))))
    case WriteFlush =>
      && m.background.WritingFlush?
      && st' == st.(disk := d.(manifest := m.background.edit),
                    process := Up(m.(background := WroteFlush(m.background.table, m.background.edit))))
    case InstallFlush =>
      && m.background.WroteFlush?
      && var m1 := m.(tables := m.background.edit.tables, logNumber := m.background.edit.logNumber, imm := None);
      && st' == st.(process := Up(m1.(background := Deleting(ObsoleteTables(d, m1), ObsoleteLogs(d, m1.logNumber)))))
    case DeleteTable(number) =>
      && m.background.Deleting? && number in m.background.tables
      && st' == st.(disk := d.(tables := d.tables - {number}),
                    process := Up(m.(background := m.background.(tables := m.background.tables - {number}))))
    case DeleteLog(number) =>
      && m.background.Deleting? && number in m.background.logs
      && st' == st.(disk := d.(logs := d.logs - {number}),
                    process := Up(m.(background := m.background.(logs := m.background.logs - {number}))))
    case DeletionDone =>
      && m.background.Deleting? && m.background.tables == {} && m.background.logs == {}
      && st' == st.(process := Up(m.(background := Free)))
    case StartCompaction(inputs) =>
      && m.background.Free? && m.compaction.None? && inputs <= m.tables
      && st' == st.(process := Up(m.(compaction := Some(Compaction(inputs, {})))))
    case WriteOutput(content) =>
      && m.background.Free? && m.compaction.Some?
      && content <= TableEntries(d.tables, m.compaction.value.inputs)
      && st' == st.(disk := d.(tables := d.tables[m.nextFile := content]),
                    process := Up(m.(pending := m.pending + {m.nextFile}, nextFile := m.nextFile + 1,
                                     compaction := Some(m.compaction.value.(outputs := m.compaction.value.outputs
                                       + {m.nextFile})))))
    case PrepareInstall =>
      && m.background.Free? && m.compaction.Some?
      && var c := m.compaction.value;
      && TableEntries(d.tables, c.inputs) <= TableEntries(d.tables, c.outputs)
      && var edit := Manifest(m.logNumber, m.lastSequence, m.tables - c.inputs + c.outputs, m.nextFile);
      && st' == st.(process := Up(m.(background := WritingInstall(edit))))
    case WriteInstall =>
      && m.background.WritingInstall?
      && st' == st.(disk := d.(manifest := m.background.edit),
         process := Up(m.(background := WroteInstall(m.background.edit))))
    case InstallCompaction =>
      && m.background.WroteInstall? && m.compaction.Some?
      && var m1 := m.(tables := m.background.edit.tables, pending := m.pending - m.compaction.value.outputs,
         compaction := None);
      && st' == st.(process := Up(m1.(background := Deleting(ObsoleteTables(d, m1), ObsoleteLogs(d, m1.logNumber)))))
    case Pin =>
      // A reader takes a reference to the current version
      st' == st.(process := Up(m.(pinned := m.pinned + [m.tables])))
    case Unpin(index) =>
      && index < |m.pinned|
      && st' == st.(process := Up(m.(pinned := m.pinned[..index] + m.pinned[index + 1..])))
    case Crash =>
      st' == st.(process := Down, inFlight := if m.leader.Idle? then None else Some(m.leader.group))
    case _ => false
  }

  ghost predicate RecoveryStep(st: State, st': State, step: Step)
    requires st.process.Recovering?
  {
    var d, r := st.disk, st.process.recovery;
    match step
    case ReplayTable(log, content) =>
      // A memtable's worth of the log, written out as a table
      && log in r.toReplay && log in d.logs && content <= LogEntries(d.logs[log])
      && st' == st.(disk := d.(tables := d.tables[r.nextFile := content]),
                    process := Recovering(r.(tables := r.tables + {r.nextFile}, replayed := r.replayed + content,
                      nextFile := r.nextFile + 1)))
    case LogReplayed(log) =>
      && log in r.toReplay && log in d.logs && LogEntries(d.logs[log]) <= r.replayed
      && st' == st.(process := Recovering(r.(toReplay := r.toReplay - {log},
                                             lastSequence := Max(r.lastSequence, LastLogged(d.logs[log])),
                                             nextFile := Max(r.nextFile, log + 1))))
    case NewLog =>
      && r.toReplay == {} && r.newLog.None?
      && st' == st.(disk := d.(logs := d.logs[r.nextFile := []]),
                    process := Recovering(r.(newLog := Some(r.nextFile), nextFile := r.nextFile + 1)))
    case FinishRecovery =>
      && r.newLog.Some?
      && var d1 := d.(manifest := Manifest(r.newLog.value, r.lastSequence, r.tables, r.nextFile));
      && var m := Memory({}, None, r.lastSequence, r.newLog.value, r.newLog.value, r.tables, [], {}, r.nextFile, Idle,
         Free, None);
      && st' == st.(disk := d1, acked := |st.durable|, inFlight := None,
                    process := Up(m.(background := Deleting(ObsoleteTables(d1, m), ObsoleteLogs(d1, m.logNumber)))))
    case Crash =>
      st' == st.(process := Down)
    case _ => false
  }

  /** The last sequence number of the records in a log. */
  function LastLogged(rs: seq<Record>): nat {
    if rs == [] then 0
    else
      var r := rs[|rs| - 1];
      Max(LastLogged(rs[..|rs| - 1]), if r.first + |r.ops| == 0 then 0 else r.first + |r.ops| - 1)
  }

  ghost predicate DownStep(st: State, st': State, step: Step) {
    var d := st.disk;
    match step
    case StartRecovery =>
      // Refused if a table named by the manifest is missing
      && d.manifest.tables <= d.tables.Keys
      && st' == st.(process := Recovering(Recovery(
                      set n | n in d.logs && n >= d.manifest.logNumber, {}, d.manifest.tables, d.manifest.lastSequence,
                      Max(d.manifest.nextFile + 1, d.manifest.logNumber + 1), None)))
    case _ => false
  }

  ghost predicate NextStep(st: State, st': State, step: Step) {
    match st.process
    case Down => DownStep(st, st', step)
    case Recovering(_) => RecoveryStep(st, st', step)
    case Up(_) => UpStep(st, st', step)
  }

  /** A freshly created database, not yet opened: an empty manifest and no other files. */
  ghost predicate Init(st: State) {
    && st.disk == Disk(map[], map[], Manifest(0, 0, {}, 2))
    && st.process == Down && st.durable == [] && st.acked == 0 && st.inFlight == None
  }
}
