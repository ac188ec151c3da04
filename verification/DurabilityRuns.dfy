/** What crashes and recoveries cannot do, over whole runs of the machine in Durability. */
module DurabilityRuns {
  import opened Options
  import opened InternalKeys
  import opened Reads
  import opened History
  import opened Durability
  import opened DurabilityProof

  /** Steps taken one after another, from any state. */
  ghost predicate IsPath(path: seq<State>, moves: seq<Step>) {
    && |path| == |moves| + 1
    && forall i: nat, next: nat :: i < |moves| && next == i + 1 ==> NextStep(path[i], path[next], moves[i])
  }

  /** A run from a freshly created database; crashes and recoveries are steps like any other. */
  ghost predicate IsRun(states: seq<State>, steps: seq<Step>) {
    IsPath(states, steps) && Init(states[0])
  }

  lemma {:induction false} RunInv(states: seq<State>, steps: seq<Step>, i: nat)
    requires IsRun(states, steps) && i < |states|
    ensures Inv(states[i])
  {
    hide Inv, NextStep;
    if i == 0 {
      InitInv(states[0]);
    } else {
      RunInv(states, steps, i - 1);
      NextInv(states[i - 1], states[i], steps[i - 1]);
    }
  }

  // ------------------------------------------------------------------ what a process can read

  lemma UpContent(st: State)
    requires Inv(st) && st.process.Up?
    ensures var m := st.process.memory; st.acked == m.lastSequence <= |st.durable|
                                        && Stored(st.disk, m) == Written(st.durable, 0, m.lastSequence)
  {
    hide DiskHolds, FilesHold, CompactionHolds, BackgroundHolds, LogHolds, TableEntries;
  }

  /** Every read of an open database, at any snapshot it may hold, returns what the writes
      acknowledged so far mean there, however many crashes came before. */
  lemma ReadsAcknowledged(states: seq<State>, steps: seq<Step>, i: nat, u: UserKey, s: nat)
    requires IsRun(states, steps) && i < |states| && states[i].process.Up?
    requires s <= states[i].acked
    ensures states[i].acked <= |states[i].durable|
    ensures ReadAt(Stored(states[i].disk, states[i].process.memory), u, s) == Meaning(states[i].durable, s, u)
  {
    hide IsRun, Inv, Stored;
    var st := states[i];
    RunInv(states, steps, i);
    UpContent(st);
    WrittenReads(st.durable, st.process.memory.lastSequence, u, s);
  }

  lemma WrittenReads(h: seq<Op>, n: nat, u: UserKey, s: nat)
    requires n <= |h|
    ensures ReadAt(Written(h, 0, n), u, s) == Meaning(h, Min(s, n), u)
  {
    ReadAtInvisible({}, u, s);
    ReadAfterMore({}, h, 0, n, u, s);
    assert {} + Written(h, 0, n) == Written(h, 0, n);
  }

  // ------------------------------------------------------------------ nothing acknowledged is lost

  /** One step only adds to the logged writes and to those acknowledged. */
  lemma StepGrows(st: State, st': State, step: Step)
    requires Inv(st) && NextStep(st, st', step)
    ensures st.durable <= st'.durable && st.acked <= st'.acked
    ensures !step.AppendLog? ==> st'.durable == st.durable
  {
    hide DiskHolds, ContentHolds, FilesHold, CompactionHolds, BackgroundHolds, LogHolds, TableEntries, RecoveryHolds,
         LiveTables;
  }

  lemma {:induction false} NothingLost(states: seq<State>, steps: seq<Step>, i: nat, j: nat)
    requires IsRun(states, steps) && i <= j < |states|
    ensures states[i].durable <= states[j].durable && states[i].acked <= states[j].acked <= |states[j].durable|
  {
    hide Inv, NextStep;
    RunInv(states, steps, j);
    AckedWithin(states[j]);
    if i < j {
      NothingLost(states, steps, i, j - 1);
      RunInv(states, steps, j - 1);
      StepGrows(states[j - 1], states[j], steps[j - 1]);
    }
  }

  lemma AckedWithin(st: State)
    requires Inv(st)
    ensures st.acked <= |st.durable|
  {
    hide DiskHolds, ContentHolds, FilesHold, CompactionHolds, BackgroundHolds, LogHolds, RecoveryHolds;
  }

  /** While a database is closed or recovering, no write becomes durable. */
  lemma {:induction false} ClosedFor(states: seq<State>, steps: seq<Step>, i: nat, j: nat)
    requires IsRun(states, steps) && i < j < |states|
    requires forall k :: i < k < j ==> !states[k].process.Up?
    requires steps[i].Crash?
    ensures states[j].durable == states[i].durable
  {
    hide Inv;
    RunInv(states, steps, j - 1);
    StepGrows(states[j - 1], states[j], steps[j - 1]);
    if j > i + 1 {
      ClosedFor(states, steps, i, j - 1);
      assert NextStep(states[j - 1], states[j], steps[j - 1]);
    }
  }

  /** The writes a crash leaves behind: those acknowledged, then nothing or the whole group the
      leader was committing. */
  ghost predicate AckedThenGroup(h: seq<Op>, before: State)
    requires before.process.Up? && before.acked <= |before.durable|
  {
    var acked := before.durable[..before.acked];
    h == acked || (!before.process.memory.leader.Idle? && h == acked + before.process.memory.leader.group.ops)
  }

  lemma CrashLeaves(st: State)
    requires Inv(st) && st.process.Up? && st.acked <= |st.durable|
    ensures AckedThenGroup(st.durable, st)
  {
    hide DiskHolds, ContentHolds, FilesHold, CompactionHolds, BackgroundHolds, LogHolds;
    assert st.durable == st.durable[..st.acked] + st.durable[st.acked..];
  }

  /** The durability theorem.  A process dies at step i and the next one finishes recovery at j,
      after any number of failed attempts: the database then holds exactly what was acknowledged,
      plus all or none of the one group in flight, and has acknowledged exactly that. */
  lemma RecoveredExactly(states: seq<State>, steps: seq<Step>, i: nat, j: nat)
    requires IsRun(states, steps) && i < j < |states|
    requires states[i].process.Up? && steps[i].Crash?
    requires states[j].process.Up? && forall k :: i < k < j ==> !states[k].process.Up?
    ensures states[i].acked <= |states[i].durable| && AckedThenGroup(states[j].durable, states[i])
    ensures states[j].process.memory.lastSequence == states[j].acked == |states[j].durable|
    ensures Stored(states[j].disk, states[j].process.memory) == All(states[j].durable)
  {
    hide Inv, Stored, AckedThenGroup;
    RunInv(states, steps, i);
    AckedWithin(states[i]);
    CrashLeaves(states[i]);
    ClosedFor(states, steps, i, j);
    RunInv(states, steps, j);
    UpContent(states[j]);
    assert NextStep(states[j - 1], states[j], steps[j - 1]);
    OpenedFresh(states[j - 1], states[j], steps[j - 1], i + 1 == j);
  }

  lemma OpenedFresh(st: State, st': State, step: Step, crashed: bool)
    requires NextStep(st, st', step) && st'.process.Up?
    requires crashed ==> step.Crash? && st.process.Up?
    requires !crashed ==> !st.process.Up?
    ensures st'.acked == |st'.durable|
  {
  }

  // ------------------------------------------------------------------ sequence numbers

  /** A group begins with the number after every write ever logged. */
  lemma GroupStarts(st: State)
    requires Inv(st) && st.process.Up? && st.process.memory.leader.Logging?
    ensures st.process.memory.leader.group.first == |st.durable| + 1
  {
    hide DiskHolds, ContentHolds, FilesHold, CompactionHolds, BackgroundHolds, LogHolds;
  }

  /** No sequence number is given out twice: of any two groups that reached a log, the earlier
      one's numbers all precede the later one's, whatever crashes lie between. */
  lemma NumbersNeverReused(states: seq<State>, steps: seq<Step>, i: nat, j: nat)
    requires IsRun(states, steps) && i < j < |steps|
    requires steps[i].AppendLog? && steps[j].AppendLog?
    ensures states[i].process.Up? && states[i].process.memory.leader.Logging?
    ensures states[j].process.Up? && states[j].process.memory.leader.Logging?
    ensures var g, g' := states[i].process.memory.leader.group,
            states[j].process.memory.leader.group; g.first + |g.ops| <= g'.first
  {
    hide Inv;
    assert NextStep(states[i], states[i + 1], steps[i]) && NextStep(states[j], states[j + 1], steps[j]);
    RunInv(states, steps, i);
    RunInv(states, steps, j);
    GroupStarts(states[i]);
    GroupStarts(states[j]);
    NothingLost(states, steps, i + 1, j);
  }

  // ------------------------------------------------------------------ file removal

  /** A table about to be removed is named by no version in use, not by the manifest, and is not
      being written. */
  lemma RemovedTableUnused(states: seq<State>, steps: seq<Step>, i: nat)
    requires IsRun(states, steps) && i < |steps| && steps[i].DeleteTable?
    ensures states[i].process.Up?
    ensures var st, t := states[i], steps[i].number; var m := st.process.memory;
            t !in LiveTables(m.tables, m.pinned, m.pending) && t !in st.disk.manifest.tables
  {
    hide Inv, LiveTables;
    assert NextStep(states[i], states[i + 1], steps[i]);
    RunInv(states, steps, i);
    DoomedUnused(states[i]);
    DoomedNamed(states[i], steps[i].number);
  }

  lemma DoomedUnused(st: State)
    requires Inv(st) && st.process.Up? && st.process.memory.background.Deleting?
    ensures var m := st.process.memory;
            m.background.tables !! LiveTables(m.tables, m.pinned, m.pending)
              && InStep(st.disk.manifest, m.tables, m.logNumber)
    ensures forall n :: n in st.process.memory.background.logs ==>
              n < st.disk.manifest.logNumber && n < st.process.memory.logfile
  {
    hide DiskHolds, ContentHolds, FilesHold, CompactionHolds, LogHolds, LiveTables, LeaderHolds;
  }

  lemma DoomedNamed(st: State, t: nat)
    requires st.process.Up? && st.process.memory.background.Deleting?
    requires var m := st.process.memory;
             t !in LiveTables(m.tables, m.pinned, m.pending) && InStep(st.disk.manifest, m.tables, m.logNumber)
    ensures t !in st.disk.manifest.tables
  {
    var m := st.process.memory;
    assert t !in m.tables + m.pending;
  }

  /** Every write in a log about to be removed is also in a table the manifest names or in a log
      that stays. */
  lemma RemovedLogFlushed(states: seq<State>, steps: seq<Step>, i: nat)
    requires IsRun(states, steps) && i < |steps| && steps[i].DeleteLog?
    ensures states[i].process.Up? && steps[i].number < states[i].process.memory.logfile
    ensures var d := states[i].disk; steps[i].number in d.logs ==>
            LogEntries(d.logs[steps[i].number]) <= TableEntries(d.tables, d.manifest.tables)
              + LogsFrom(d.logs - {steps[i].number}, d.manifest.logNumber)
  {
    hide Inv, LogsFrom, TableEntries, LogEntries;
    assert NextStep(states[i], states[i + 1], steps[i]);
    var d, n, h := states[i].disk, steps[i].number, states[i].durable;
    RunInv(states, steps, i);
    DoomedUnused(states[i]);
    DropOldLog(d.logs, n, d.manifest.logNumber);
    if n in d.logs {
      DiskHoldsAll(states[i]);
      forall e | e in LogEntries(d.logs[n])
        ensures e in All(h)
      {
        LoggedIsDurable(states, steps, i, n, e);
      }
    }
  }

  // ------------------------------------------------------------------ nothing is left lying about

  /** A table that neither the version, nor one a reader holds, nor a file being written needs. */
  ghost predicate UnneededTable(d: Disk, m: Memory, t: nat) {
    t in d.tables && t !in m.tables && t !in m.pending && forall v :: v in m.pinned ==> t !in v
  }

  /** A log whose writes are all in tables. */
  ghost predicate UnneededLog(d: Disk, m: Memory, n: nat) {
    n in d.logs && n < m.logNumber
  }

  /** The steps after which files are removed. */
  predicate StartsRemoval(step: Step) {
    step.InstallFlush? || step.InstallCompaction? || step.FinishRecovery?
  }

  /** As soon as a new version is in place, every file that nothing needs is marked for removal. */
  lemma UnneededAreMarked(st: State, st': State, step: Step)
    requires NextStep(st, st', step) && StartsRemoval(step)
    ensures st'.process.Up? && st'.process.memory.background.Deleting?
    ensures var d, m := st'.disk, st'.process.memory;
            && (forall t :: UnneededTable(d, m, t) ==> t in m.background.tables)
            && (forall n :: UnneededLog(d, m, n) ==> n in m.background.logs)
  {
  }

  /** While files are removed, no table appears, and no log but the next one. */
  lemma RemovalGoesOn(st: State, st': State, step: Step)
    requires Inv(st) && NextStep(st, st', step) && st.process.Up? && st.process.memory.background.Deleting?
    requires !step.DeletionDone? && !step.Crash?
    ensures st'.process.Up? && st'.process.memory.background.Deleting?
    ensures forall t :: t in st'.disk.tables ==> t in st.disk.tables
                                                 && (t in st.process.memory.background.tables ==>
                                                       t in st'.process.memory.background.tables)
    ensures forall n :: n in st'.disk.logs && n < st.process.memory.nextFile ==>
              n in st.disk.logs
              && (n in st.process.memory.background.logs ==> n in st'.process.memory.background.logs)
    ensures st.process.memory.nextFile <= st'.process.memory.nextFile
  {
    hide Inv, LogEntries, Entries, ObsoleteTables, ObsoleteLogs, TableEntries;
  }

  lemma {:induction false} StillMarked(states: seq<State>, steps: seq<Step>, i: nat, j: nat)
    requires IsRun(states, steps) && i < j <= |steps| && StartsRemoval(steps[i])
    requires forall k :: i < k < j ==> !steps[k].DeletionDone? && !steps[k].Crash?
    ensures states[i + 1].process.Up? && states[j].process.Up? && states[j].process.memory.background.Deleting?
    ensures states[i + 1].process.memory.nextFile <= states[j].process.memory.nextFile
    ensures var d, m := states[i + 1].disk, states[i + 1].process.memory;
            && (forall t :: UnneededTable(d, m, t) && t in states[j].disk.tables ==>
                  t in states[j].process.memory.background.tables)
            && (forall n :: UnneededLog(d, m, n) && n in states[j].disk.logs ==>
                  n in states[j].process.memory.background.logs)
  {
    hide Inv, NextStep, UnneededTable;
    assert NextStep(states[i], states[i + 1], steps[i]);
    UnneededAreMarked(states[i], states[i + 1], steps[i]);
    if j > i + 1 {
      StillMarked(states, steps, i, j - 1);
      RunInv(states, steps, j - 1);
      RunInv(states, steps, i + 1);
      NewestLogNumber(states[i + 1]);
      assert NextStep(states[j - 1], states[j], steps[j - 1]);
      RemovalGoesOn(states[j - 1], states[j], steps[j - 1]);
    }
  }

  lemma NewestLogNumber(st: State)
    requires Inv(st) && st.process.Up?
    ensures st.process.memory.logNumber < st.process.memory.nextFile
  {
    hide DiskHolds, ContentHolds, FilesHold, CompactionHolds, BackgroundHolds, LogEntries, LeaderHolds;
  }

  /** When removal ends, every file that was unneeded when it began is gone. */
  lemma UnneededAreRemoved(states: seq<State>, steps: seq<Step>, i: nat, j: nat)
    requires IsRun(states, steps) && i < j < |steps| && StartsRemoval(steps[i]) && steps[j].DeletionDone?
    requires forall k :: i < k < j ==> !steps[k].DeletionDone? && !steps[k].Crash?
    ensures states[i + 1].process.Up?
    ensures var d, m := states[i + 1].disk, states[i + 1].process.memory;
            && (forall t :: UnneededTable(d, m, t) ==> t !in states[j + 1].disk.tables)
            && (forall n :: UnneededLog(d, m, n) ==> n !in states[j + 1].disk.logs)
  {
    hide Inv, UnneededTable, UnneededLog;
    StillMarked(states, steps, i, j);
    assert NextStep(states[j], states[j + 1], steps[j]);
  }

  lemma PathFrom(st: State, step: Step, path: seq<State>, moves: seq<Step>)
    requires IsPath(path, moves) && NextStep(st, path[0], step)
    ensures IsPath([st] + path, [step] + moves)
  {
    hide NextStep;
  }

  /** Removal takes one step a file and one to end, and nothing can hold it up. */
  lemma {:induction false} RemovalCanEnd(st: State) returns (path: seq<State>, moves: seq<Step>)
    requires st.process.Up? && st.process.memory.background.Deleting?
    ensures IsPath(path, moves) && path[0] == st
    ensures path[|moves|].process.Up?
    ensures path[|moves|].process.memory.(background := Free) == st.process.memory.(background := Free)
    ensures path[|moves|].process.memory.background.Free?
    ensures var b := st.process.memory.background; |moves| == |b.tables| + |b.logs| + 1
    decreases |st.process.memory.background.tables| + |st.process.memory.background.logs|
  {
    hide IsPath;
    var d, m := st.disk, st.process.memory;
    var b := m.background;
    var step, st';
    if t :| t in b.tables {
      step := DeleteTable(t);
      st' := st.(disk := d.(tables := d.tables - {t}),
                 process := Up(m.(background := b.(tables := b.tables - {t}))));
      path, moves := RemovalCanEnd(st');
    } else if n :| n in b.logs {
      step := DeleteLog(n);
      st' := st.(disk := d.(logs := d.logs - {n}), process := Up(m.(background := b.(logs := b.logs - {n}))));
      path, moves := RemovalCanEnd(st');
    } else {
      step, st' := DeletionDone, st.(process := Up(m.(background := Free)));
      path, moves := [st'], [];
      assert IsPath(path, moves) by { NoMoves(st'); }
    }
    assert NextStep(st, st', step);
    PathFrom(st, step, path, moves);
    NonEmpty(path, moves);
    path, moves := [st] + path, [step] + moves;
  }

  lemma NoMoves(st: State)
    ensures IsPath([st], [])
  {
  }

  lemma NonEmpty(path: seq<State>, moves: seq<Step>)
    requires IsPath(path, moves)
    ensures |path| == |moves| + 1
  {
  }

  /** A memtable that waits to be flushed can be: its table is built, named by the manifest and installed,
      and then files are removed. */
  lemma FlushCanFinish(st: State) returns (path: seq<State>, moves: seq<Step>)
    requires st.process.Up? && st.process.memory.background.Free? && st.process.memory.imm.Some?
    ensures IsPath(path, moves) && path[0] == st
    ensures var last := path[|moves|];
            last.process.Up? && last.process.memory.background.Free? && last.process.memory.imm.None?
  {
    hide IsPath, ObsoleteTables, ObsoleteLogs;
    var d, m := st.disk, st.process.memory;
    var t := m.nextFile;
    var m1 := m.(background := Building(t), pending := m.pending + {t}, nextFile := t + 1);
    var st1 := st.(process := Up(m1));
    var m2 := m1.(background := Built(t), pending := m1.pending - {t});
    var st2 := st1.(disk := d.(tables := d.tables[t := m.imm.value]), process := Up(m2));
    var edit := Manifest(m2.logfile, m2.lastSequence, m2.tables + {t}, m2.nextFile);
    var st3 := st2.(process := Up(m2.(background := WritingFlush(t, edit))));
    var m4 := m2.(background := WroteFlush(t, edit));
    var st4 := st3.(disk := st3.disk.(manifest := edit), process := Up(m4));
    var m5 := m4.(tables := edit.tables, logNumber := edit.logNumber, imm := None);
    var st5 := st4.(process := Up(m5.(background := Deleting(ObsoleteTables(st4.disk, m5),
                                                             ObsoleteLogs(st4.disk, m5.logNumber)))));
    path, moves := RemovalCanEnd(st5);
    assert NextStep(st4, st5, InstallFlush);
    path, moves := Prepended(st4, InstallFlush, path, moves);
    assert NextStep(st3, st4, WriteFlush);
    path, moves := Prepended(st3, WriteFlush, path, moves);
    assert NextStep(st2, st3, PrepareFlush);
    path, moves := Prepended(st2, PrepareFlush, path, moves);
    assert NextStep(st1, st2, BuildTable);
    path, moves := Prepended(st1, BuildTable, path, moves);
    assert NextStep(st, st1, StartFlush);
    path, moves := Prepended(st, StartFlush, path, moves);
  }

  /** A compaction under way can be written and installed, and then its inputs leave the version. */
  lemma CompactionCanFinish(st: State) returns (path: seq<State>, moves: seq<Step>)
    requires Inv(st) && st.process.Up? && st.process.memory.background.Free? && st.process.memory.compaction.Some?
    ensures IsPath(path, moves) && path[0] == st
    ensures var last := path[|moves|];
            && last.process.Up? && last.process.memory.background.Free? && last.process.memory.compaction.None?
            && last.process.memory.tables !! st.process.memory.compaction.value.inputs
  {
    hide IsPath, Inv, NextStep, TableEntries;
    var content, st1 := WriteAll(st);
    path, moves := InstallCanFinish(st1);
    path, moves := Prepended(st, WriteOutput(content), path, moves);
  }

  /** All that the inputs hold fits into one output. */
  lemma WriteAll(st: State) returns (content: set<Entry>, st1: State)
    requires Inv(st) && st.process.Up? && st.process.memory.background.Free? && st.process.memory.compaction.Some?
    ensures NextStep(st, st1, WriteOutput(content)) && WrittenOut(st1)
    ensures st1.process.memory.compaction.value.inputs == st.process.memory.compaction.value.inputs
  {
    hide TableEntries, Inv;
    var d, m := st.disk, st.process.memory;
    var c, t := m.compaction.value, m.nextFile;
    content := TableEntries(d.tables, c.inputs);
    st1 := st.(disk := d.(tables := d.tables[t := content]),
               process := Up(m.(pending := m.pending + {t}, nextFile := t + 1,
                                compaction := Some(c.(outputs := c.outputs + {t})))));
    CompactionTables(st);
    OutputHoldsInputs(d.tables, c.inputs, c.outputs, t);
  }

  ghost predicate WrittenOut(st: State) {
    && st.process.Up? && st.process.memory.background.Free? && st.process.memory.compaction.Some?
    && var c := st.process.memory.compaction.value;
    && c.outputs !! c.inputs && TableEntries(st.disk.tables, c.inputs) <= TableEntries(st.disk.tables, c.outputs)
  }

  lemma InstallCanFinish(st: State) returns (path: seq<State>, moves: seq<Step>)
    requires WrittenOut(st)
    ensures IsPath(path, moves) && path[0] == st
    ensures var last := path[|moves|];
            && last.process.Up? && last.process.memory.background.Free? && last.process.memory.compaction.None?
            && last.process.memory.tables !! st.process.memory.compaction.value.inputs
  {
    hide IsPath, ObsoleteTables, ObsoleteLogs, TableEntries;
    var m := st.process.memory;
    var c := m.compaction.value;
    var edit := Manifest(m.logNumber, m.lastSequence, m.tables - c.inputs + c.outputs, m.nextFile);
    var st1 := st.(process := Up(m.(background := WritingInstall(edit))));
    var m2 := m.(background := WroteInstall(edit));
    var st2 := st1.(disk := st1.disk.(manifest := edit), process := Up(m2));
    var m3 := m2.(tables := edit.tables, pending := m2.pending - c.outputs, compaction := None);
    var st3 := st2.(process := Up(m3.(background := Deleting(ObsoleteTables(st2.disk, m3),
                                                             ObsoleteLogs(st2.disk, m3.logNumber)))));
    path, moves := RemovalCanEnd(st3);
    assert NextStep(st2, st3, InstallCompaction);
    path, moves := Prepended(st2, InstallCompaction, path, moves);
    assert NextStep(st1, st2, WriteInstall);
    path, moves := Prepended(st1, WriteInstall, path, moves);
    assert NextStep(st, st1, PrepareInstall);
    path, moves := Prepended(st, PrepareInstall, path, moves);
  }

  /** The next file number is not among the compaction's inputs, nor are its outputs. */
  lemma CompactionTables(st: State)
    requires Inv(st) && st.process.Up? && st.process.memory.compaction.Some?
    ensures var m := st.process.memory;
            var c := m.compaction.value; m.nextFile !in c.inputs && c.outputs !! c.inputs && m.nextFile !in c.outputs
  {
    hide DiskHolds, ContentHolds, LogHolds, LeaderHolds, BackgroundHolds, TableEntries;
  }

  lemma OutputHoldsInputs(tables: map<nat, set<Entry>>, inputs: set<nat>, outputs: set<nat>, t: nat)
    requires t !in inputs
    ensures var after := tables[t := TableEntries(tables, inputs)];
            TableEntries(after, inputs) <= TableEntries(after, outputs + {t})
  {
    var after := tables[t := TableEntries(tables, inputs)];
    forall e | e in TableEntries(after, inputs)
      ensures e in TableEntries(after, outputs + {t})
    {
      var u :| u in inputs && u in after && e in after[u];
      assert u in tables && tables[u] == after[u];
      assert t in outputs + {t} && e in after[t];
    }
  }

  lemma Prepended(st: State, step: Step, path: seq<State>, moves: seq<Step>)
      returns (longer: seq<State>, longerMoves: seq<Step>)
    requires IsPath(path, moves) && NextStep(st, path[0], step)
    ensures IsPath(longer, longerMoves) && longer[0] == st && longer[|longerMoves|] == path[|moves|]
  {
    hide NextStep;
    longer, longerMoves := [st] + path, [step] + moves;
    PathFrom(st, step, path, moves);
  }

  /** A recovery that is not interrupted can always be carried to its end. */
  lemma {:induction false} RecoveryCanFinish(st: State) returns (path: seq<State>, moves: seq<Step>)
    requires Inv(st) && st.process.Recovering?
    ensures IsPath(path, moves) && path[0] == st && path[|moves|].process.Up?
    decreases |st.process.recovery.toReplay|, st.process.recovery.newLog.None?
  {
    hide IsPath, Inv, NextStep;
    var step, st';
    if n :| n in st.process.recovery.toReplay {
      var log, st1 := ReplayOne(st, n);
      NextInv(st, st1, log);
      step, st' := LogReplayed(n), AfterLog(st1, n);
      LogIsReplayed(st, st1, n);
      NextInv(st1, st', step);
      path, moves := RecoveryCanFinish(st');
      PathFrom(st1, step, path, moves);
      NonEmpty(path, moves);
      path, moves := [st1] + path, [step] + moves;
      PathFrom(st, log, path, moves);
      NonEmpty(path, moves);
      path, moves := [st] + path, [log] + moves;
    } else if st.process.recovery.newLog.None? {
      step, st' := WithNewLog(st);
      NextInv(st, st', step);
      path, moves := RecoveryCanFinish(st');
      PathFrom(st, step, path, moves);
      NonEmpty(path, moves);
      path, moves := [st] + path, [step] + moves;
    } else {
      step, st' := OpenedAtLast(st);
      path, moves := [st'], [];
      NoMoves(st');
      PathFrom(st, step, path, moves);
      path, moves := [st] + path, [step] + moves;
    }
  }

  /** All of a log's writes fit into one table. */
  lemma ReplayOne(st: State, n: nat) returns (step: Step, st': State)
    requires Inv(st) && st.process.Recovering? && n in st.process.recovery.toReplay
    ensures NextStep(st, st', step) && st'.process.Recovering? && st'.disk.logs == st.disk.logs && n in st.disk.logs
    ensures var r, r' := st.process.recovery, st'.process.recovery;
            r'.toReplay == r.toReplay && r'.newLog == r.newLog && LogEntries(st.disk.logs[n]) <= r'.replayed
  {
    hide DiskHolds, LogEntries, TableEntries, LogsIn, All;
    var d, r := st.disk, st.process.recovery;
    var content := LogEntries(d.logs[n]);
    step := ReplayTable(n, content);
    st' := st.(disk := d.(tables := d.tables[r.nextFile := content]),
               process := Recovering(r.(tables := r.tables + {r.nextFile}, replayed := r.replayed + content,
                                        nextFile := r.nextFile + 1)));
  }

  function AfterLog(st: State, n: nat): State
    requires st.process.Recovering? && n in st.disk.logs
  {
    var d, r := st.disk, st.process.recovery;
    st.(process := Recovering(r.(toReplay := r.toReplay - {n},
                                 lastSequence := Max(r.lastSequence, LastLogged(d.logs[n])),
                                 nextFile := Max(r.nextFile, n + 1))))
  }

  lemma LogIsReplayed(st: State, st1: State, n: nat)
    requires st.process.Recovering? && st1.process.Recovering? && n in st1.disk.logs
    requires n in st.process.recovery.toReplay && st1.process.recovery.toReplay == st.process.recovery.toReplay
    requires LogEntries(st1.disk.logs[n]) <= st1.process.recovery.replayed
    ensures NextStep(st1, AfterLog(st1, n), LogReplayed(n))
    ensures |AfterLog(st1, n).process.recovery.toReplay| < |st.process.recovery.toReplay|
  {
    hide LogEntries, LastLogged, Max;
  }

  lemma WithNewLog(st: State) returns (step: Step, st': State)
    requires st.process.Recovering? && st.process.recovery.toReplay == {} && st.process.recovery.newLog.None?
    ensures NextStep(st, st', step) && st'.process.Recovering?
    ensures st'.process.recovery.toReplay == {} && st'.process.recovery.newLog.Some?
  {
    var d, r := st.disk, st.process.recovery;
    step := NewLog;
    st' := st.(disk := d.(logs := d.logs[r.nextFile := []]),
               process := Recovering(r.(newLog := Some(r.nextFile), nextFile := r.nextFile + 1)));
  }

  lemma OpenedAtLast(st: State) returns (step: Step, st': State)
    requires st.process.Recovering? && st.process.recovery.newLog.Some?
    ensures NextStep(st, st', step) && st'.process.Up?
  {
    var r := st.process.recovery;
    var d := st.disk.(manifest := Manifest(r.newLog.value, r.lastSequence, r.tables, r.nextFile));
    var m := Memory({}, None, r.lastSequence, r.newLog.value, r.newLog.value, r.tables, [], {}, r.nextFile, Idle, Free,
       None);
    step := FinishRecovery;
    st' := st.(disk := d, acked := |st.durable|, inFlight := None,
               process := Up(m.(background := Deleting(ObsoleteTables(d, m), ObsoleteLogs(d, m.logNumber)))));
  }

  lemma DiskHoldsAll(st: State)
    requires Inv(st)
    ensures TableEntries(st.disk.tables, st.disk.manifest.tables) + LogsFrom(st.disk.logs, st.disk.manifest.logNumber)
            == All(st.durable)
    ensures st.disk.manifest.tables <= st.disk.tables.Keys
  {
    hide UpHolds, RecoveryHolds, TableEntries, LogsFrom;
  }

  /** Everything in any log is a write of the history. */
  lemma {:induction false} LoggedIsDurable(states: seq<State>, steps: seq<Step>, i: nat, n: nat, e: Entry)
    requires IsRun(states, steps) && i < |states| && n in states[i].disk.logs && e in LogEntries(states[i].disk.logs[n])
    ensures e in All(states[i].durable)
  {
    hide Inv, LogEntries, Entries, Written, TableEntries, LogsFrom;
    if i > 0 {
      var st, st', step := states[i - 1], states[i], steps[i - 1];
      assert NextStep(st, st', step);
      RunInv(states, steps, i - 1);
      if n in st.disk.logs && st'.disk.logs[n] == st.disk.logs[n] {
        LoggedIsDurable(states, steps, i - 1, n, e);
        NothingLost(states, steps, i - 1, i);
        LongerAll(st.durable, st'.durable);
      } else if step.AppendLog? {
        var g := st.process.memory.leader.group;
        AppendEntries(st.disk.logs[n], g);
        GroupStarts(st);
        RecordEntries(st.durable, g);
        WrittenPrefix(st.durable, g.ops, 0, |st.durable|);
        WrittenJoin(st'.durable, 0, |st.durable|, |st'.durable|);
        if e !in Entries(g) {
          LoggedIsDurable(states, steps, i - 1, n, e);
        }
      } else {
        NewLogEmpty(st, st', step, n);
      }
    }
  }

  lemma NewLogEmpty(st: State, st': State, step: Step, n: nat)
    requires NextStep(st, st', step) && !step.AppendLog? && n in st'.disk.logs
    ensures (n in st.disk.logs && st'.disk.logs[n] == st.disk.logs[n]) || LogEntries(st'.disk.logs[n]) == {}
  {
    hide ObsoleteTables, ObsoleteLogs, TableEntries, Entries, LastLogged;
    match st.process
    case Down =>
    case Recovering(_) =>
    case Up(_) =>
  }

  lemma LongerAll(h: seq<Op>, h': seq<Op>)
    requires h <= h'
    ensures All(h) <= All(h')
  {
    hide Written;
    assert h' == h + h'[|h|..];
    WrittenPrefix(h, h'[|h|..], 0, |h|);
    WrittenJoin(h', 0, |h|, |h'|);
  }

  /** Opening never fails for a missing file: after any crash, every table the manifest names is on
      disk, so recovery can start. */
  lemma RecoveryCanStart(states: seq<State>, steps: seq<Step>, i: nat)
    requires IsRun(states, steps) && i < |states| && states[i].process.Down?
    ensures exists st' :: NextStep(states[i], st', StartRecovery)
  {
    hide Inv, TableEntries, LogsFrom;
    RunInv(states, steps, i);
    DiskHoldsAll(states[i]);
    var d := states[i].disk;
    var r := Recovery(set n | n in d.logs && n >= d.manifest.logNumber, {}, d.manifest.tables, d.manifest.lastSequence,
                      Max(d.manifest.nextFile + 1, d.manifest.logNumber + 1), None);
    assert NextStep(states[i], states[i].(process := Recovering(r)), StartRecovery);
  }

  /** Reads are served from tables that exist. */
  lemma ReadersFindTheirTables(states: seq<State>, steps: seq<Step>, i: nat)
    requires IsRun(states, steps) && i < |states| && states[i].process.Up?
    ensures var m := states[i].process.memory;
            m.tables <= states[i].disk.tables.Keys && forall v :: v in m.pinned ==> v <= states[i].disk.tables.Keys
  {
    hide DiskHolds, ContentHolds, CompactionHolds, BackgroundHolds, LogHolds, LeaderHolds, LiveTables;
    RunInv(states, steps, i);
  }
}
