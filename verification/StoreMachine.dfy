/** The store as a state machine: writes, memtable switches, flushes, compactions running next to
    them, trivial moves, snapshots, and reopening after a crash.  In every reachable state, a read at
    a snapshot still in use returns what the history of writes says. */
module StoreMachine {
  import opened Options
  import opened InternalKeys
  import opened Reads
  import opened Files
  import opened CompactionInputs
  import opened CompactionMeaning
  import opened CompactionWork
  import opened PointLookup
  import opened VersionChanges
  import opened History

  /** A compaction between the choice of its inputs and the installation of its results. */
  datatype Running = Running(level: nat, inputs0: seq<File>, inputs1: seq<File>, smallestSnapshot: nat,
    inputVersion: Version)

  /** `flushed` and `switched` are the positions in the history up to which writes have reached
      table files and left the active memtable. */
  datatype Store = Store(
    history: seq<Op>,
    flushed: nat,
    switched: nat,
    mem: seq<Entry>,
    imm: Option<seq<Entry>>,
    version: Version,
    nextFile: nat,
    pendingOutputs: set<nat>,
    snapshots: seq<nat>,
    running: Option<Running>)
  {
    /** Sequence numbers count writes, so the last one is the length of the history. */
    function LastSequence(): nat {
      |history|
    }

    /** The oldest sequence number a reader may still ask for. */
    function OldestInUse(): nat {
      if snapshots == [] then LastSequence() else snapshots[0]
    }
  }

  datatype Step =
    | Write(ops: seq<Op>, mem: seq<Entry>)
    | SwitchMemtable
    | FlushNothing
    | Flush(level: nat, table: File)
    | TakeSnapshot
    | ReleaseSnapshot(index: nat)
    | StartCompaction(level: nat, inputs0: seq<File>, inputs1: seq<File>)
    | AllocateOutput
    | FinishCompaction(input: seq<Entry>, outputs: seq<Output>, tables: seq<File>)
    | AbandonCompaction
    | TrivialMove(level: nat, table: File)
    | Reopen(nextFile: nat, tables: seq<File>)

  ghost predicate Init(st: Store) {
    && st.history == [] && st.flushed == 0 && st.switched == 0
    && st.mem == [] && st.imm == None
    && |st.version| == NUM_LEVELS && (forall p :: 0 <= p < NUM_LEVELS ==> st.version[p] == [])
    && st.pendingOutputs == {} && st.snapshots == [] && st.running == None
  }

  ghost predicate InstalledAs(outputs: seq<Output>, tables: seq<File>) {
    && |tables| == |outputs|
    && (forall i :: 0 <= i < |tables| ==>
          && tables[i].entries == outputs[i].entries
          && tables[i].smallest == outputs[i].smallest
          && tables[i].largest == outputs[i].largest)
    && (forall i, j :: 0 <= i < j < |tables| ==> tables[i].number != tables[j].number)
  }

  ghost predicate NextStep(st: Store, st': Store, step: Step) {
    && LevelsOk(st.version)
    && (st.running.Some? ==> st.running.value.level + 1 < NUM_LEVELS && |st.running.value.inputVersion| == NUM_LEVELS)
    && match step
    case Write(ops, mem) =>
      // One commit group: its entries go to the active memtable
      && Sorted(mem)
      && Elements(mem) == Elements(st.mem) + Written(st.history + ops, |st.history|, |st.history + ops|)
      && st' == st.(history := st.history + ops, mem := mem)
    case SwitchMemtable =>
      && st.imm == None
      && st' == st.(imm := Some(st.mem), mem := [], switched := |st.history|)
    case FlushNothing =>
      // An empty memtable makes no table
      && st.imm == Some([])
      && st' == st.(imm := None, flushed := st.switched)
    case Flush(level, table) =>
      && st.imm.Some? && table.Ok() && table.entries == st.imm.value && table.number == st.nextFile
      && level < NUM_LEVELS && FlushLevelOk(st.version, level, table.smallest.user, table.largest.user)
      && Flushed(st.version, st'.version, level, table)
      && st' == st.(imm := None, flushed := st.switched, version := st'.version, nextFile := st.nextFile + 1)
    case TakeSnapshot =>
      st' == st.(snapshots := st.snapshots + [st.LastSequence()])
    case ReleaseSnapshot(index) =>
      && index < |st.snapshots|
      && st' == st.(snapshots := st.snapshots[..index] + st.snapshots[index + 1..])
    case StartCompaction(level, inputs0, inputs1) =>
      && st.running == None && level + 1 < NUM_LEVELS
      && GoodInputs(st.version, level, inputs0, inputs1) && ParentsClosed(st.version, level, inputs1)
      && st' == st.(running := Some(Running(level, inputs0, inputs1, st.OldestInUse(), st.version)))
    case AllocateOutput =>
      && st.running.Some?
      && st' == st.(nextFile := st.nextFile + 1, pendingOutputs := st.pendingOutputs + {st.nextFile})
    case FinishCompaction(input, outputs, tables) =>
      && st.running.Some?
      && var r := st.running.value;
      && Sorted(input) && Elements(input) == EntriesOfFiles(InputFiles(r.inputs0, r.inputs1))
      && Contents(outputs) == Kept(input, r.smallestSnapshot, BaseTest(r.inputVersion, r.level))
      && (forall o :: o in outputs ==> o.Ok())
      && InstalledAs(outputs, tables) && (forall f :: f in tables ==> f.number in st.pendingOutputs)
      && Installed(st.version, st'.version, r.level, r.inputs0, r.inputs1, Members(tables))
      && st' == st.(version := st'.version, pendingOutputs := {}, running := None)
    case AbandonCompaction =>
      && st.running.Some?
      && st' == st.(pendingOutputs := {}, running := None)
    case TrivialMove(level, table) =>
      && st.running == None && level + 1 < NUM_LEVELS
      && GoodInputs(st.version, level, [table], [])
      && Installed(st.version, st'.version, level, [table], [], {table})
      && st' == st.(version := st'.version)
    case Reopen(nextFile, tables) =>
      // After a crash only the history in the logs, the version and a file counter above its tables
      // are left; the logs are replayed into level 0
      && NumbersBelow(st.version, nextFile) && st.flushed <= |st.history|
      && Rebuilt(st.history, st.flushed, st.version, st'.version, nextFile, tables)
      && st' == Store(st.history, |st.history|, |st.history|, [], None, st'.version, NumberAfter(nextFile, tables), {},
         [], None)
  }

  /** Memtables are filled from the logs and written to level 0 whenever one is large enough, and the
      last at the end. */
  ghost predicate Rebuilt(h: seq<Op>, from: nat, v: Version, v': Version, next: nat, tables: seq<File>)
    requires |v| == NUM_LEVELS && from <= |h|
    decreases |tables|
  {
    if tables == [] then from == |h| && v' == v
    else
      && tables[0].Ok() && tables[0].number >= next
      && exists to: nat, more: Version ::
           && from <= to <= |h| && Elements(tables[0].entries) == Written(h, from, to)
           && Flushed(v, more, 0, tables[0]) && Rebuilt(h, to, more, v', tables[0].number + 1, tables[1..])
  }

  function NumberAfter(next: nat, tables: seq<File>): nat {
    if tables == [] then next else tables[|tables| - 1].number + 1
  }

  ghost predicate Next(st: Store, st': Store) {
    exists step :: NextStep(st, st', step)
  }

  // ------------------------------------------------------------------ the invariant

  ghost predicate MemtablesHold(st: Store) {
    && st.flushed <= st.switched <= |st.history|
    && Sorted(st.mem) && Elements(st.mem) == Written(st.history, st.switched, |st.history|)
    && (if st.imm.Some?
        then Sorted(st.imm.value) && Elements(st.imm.value) == Written(st.history, st.flushed, st.switched)
        else st.flushed == st.switched)
  }

  ghost predicate VersionHolds(v: Version, h: seq<Op>, flushed: nat, nextFile: nat, pending: set<nat>) {
    && flushed <= |h|
    && LevelsOk(v) && NewerAbove(v)
    && NumbersDistinct(v) && NumbersBelow(v, nextFile)
    && (forall p, f :: 0 <= p < |v| && f in v[p] ==> f.number !in pending)
    && (forall n :: n in pending ==> n < nextFile)
    && FromHistory(VersionEntries(v), h, flushed)
  }

  /** Table files read like the writes that have reached them, for snapshots still in use. */
  ghost predicate TablesRead(v: Version, h: seq<Op>, flushed: nat, oldest: nat)
    requires flushed <= |h|
  {
    forall u: UserKey, s: nat :: s >= oldest ==> ReadAt(VersionEntries(v), u, s) == Meaning(h, Min(s, flushed), u)
  }

  ghost predicate SnapshotsHold(st: Store) {
    && (forall i, j :: 0 <= i < j < |st.snapshots| ==> st.snapshots[i] <= st.snapshots[j])
    && (forall i :: 0 <= i < |st.snapshots| ==> st.snapshots[i] <= |st.history|)
  }

  ghost predicate RunningHolds(v: Version, r: Running, oldest: nat)
    requires LevelsOk(v)
  {
    && r.level + 1 < NUM_LEVELS && |r.inputVersion| == NUM_LEVELS
    && Ready(v, r.level, r.inputs0, r.inputs1)
    && BaseHolds(v, r.level, r.inputs0, r.inputs1, r.inputVersion)
    && r.smallestSnapshot <= oldest
  }

  ghost predicate Inv(st: Store) {
    && MemtablesHold(st)
    && SnapshotsHold(st)
    && VersionHolds(st.version, st.history, st.flushed, st.nextFile, st.pendingOutputs)
    && TablesRead(st.version, st.history, st.flushed, st.OldestInUse())
    && (st.running.Some? ==> RunningHolds(st.version, st.running.value, st.OldestInUse()))
  }

  lemma EmptyVersionHolds(v: Version, h: seq<Op>, nextFile: nat)
    requires |v| == NUM_LEVELS && (forall p :: 0 <= p < NUM_LEVELS ==> v[p] == [])
    ensures VersionEntries(v) == {}
    ensures VersionHolds(v, h, 0, nextFile, {})
  {
    assert forall p :: 0 <= p < NUM_LEVELS ==> |v[p]| == 0;
  }

  lemma InitInv(st: Store)
    requires Init(st)
    ensures Inv(st)
  {
    EmptyVersionHolds(st.version, st.history, st.nextFile);
    assert Elements(st.mem) == {};
    forall u: UserKey, s: nat
      ensures ReadAt(VersionEntries(st.version), u, s) == Missing
    {
      ReadAtInvisible(VersionEntries(st.version), u, s);
    }
  }

  // ------------------------------------------------------------------ one lemma per kind of step

  lemma WriteInv(st: Store, st': Store, ops: seq<Op>, mem: seq<Entry>)
    requires Inv(st) && NextStep(st, st', Write(ops, mem))
    ensures Inv(st')
  {
    var h, h' := st.history, st.history + ops;
    WrittenExtends(h, ops, st.flushed, st.switched);
    WrittenExtends(h, ops, st.switched, |h|);
    WrittenSplit(h', st.switched, |h|, |h'|);
    FromHistoryExtends(VersionEntries(st.version), h, ops, st.flushed);
    forall u: UserKey, s: nat | s >= st'.OldestInUse()
      ensures ReadAt(VersionEntries(st.version), u, s) == Meaning(h', Min(s, st.flushed), u)
    {
      MeaningOfPrefix(h, ops, Min(s, st.flushed), u);
    }
  }

  lemma {:induction false} WrittenExtends(h: seq<Op>, ops: seq<Op>, a: nat, b: nat)
    requires a <= b <= |h|
    ensures Written(h + ops, a, b) == Written(h, a, b)
  {
    if a < b {
      WrittenExtends(h, ops, a, b - 1);
    }
  }

  lemma {:induction false} WrittenSplit(h: seq<Op>, a: nat, b: nat, c: nat)
    requires a <= b <= c <= |h|
    ensures Written(h, a, c) == Written(h, a, b) + Written(h, b, c)
    decreases c
  {
    if b < c {
      WrittenSplit(h, a, b, c - 1);
    }
  }

  lemma FromHistoryExtends(es: set<Entry>, h: seq<Op>, ops: seq<Op>, n: nat)
    requires n <= |h| && FromHistory(es, h, n)
    ensures FromHistory(es, h + ops, n)
  {
  }

  lemma SwitchInv(st: Store, st': Store)
    requires Inv(st) && NextStep(st, st', SwitchMemtable)
    ensures Inv(st')
  {
    assert Elements(st'.mem) == {};
  }

  lemma FlushNothingInv(st: Store, st': Store)
    requires Inv(st) && NextStep(st, st', FlushNothing)
    ensures Inv(st')
  {
    WrittenNonEmpty(st.history, st.flushed, st.switched);
    assert Elements(st.imm.value) == {};
  }

  lemma WrittenNonEmpty(h: seq<Op>, a: nat, b: nat)
    requires a <= b <= |h|
    ensures Written(h, a, b) == {} ==> a == b
  {
    if a < b {
      assert EntryOf(h, b - 1) in Written(h, a, b);
    }
  }

  lemma LaterWritesNewer(v: Version, h: seq<Op>, flushed: nat, es: seq<Entry>, a: nat, b: nat)
    requires flushed <= a <= b <= |h| && FromHistory(VersionEntries(v), h, flushed)
    requires Elements(es) == Written(h, a, b)
    ensures NewerThanVersion(es, v)
  {
    forall x, y | x in es && y in VersionEntries(v) && x.key.user == y.key.user
      ensures Less(x.key, y.key)
    {
      assert x in Elements(es);
      WrittenMembers(h, a, b, x);
    }
  }

  lemma FlushedOrStored(v: Version, v': Version, level: nat, table: File, p: nat, f: File)
    requires |v| == NUM_LEVELS && level < NUM_LEVELS && Flushed(v, v', level, table)
    requires p < |v'| && f in v'[p]
    ensures (p == level && f == table) || f in v[p]
  {
  }

  lemma FlushNumbers(v: Version, v': Version, level: nat, table: File, next: nat, pending: set<nat>)
    requires |v| == NUM_LEVELS && level < NUM_LEVELS && Flushed(v, v', level, table)
    requires NumbersDistinct(v) && NumbersBelow(v, next) && table.number == next
    requires forall p, f :: 0 <= p < |v| && f in v[p] ==> f.number !in pending
    requires forall n :: n in pending ==> n < next
    ensures NumbersDistinct(v') && NumbersBelow(v', next + 1)
    ensures forall p, f :: 0 <= p < |v'| && f in v'[p] ==> f.number !in pending
  {
    forall p, f | 0 <= p < |v'| && f in v'[p]
      ensures f.number < next + 1 && f.number !in pending
    {
      FlushedOrStored(v, v', level, table, p, f);
    }
    forall p, q, f, g | 0 <= p < |v'| && 0 <= q < |v'| && f in v'[p] && g in v'[q] && f.number == g.number
      ensures p == q && f == g
    {
      FlushedOrStored(v, v', level, table, p, f);
      FlushedOrStored(v, v', level, table, q, g);
    }
  }

  lemma FlushVersion(v: Version, v': Version, level: nat, table: File, h: seq<Op>, flushed: nat, switched: nat,
      next: nat, pending: set<nat>)
    requires VersionHolds(v, h, flushed, next, pending) && flushed <= switched <= |h|
    requires table.Ok() && table.number == next && Elements(table.entries) == Written(h, flushed, switched)
    requires level < NUM_LEVELS && FlushLevelOk(v, level, table.smallest.user, table.largest.user)
    requires Flushed(v, v', level, table)
    ensures NewerThanVersion(table.entries, v)
    ensures VersionEntries(v') == VersionEntries(v) + Written(h, flushed, switched)
    ensures VersionHolds(v', h, switched, next + 1, pending)
  {
    LaterWritesNewer(v, h, flushed, table.entries, flushed, switched);
    FlushKeepsLevels(v, v', level, table);
    FlushKeepsNewerAbove(v, v', level, table, next);
    FlushEntries(v, v', level, table);
    FromHistoryMore(VersionEntries(v), h, flushed, switched);
    FlushNumbers(v, v', level, table, next, pending);
  }

  lemma FlushReads(v: Version, v': Version, h: seq<Op>, flushed: nat, switched: nat, oldest: nat)
    requires flushed <= switched <= |h| && FromHistory(VersionEntries(v), h, flushed)
    requires TablesRead(v, h, flushed, oldest)
    requires VersionEntries(v') == VersionEntries(v) + Written(h, flushed, switched)
    ensures TablesRead(v', h, switched, oldest)
  {
    forall u: UserKey, s: nat | s >= oldest
      ensures ReadAt(VersionEntries(v'), u, s) == Meaning(h, Min(s, switched), u)
    {
      ReadAfterMore(VersionEntries(v), h, flushed, switched, u, s);
    }
  }

  lemma FlushRunning(v: Version, v': Version, level: nat, table: File, r: Running, oldest: nat)
    requires LevelsOk(v) && LevelsOk(v') && RunningHolds(v, r, oldest)
    requires table.Ok() && level < NUM_LEVELS && Flushed(v, v', level, table)
    requires FlushLevelOk(v, level, table.smallest.user, table.largest.user) && NewerThanVersion(table.entries, v)
    ensures RunningHolds(v', r, oldest)
  {
    FlushKeepsReady(v, v', level, table, r.level, r.inputs0, r.inputs1);
    FlushKeepsBase(v, v', level, table, r.level, r.inputs0, r.inputs1, r.inputVersion);
  }

  lemma FlushInv(st: Store, st': Store, level: nat, table: File)
    requires Inv(st) && NextStep(st, st', Flush(level, table))
    ensures Inv(st')
  {
    hide NewerAbove, LevelsOk, NumbersDistinct, NumbersBelow, FromHistory, TablesRead, RunningHolds, FlushLevelOk,
         Flushed;
    FlushVersion(st.version, st'.version, level, table, st.history, st.flushed, st.switched, st.nextFile,
      st.pendingOutputs);
    FlushReads(st.version, st'.version, st.history, st.flushed, st.switched, st.OldestInUse());
    if st.running.Some? {
      FlushRunning(st.version, st'.version, level, table, st.running.value, st.OldestInUse());
    }
  }

  lemma SnapshotInv(st: Store, st': Store, step: Step)
    requires Inv(st) && NextStep(st, st', step) && (step.TakeSnapshot? || step.ReleaseSnapshot?)
    ensures Inv(st')
  {
    hide VersionHolds, Ready, BaseHolds, Sorted, Meaning, ReadAt;
    assert st.OldestInUse() <= st'.OldestInUse();
  }

  lemma StartInv(st: Store, st': Store, level: nat, inputs0: seq<File>, inputs1: seq<File>)
    requires Inv(st) && NextStep(st, st', StartCompaction(level, inputs0, inputs1))
    ensures Inv(st')
  {
    hide GoodInputs, ParentsClosed, VersionHolds, TablesRead, Ready, BaseHolds;
    ChosenInputsReady(st.version, level, inputs0, inputs1);
    BaseHoldsAtStart(st.version, level, inputs0, inputs1);
  }

  // ------------------------------------------------------------------ the outputs of a compaction

  lemma {:induction false} ContentsPrefix(outputs: seq<Output>, n: nat)
    requires n <= |outputs|
    ensures Contents(outputs[..n]) <= Contents(outputs)
  {
    if n == |outputs| {
      assert outputs[..n] == outputs;
    } else {
      var front := outputs[..|outputs| - 1];
      ContentsPrefix(front, n);
      assert front[..n] == outputs[..n];
    }
  }

  /** Each output is a stretch of the merged entries. */
  lemma OutputStretch(outputs: seq<Output>, i: nat)
    requires i < |outputs|
    ensures var from := |Contents(outputs[..i])|;
            && from + |outputs[i].entries| == |Contents(outputs[..i + 1])| <= |Contents(outputs)|
            && Contents(outputs)[from..from + |outputs[i].entries|] == outputs[i].entries
  {
    ContentsPrefix(outputs, i + 1);
    assert outputs[..i + 1][..i] == outputs[..i];
  }

  lemma {:induction false} ContentsMembers(outputs: seq<Output>, e: Entry)
    ensures e in Contents(outputs) <==> exists i :: 0 <= i < |outputs| && e in outputs[i].entries
  {
    if outputs != [] {
      var front := outputs[..|outputs| - 1];
      ContentsMembers(front, e);
      if i :| 0 <= i < |front| && e in front[i].entries {
        assert e in outputs[i].entries;
      }
    }
  }

  lemma SliceSorted(es: seq<Entry>, from: nat, to: nat)
    requires Sorted(es) && from <= to <= |es|
    ensures Sorted(es[from..to])
  {
  }

  lemma StretchSorted(outputs: seq<Output>, i: nat)
    requires i < |outputs| && Sorted(Contents(outputs))
    ensures Sorted(outputs[i].entries)
  {
    OutputStretch(outputs, i);
    var from := |Contents(outputs[..i])|;
    SliceSorted(Contents(outputs), from, from + |outputs[i].entries|);
  }

  lemma StretchIndex(outputs: seq<Output>, i: nat, k: nat)
    requires i < |outputs| && k < |outputs[i].entries|
    ensures |Contents(outputs[..i])| + k < |Contents(outputs[..i + 1])| <= |Contents(outputs)|
    ensures Contents(outputs)[|Contents(outputs[..i])| + k] == outputs[i].entries[k]
  {
    OutputStretch(outputs, i);
    var from := |Contents(outputs[..i])|;
    assert Contents(outputs)[from..from + |outputs[i].entries|][k] == Contents(outputs)[from + k];
  }

  lemma StretchStarts(outputs: seq<Output>, i: nat, j: nat)
    requires i < j < |outputs|
    ensures |Contents(outputs[..i + 1])| <= |Contents(outputs[..j])|
  {
    ContentsPrefix(outputs[..j], i + 1);
    assert outputs[..j][..i + 1] == outputs[..i + 1];
  }

  lemma StretchesOrdered(outputs: seq<Output>, i: nat, j: nat)
    requires i < j < |outputs| && Sorted(Contents(outputs)) && outputs[i].Ok() && outputs[j].Ok()
    ensures Less(outputs[i].largest, outputs[j].smallest)
  {
    StretchIndex(outputs, i, |outputs[i].entries| - 1);
    StretchIndex(outputs, j, 0);
    StretchStarts(outputs, i, j);
  }

  lemma TablesMatch(outputs: seq<Output>, tables: seq<File>, kept: seq<Entry>, inputs: set<File>)
    requires InstalledAs(outputs, tables) && (forall o :: o in outputs ==> o.Ok())
    requires Contents(outputs) == kept && Sorted(kept)
    requires forall e :: e in kept ==> e in EntriesOfFiles(inputs)
    ensures GoodOutputs(Members(tables), inputs)
    ensures EntriesOfFiles(Members(tables)) == Elements(kept)
  {
    forall i | 0 <= i < |tables|
      ensures tables[i].Ok()
      ensures forall e :: e in tables[i].entries ==> e in kept
    {
      assert outputs[i] in outputs;
      StretchSorted(outputs, i);
      forall e | e in tables[i].entries
        ensures e in kept
      {
        ContentsMembers(outputs, e);
      }
    }
    forall i, j | 0 <= i < |tables| && 0 <= j < |tables|
      ensures Apart(tables[i], tables[j])
    {
      assert outputs[i] in outputs && outputs[j] in outputs;
      if i < j {
        StretchesOrdered(outputs, i, j);
      } else if j < i {
        StretchesOrdered(outputs, j, i);
      }
    }
    forall e | e in kept
      ensures e in EntriesOfFiles(Members(tables))
    {
      ContentsMembers(outputs, e);
      var i :| 0 <= i < |outputs| && e in outputs[i].entries;
      assert tables[i] in Members(tables) && e in tables[i].entries;
    }
  }

  /** The condition under which a compaction preserves reads holds of every compaction that the
      machine runs. */
  lemma FinishHidesNothing(v: Version, h: seq<Op>, n: nat, r: Running, oldest: nat, input: seq<Entry>)
    requires n <= |h| && LevelsOk(v) && NewerAbove(v) && FromHistory(VersionEntries(v), h, n)
    requires RunningHolds(v, r, oldest)
    requires Elements(input) == EntriesOfFiles(InputFiles(r.inputs0, r.inputs1))
    ensures TombstonesHideNothing(input, OutsideEntries(v, InputFiles(r.inputs0, r.inputs1)), r.smallestSnapshot,
            BaseTest(r.inputVersion, r.level))
  {
    var inputs := InputFiles(r.inputs0, r.inputs1);
    var rest := OutsideEntries(v, inputs);
    InputEntriesStored(v, r.level, r.inputs0, r.inputs1);
    forall e | e in input
      ensures e in VersionEntries(v) && e.key.Parses()
    {
      assert e in Elements(input);
    }
    assert LeftBehind(input, rest) == rest;
    forall i | 0 <= i < |input| && ObsoleteTombstone(input[i], r.smallestSnapshot, BaseTest(r.inputVersion, r.level))
      ensures ReadAt(LeftBehind(input, rest), input[i].key.user, input[i].key.sequence) == Missing
    {
      var t := input[i];
      assert t in Elements(input);
      NothingBelowTombstone(v, r.level, r.inputs0, r.inputs1, r.inputVersion, t);
      forall x | x in rest
        ensures !Visible(x.key, t.key.user, t.key.sequence)
      {
        if x.key.user == t.key.user {
          assert Less(x.key, t.key);
          SameSequenceSameEntry(h, n, x, t);
        }
      }
      ReadAtInvisible(rest, t.key.user, t.key.sequence);
    }
  }

  lemma SameSequenceSameEntry(h: seq<Op>, n: nat, x: Entry, t: Entry)
    requires n <= |h| && 1 <= x.key.sequence <= n && x == EntryOf(h, x.key.sequence - 1)
    requires 1 <= t.key.sequence <= n && t == EntryOf(h, t.key.sequence - 1)
    requires Less(x.key, t.key) && x.key.user == t.key.user
    ensures x.key.sequence > t.key.sequence
  {
  }

  lemma FinishReads(v: Version, v': Version, h: seq<Op>, n: nat, r: Running, oldest: nat, input: seq<Entry>,
      tables: set<File>)
    requires n <= |h| && LevelsOk(v) && NewerAbove(v) && FromHistory(VersionEntries(v), h, n)
    requires RunningHolds(v, r, oldest) && TablesRead(v, h, n, oldest)
    requires Sorted(input) && Elements(input) == EntriesOfFiles(InputFiles(r.inputs0, r.inputs1))
    requires Installed(v, v', r.level, r.inputs0, r.inputs1, tables)
    requires EntriesOfFiles(tables) == Elements(Kept(input, r.smallestSnapshot, BaseTest(r.inputVersion, r.level)))
    ensures TablesRead(v', h, n, oldest) && FromHistory(VersionEntries(v'), h, n)
  {
    var inputs := InputFiles(r.inputs0, r.inputs1);
    var rest := OutsideEntries(v, inputs);
    var base := BaseTest(r.inputVersion, r.level);
    InputEntriesStored(v, r.level, r.inputs0, r.inputs1);
    assert Elements(input) + rest == VersionEntries(v);
    FromHistoryUnique(VersionEntries(v), h, n);
    FinishHidesNothing(v, h, n, r, oldest, input);
    CompactionPreservesReads(input, rest, r.smallestSnapshot, base);
    KeptElements(input, r.smallestSnapshot, base);
    InstallEntries(v, v', r.level, r.inputs0, r.inputs1, tables);
    assert VersionEntries(v') == Elements(Kept(input, r.smallestSnapshot, base)) + rest;
  }

  /** New tables may reuse no number, except that of a table moved from the upper level. */
  lemma InstallNumbers(v: Version, v': Version, level: nat, inputs0: seq<File>, inputs1: seq<File>, tables: set<File>,
      next: nat)
    requires |v| == NUM_LEVELS && level + 1 < NUM_LEVELS && Installed(v, v', level, inputs0, inputs1, tables)
    requires NumbersDistinct(v) && NumbersBelow(v, next)
    requires forall f :: f in tables ==> f.number < next
    requires forall f, g :: f in tables && g in tables && f.number == g.number ==> f == g
    requires forall f, p, g :: f in tables && 0 <= p < |v| && g in v[p] && f.number == g.number ==>
               p == level && g in inputs0
    ensures NumbersDistinct(v') && NumbersBelow(v', next)
  {
    forall p, f | 0 <= p < |v'| && f in v'[p]
      ensures f.number < next
    {
      StoredOrNew(v, v', level, inputs0, inputs1, tables, p, f);
    }
    forall p, q, f, g | 0 <= p < |v'| && 0 <= q < |v'| && f in v'[p] && g in v'[q] && f.number == g.number
      ensures p == q && f == g
    {
      StoredOrNew(v, v', level, inputs0, inputs1, tables, p, f);
      StoredOrNew(v, v', level, inputs0, inputs1, tables, q, g);
    }
  }

  lemma StoredOrNew(v: Version, v': Version, level: nat, inputs0: seq<File>, inputs1: seq<File>, tables: set<File>,
      p: nat, f: File)
    requires |v| == NUM_LEVELS && level + 1 < NUM_LEVELS && Installed(v, v', level, inputs0, inputs1, tables)
    requires p < |v'| && f in v'[p]
    ensures (p == level + 1 && f in tables) || (f in v[p] && !(p == level && f in inputs0))
  {
  }

  lemma OutputsVersion(v: Version, v': Version, r: Running, h: seq<Op>, n: nat, next: nat, pending: set<nat>,
      tables: seq<File>, oldest: nat)
    requires VersionHolds(v, h, n, next, pending) && RunningHolds(v, r, oldest)
    requires Installed(v, v', r.level, r.inputs0, r.inputs1, Members(tables))
    requires GoodOutputs(Members(tables), InputFiles(r.inputs0, r.inputs1))
    requires forall i, j :: 0 <= i < j < |tables| ==> tables[i].number != tables[j].number
    requires forall f :: f in tables ==> f.number in pending
    ensures LevelsOk(v') && NewerAbove(v') && NumbersDistinct(v') && NumbersBelow(v', next)
  {
    InstallKeepsLevels(v, v', r.level, r.inputs0, r.inputs1, Members(tables));
    InstallKeepsNewerAbove(v, v', r.level, r.inputs0, r.inputs1, Members(tables));
    InstallNumbers(v, v', r.level, r.inputs0, r.inputs1, Members(tables), next);
  }

  lemma FinishTables(r: Running, input: seq<Entry>, outputs: seq<Output>, tables: seq<File>)
    requires |r.inputVersion| == NUM_LEVELS
    requires Sorted(input) && Elements(input) == EntriesOfFiles(InputFiles(r.inputs0, r.inputs1))
    requires Contents(outputs) == Kept(input, r.smallestSnapshot, BaseTest(r.inputVersion, r.level))
    requires (forall o :: o in outputs ==> o.Ok()) && InstalledAs(outputs, tables)
    ensures GoodOutputs(Members(tables), InputFiles(r.inputs0, r.inputs1))
    ensures EntriesOfFiles(Members(tables))
            == Elements(Kept(input, r.smallestSnapshot, BaseTest(r.inputVersion, r.level)))
  {
    var base := BaseTest(r.inputVersion, r.level);
    var kept := Kept(input, r.smallestSnapshot, base);
    SurvivorsSorted(input, |input|, r.smallestSnapshot, base);
    KeptElements(input, r.smallestSnapshot, base);
    forall e | e in kept
      ensures e in EntriesOfFiles(InputFiles(r.inputs0, r.inputs1))
    {
      assert e in Elements(kept);
    }
    TablesMatch(outputs, tables, kept, InputFiles(r.inputs0, r.inputs1));
  }

  lemma FinishInv(st: Store, st': Store, input: seq<Entry>, outputs: seq<Output>, tables: seq<File>)
    requires Inv(st) && NextStep(st, st', FinishCompaction(input, outputs, tables))
    ensures Inv(st')
  {
    hide NewerAbove, LevelsOk, NumbersDistinct, NumbersBelow, FromHistory, TablesRead, Ready, BaseHolds, Sorted,
         GoodOutputs, Installed;
    var r := st.running.value;
    FinishTables(r, input, outputs, tables);
    OutputsVersion(st.version, st'.version, r, st.history, st.flushed, st.nextFile, st.pendingOutputs, tables,
      st.OldestInUse());
    FinishReads(st.version, st'.version, st.history, st.flushed, r, st.OldestInUse(), input, Members(tables));
  }

  lemma MoveVersion(v: Version, v': Version, level: nat, table: File, h: seq<Op>, n: nat, next: nat, pending: set<nat>)
    requires VersionHolds(v, h, n, next, pending) && level + 1 < NUM_LEVELS
    requires GoodInputs(v, level, [table], [])
    requires Installed(v, v', level, [table], [], {table})
    ensures VersionHolds(v', h, n, next, pending)
    ensures VersionEntries(v') == VersionEntries(v)
  {
    hide NewerAbove, NumbersDistinct, NumbersBelow, FromHistory, Joined, Clear, NewerThanFiles, NewerThan, FilesOk,
         DisjointSorted;
    assert ParentsClosed(v, level, []);
    ChosenInputsReady(v, level, [table], []);
    InputsOk(v, level, [table], []);
    assert InputFiles([table], []) == {table};
    assert table in [table];
    InstallKeepsLevels(v, v', level, [table], [], {table});
    InstallKeepsNewerAbove(v, v', level, [table], [], {table});
    InstallEntries(v, v', level, [table], [], {table});
    InputEntriesStored(v, level, [table], []);
    assert VersionEntries(v') == VersionEntries(v);
    MoveNumbers(v, v', level, table, next);
    MoveNotPending(v, v', level, table, pending);
  }

  lemma MoveNumbers(v: Version, v': Version, level: nat, table: File, next: nat)
    requires |v| == NUM_LEVELS && level + 1 < NUM_LEVELS && Installed(v, v', level, [table], [], {table})
    requires NumbersDistinct(v) && NumbersBelow(v, next) && table in v[level]
    ensures NumbersDistinct(v') && NumbersBelow(v', next)
  {
    InstallNumbers(v, v', level, [table], [], {table}, next);
  }

  lemma MoveNotPending(v: Version, v': Version, level: nat, table: File, pending: set<nat>)
    requires |v| == NUM_LEVELS && level + 1 < NUM_LEVELS && Installed(v, v', level, [table], [], {table})
    requires table in v[level]
    requires forall p, f :: 0 <= p < |v| && f in v[p] ==> f.number !in pending
    ensures forall p, f :: 0 <= p < |v'| && f in v'[p] ==> f.number !in pending
  {
    forall p, f | 0 <= p < |v'| && f in v'[p]
      ensures f.number !in pending
    {
      if f != table {
        assert f in v[p];
      }
    }
  }

  lemma MoveInv(st: Store, st': Store, level: nat, table: File)
    requires Inv(st) && NextStep(st, st', TrivialMove(level, table))
    ensures Inv(st')
  {
    hide NewerAbove, LevelsOk, NumbersDistinct, NumbersBelow, FromHistory, RunningHolds, GoodInputs, Installed;
    MoveVersion(st.version, st'.version, level, table, st.history, st.flushed, st.nextFile, st.pendingOutputs);
  }

  lemma AllocateInv(st: Store, st': Store)
    requires Inv(st) && NextStep(st, st', AllocateOutput)
    ensures Inv(st')
  {
    hide NewerAbove, LevelsOk, NumbersDistinct, NumbersBelow, FromHistory, TablesRead, Ready, BaseHolds, Sorted;
    AllocateNumbers(st.version, st.nextFile, st.pendingOutputs);
  }

  lemma AllocateNumbers(v: Version, next: nat, pending: set<nat>)
    requires NumbersBelow(v, next)
    requires forall p, f :: 0 <= p < |v| && f in v[p] ==> f.number !in pending
    ensures NumbersBelow(v, next + 1)
    ensures forall p, f :: 0 <= p < |v| && f in v[p] ==> f.number !in pending + {next}
  {
  }

  lemma AbandonInv(st: Store, st': Store)
    requires Inv(st) && NextStep(st, st', AbandonCompaction)
    ensures Inv(st')
  {
    hide NewerAbove, LevelsOk, NumbersDistinct, NumbersBelow, FromHistory, TablesRead, Ready, BaseHolds, Sorted;
  }

  // ------------------------------------------------------------------ reopening

  lemma HigherCounter(v: Version, h: seq<Op>, flushed: nat, next: nat, higher: nat)
    requires VersionHolds(v, h, flushed, next, {}) && next <= higher
    ensures VersionHolds(v, h, flushed, higher, {})
  {
    hide LevelsOk, NewerAbove, NumbersDistinct, FromHistory;
  }

  lemma OneMoreTable(h: seq<Op>, from: nat, to: nat, v: Version, more: Version, next: nat, table: File, oldest: nat)
    requires VersionHolds(v, h, from, next, {}) && TablesRead(v, h, from, oldest)
    requires table.Ok() && table.number >= next
    requires from <= to <= |h| && Elements(table.entries) == Written(h, from, to) && Flushed(v, more, 0, table)
    ensures VersionHolds(more, h, to, table.number + 1, {}) && TablesRead(more, h, to, oldest)
  {
    HigherCounter(v, h, from, next, table.number);
    TablesFromHistory(v, h, from, table.number);
    FirstLevelTakesAny(v, table);
    hide LevelsOk, NewerAbove, NumbersDistinct, NumbersBelow, FromHistory, TablesRead, Flushed, FlushLevelOk;
    FlushVersion(v, more, 0, table, h, from, to, table.number, {});
    FlushReads(v, more, h, from, to, oldest);
  }

  /** Every table that recovery writes leaves the levels, and newer above older, as they must be. */
  lemma {:induction false} RebuiltHolds(h: seq<Op>, from: nat, v: Version, v': Version, next: nat, tables: seq<File>,
      oldest: nat)
    requires |v| == NUM_LEVELS && from <= |h| && Rebuilt(h, from, v, v', next, tables)
    requires VersionHolds(v, h, from, next, {}) && TablesRead(v, h, from, oldest)
    ensures VersionHolds(v', h, |h|, NumberAfter(next, tables), {}) && TablesRead(v', h, |h|, oldest)
    decreases |tables|
  {
    hide TablesRead, EditedLevel, VersionHolds, Written, Elements, Sorted;
    if tables != [] {
      var table := tables[0];
      var to: nat, more: Version :|
        && from <= to <= |h| && Elements(table.entries) == Written(h, from, to)
        && Flushed(v, more, 0, table) && Rebuilt(h, to, more, v', table.number + 1, tables[1..]);
      OneMoreTable(h, from, to, v, more, next, table, oldest);
      RebuiltHolds(h, to, more, v', table.number + 1, tables[1..], oldest);
    }
  }

  lemma FirstLevelTakesAny(v: Version, table: File)
    requires |v| == NUM_LEVELS
    ensures FlushLevelOk(v, 0, table.smallest.user, table.largest.user)
  {
  }

  lemma TablesFromHistory(v: Version, h: seq<Op>, n: nat, next: nat)
    requires VersionHolds(v, h, n, next, {})
    ensures n <= |h| && FromHistory(VersionEntries(v), h, n)
  {
    hide LevelsOk, NewerAbove, NumbersDistinct, NumbersBelow, FromHistory;
  }

  lemma ReopenInv(st: Store, st': Store, nextFile: nat, tables: seq<File>)
    requires Inv(st) && NextStep(st, st', Reopen(nextFile, tables))
    ensures Inv(st')
  {
    assert |st.version| == NUM_LEVELS;
    hide LevelsOk, NewerAbove, NumbersDistinct, NumbersBelow, FromHistory, RunningHolds, Rebuilt, ReadAt, Meaning;
    var h := st.history;
    assert VersionHolds(st.version, h, st.flushed, nextFile, {});
    assert TablesRead(st.version, h, st.flushed, |h|);
    hide VersionHolds, TablesRead;
    RebuiltHolds(h, st.flushed, st.version, st'.version, nextFile, tables, |h|);
    NothingSwitched(h);
  }

  lemma NothingSwitched(h: seq<Op>)
    ensures Written(h, |h|, |h|) == {} == Elements([])
  {
  }

  lemma NextInv(st: Store, st': Store, step: Step)
    requires Inv(st) && NextStep(st, st', step)
    ensures Inv(st')
  {
    match step
    case Write(ops, mem) => WriteInv(st, st', ops, mem);
    case SwitchMemtable => SwitchInv(st, st');
    case FlushNothing => FlushNothingInv(st, st');
    case Flush(level, table) => FlushInv(st, st', level, table);
    case TakeSnapshot => SnapshotInv(st, st', step);
    case ReleaseSnapshot(_) => SnapshotInv(st, st', step);
    case StartCompaction(level, inputs0, inputs1) => StartInv(st, st', level, inputs0, inputs1);
    case AllocateOutput => AllocateInv(st, st');
    case FinishCompaction(input, outputs, tables) => FinishInv(st, st', input, outputs, tables);
    case AbandonCompaction => AbandonInv(st, st');
    case TrivialMove(level, table) => MoveInv(st, st', level, table);
    case Reopen(nextFile, tables) => ReopenInv(st, st', nextFile, tables);
  }

  // ------------------------------------------------------------------ whole runs

  ghost predicate IsRun(run: seq<Store>) {
    && |run| > 0 && Init(run[0])
    && forall i :: 0 <= i < |run| - 1 ==> Next(run[i], run[i + 1])
  }

  lemma {:induction false} RunInv(run: seq<Store>, i: nat)
    requires IsRun(run) && i < |run|
    ensures Inv(run[i])
  {
    hide Inv, Init, NextStep;
    if i == 0 {
      InitInv(run[0]);
    } else {
      RunInv(run, i - 1);
      assert Next(run[i - 1], run[i - 1 + 1]);
      var step :| NextStep(run[i - 1], run[i], step);
      NextInv(run[i - 1], run[i], step);
    }
  }

  lemma PartsAreOrdered(st: Store)
    requires Inv(st)
    ensures PartsOrdered(st.mem, st.imm, st.version)
  {
    hide NewerAbove, LevelsOk, NumbersDistinct, NumbersBelow, TablesRead, RunningHolds, Sorted, Written;
    var h := st.history;
    LaterWritesNewer(st.version, h, st.flushed, st.mem, st.switched, |h|);
    if st.imm.Some? {
      LaterWritesNewer(st.version, h, st.flushed, st.imm.value, st.flushed, st.switched);
      forall a, b | a in st.mem && b in st.imm.value && a.key.user == b.key.user
        ensures Less(a.key, b.key)
      {
        assert a in Elements(st.mem) && b in Elements(st.imm.value);
        WrittenMembers(h, st.switched, |h|, a);
        WrittenMembers(h, st.flushed, st.switched, b);
      }
    }
  }

  lemma StoredIsWritten(st: Store)
    requires Inv(st)
    ensures StoreEntries(st.mem, st.imm, st.version) == VersionEntries(st.version)
            + Written(st.history, st.flushed, |st.history|)
  {
    WrittenSplit(st.history, st.flushed, st.switched, |st.history|);
    if st.imm.None? {
      assert Written(st.history, st.flushed, st.switched) == {};
    }
  }

  lemma ReadMatchesHistory(st: Store, u: UserKey, s: nat)
    requires Inv(st) && s >= st.OldestInUse()
    ensures ReadAt(StoreEntries(st.mem, st.imm, st.version), u, s) == Meaning(st.history, Min(s, |st.history|), u)
  {
    StoredIsWritten(st);
    hide NewerAbove, LevelsOk, NumbersDistinct, NumbersBelow, RunningHolds, Sorted, FromHistory, Meaning;
    ReadAfterMore(VersionEntries(st.version), st.history, st.flushed, |st.history|, u, s);
  }

  /** Safety of the whole store.  After any run, at any snapshot still in use, the entries spread
      over memtables and levels read exactly like the history of writes up to that snapshot. */
  lemma EveryReadMatchesHistory(run: seq<Store>, i: nat, u: UserKey, s: nat)
    requires IsRun(run) && i < |run| && s >= run[i].OldestInUse()
    ensures PartsOrdered(run[i].mem, run[i].imm, run[i].version)
    ensures ReadAt(StoreEntries(run[i].mem, run[i].imm, run[i].version), u, s)
            == Meaning(run[i].history, Min(s, |run[i].history|), u)
  {
    RunInv(run, i);
    PartsAreOrdered(run[i]);
    ReadMatchesHistory(run[i], u, s);
  }

  /** The database read, at a snapshot or at the present. */
  method Get(st: Store, u: UserKey, snapshot: Option<nat>) returns (r: ReadResult)
    requires Inv(st)
    requires snapshot.Some? ==> snapshot.value < |st.snapshots|
    ensures var s := if snapshot.Some? then st.snapshots[snapshot.value] else |st.history|;
            s <= |st.history| && r == Meaning(st.history, s, u)
  {
    var s := st.LastSequence();
    if snapshot.Some? {
      s := st.snapshots[snapshot.value];
    }
    PartsAreOrdered(st);
    ReadMatchesHistory(st, u, s);
    r := PointLookup.Get(st.mem, st.imm, st.version, u, s);
  }

  lemma {:induction false} HistoryGrows(run: seq<Store>, i: nat, j: nat)
    requires IsRun(run) && i <= j < |run|
    ensures run[i].history <= run[j].history
    decreases j
  {
    if i < j {
      HistoryGrows(run, i, j - 1);
      assert Next(run[j - 1], run[j - 1 + 1]);
      hide LevelsOk, Elements, Sorted, Written, FlushLevelOk, Flushed, GoodInputs, ParentsClosed, InstalledAs,
           Installed, EntriesOfFiles, Rebuilt;
      var step :| NextStep(run[j - 1], run[j], step);
    }
  }

  lemma LiveSnapshot(st: Store, s: nat)
    requires Inv(st) && s in st.snapshots
    ensures st.OldestInUse() <= s <= |st.history|
  {
    hide VersionHolds, TablesRead, RunningHolds, MemtablesHold;
    var i :| 0 <= i < |st.snapshots| && st.snapshots[i] == s;
  }

  /** A snapshot held across any stretch of a run keeps reading the same values, whatever was
      written, flushed or compacted in between. */
  lemma SnapshotReadsRepeat(run: seq<Store>, i: nat, j: nat, u: UserKey, s: nat)
    requires IsRun(run) && i <= j < |run|
    requires s in run[i].snapshots && s in run[j].snapshots
    ensures ReadAt(StoreEntries(run[j].mem, run[j].imm, run[j].version), u, s)
            == ReadAt(StoreEntries(run[i].mem, run[i].imm, run[i].version), u, s)
  {
    hide Inv, IsRun, ReadAt, Meaning;
    RunInv(run, i);
    RunInv(run, j);
    LiveSnapshot(run[i], s);
    LiveSnapshot(run[j], s);
    ReadMatchesHistory(run[i], u, s);
    ReadMatchesHistory(run[j], u, s);
    HistoryGrows(run, i, j);
    var more := run[j].history[|run[i].history|..];
    assert run[j].history == run[i].history + more;
    MeaningOfPrefix(run[i].history, more, s, u);
  }
}
