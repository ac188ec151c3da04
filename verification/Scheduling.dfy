/** When background work is scheduled, and why a writer that waits for it is never stranded. */
module Scheduling {

  const NUM_LEVELS: nat := 7
  const L0_COMPACTION_TRIGGER: nat := 4
  const L0_STOP_WRITES_TRIGGER: nat := 12

  /** What the scheduler looks at in a version: how many files level 0 has, how many bytes the other
      levels hold, and whether seeks have marked a file for compaction. */
  datatype Version = Version(l0Files: nat, bytes: seq<nat>, seekFile: bool)

  function MaxBytesForLevel(level: nat): real {
    if level <= 1 then 10.0 * 1048576.0 else 10.0 * MaxBytesForLevel(level - 1)
  }

  function Score(v: Version, level: nat): real
    requires |v.bytes| == NUM_LEVELS && level < NUM_LEVELS
  {
    if level == 0 then v.l0Files as real / L0_COMPACTION_TRIGGER as real
    else Ratio(v.bytes[level], MaxBytesForLevel(level))
  }

  function Ratio(n: nat, max: real): real {
    if max == 0.0 then 0.0 else n as real / max
  }

  /** The level most in need of compaction: the first one of highest score. */
  ghost predicate IsBest(v: Version, level: nat, score: real)
    requires |v.bytes| == NUM_LEVELS
  {
    && level < NUM_LEVELS - 1 && score == Score(v, level)
    && (forall k: nat :: k < level ==> Score(v, k) < score)
    && (forall k: nat :: level < k < NUM_LEVELS - 1 ==> Score(v, k) <= score)
  }

  /** The last level is never scored: nothing lies below it. */
  method Finalize(v: Version) returns (level: nat, score: real)
    requires |v.bytes| == NUM_LEVELS
    ensures IsBest(v, level, score)
  {
    hide Score;
    var bestLevel := -1;
    var best := -1.0;
    for i := 0 to NUM_LEVELS - 1
      invariant bestLevel == -1 ==> i == 0 && best == -1.0
      invariant bestLevel != -1 ==> 0 <= bestLevel < i && best == Score(v, bestLevel)
      invariant forall k: nat :: k < i ==> Score(v, k) <= best
      invariant forall k: nat :: k < bestLevel ==> Score(v, k) < best
    {
      var s := Score(v, i);
      ScorePositive(v, i);
      if s > best {
        bestLevel, best := i, s;
      }
    }
    level, score := bestLevel, best;
  }

  lemma MaxBytesPositive(level: nat)
    ensures MaxBytesForLevel(level) > 0.0
  {
  }

  lemma ScorePositive(v: Version, level: nat)
    requires |v.bytes| == NUM_LEVELS && level < NUM_LEVELS
    ensures Score(v, level) >= 0.0
  {
    MaxBytesPositive(level);
    hide MaxBytesForLevel;
    if level > 0 {
      RatioPositive(v.bytes[level], MaxBytesForLevel(level));
    }
  }

  lemma RatioPositive(n: nat, max: real)
    requires max > 0.0
    ensures Ratio(n, max) >= 0.0
  {
  }

  ghost predicate NeedsCompaction(v: Version) {
    |v.bytes| == NUM_LEVELS && (v.seekFile || exists level: nat, score: real :: IsBest(v, level, score) && score >= 1.0)
  }

  /** A version whose level 0 stops writes always asks for a compaction, whatever other level is
      the one picked. */
  lemma FullLevelZeroNeedsCompaction(v: Version)
    requires |v.bytes| == NUM_LEVELS && v.l0Files >= L0_COMPACTION_TRIGGER
    ensures NeedsCompaction(v)
  {
    var level := BestLevel(v, NUM_LEVELS - 2);
    assert Score(v, 0) >= 1.0;
    hide Score;
    assert Score(v, 0) <= Score(v, level);
    assert IsBest(v, level, Score(v, level));
  }

  lemma {:induction false} BestLevel(v: Version, last: nat) returns (level: nat)
    requires |v.bytes| == NUM_LEVELS && last < NUM_LEVELS - 1
    ensures level <= last
    ensures forall k: nat :: k < level ==> Score(v, k) < Score(v, level)
    ensures forall k: nat :: level < k <= last ==> Score(v, k) <= Score(v, level)
  {
    hide Score;
    if last == 0 {
      level := 0;
    } else {
      level := BestLevel(v, last - 1);
      if Score(v, last) > Score(v, level) {
        level := last;
      }
    }
  }

  function PowerOfTen(n: nat): nat {
    if n == 0 then 1 else 10 * PowerOfTen(n - 1)
  }

  /** 10 MiB on level 1, and ten times as much on each level below. */
  lemma {:induction false} LevelLimits(level: nat)
    requires level >= 1
    ensures MaxBytesForLevel(level) == (10485760 * PowerOfTen(level - 1)) as real
  {
    if level > 1 {
      LevelLimits(level - 1);
      var below: real := MaxBytesForLevel(level - 1);
      assert MaxBytesForLevel(level) == 10.0 * below;
    }
  }

  lemma SignOfProduct(x: real, m: real)
    requires m > 0.0
    ensures x * m >= 0.0 <==> x >= 0.0
  {
    if x < 0.0 {
      assert x * m < 0.0;
    }
  }

  lemma RatioReachesOne(n: nat, max: nat)
    requires max > 0
    ensures Ratio(n, max as real) >= 1.0 <==> n >= max
  {
    var r, m := n as real / max as real, max as real;
    assert (r - 1.0) * m == n as real - m;
    SignOfProduct(r - 1.0, m);
  }

  lemma {:induction false} PowerPositive(n: nat)
    ensures PowerOfTen(n) > 0
  {
    if n > 0 {
      PowerPositive(n - 1);
    }
  }

  /** Which versions ask for a compaction: those with a file that seeks have marked, with four files on
      the first level, or with 10 MiB times ten per level on one of the others but the last. */
  lemma NeedsCompactionExactly(v: Version)
    requires |v.bytes| == NUM_LEVELS
    ensures NeedsCompaction(v) <==> v.seekFile || v.l0Files >= 4 || exists level ::
                                      1 <= level <= 5 && v.bytes[level] >= 10485760 * PowerOfTen(level - 1)
  {
    var best := BestLevel(v, NUM_LEVELS - 2);
    assert IsBest(v, best, Score(v, best));
    forall level: nat | level < NUM_LEVELS - 1
      ensures Score(v, level) >= 1.0 <==> if level == 0 then v.l0Files >= 4
                                          else v.bytes[level] >= 10485760 * PowerOfTen(level - 1)
    {
      if level > 0 {
        LevelLimits(level);
        PowerPositive(level - 1);
        RatioReachesOne(v.bytes[level], 10485760 * PowerOfTen(level - 1));
      }
    }
    hide Score, PowerOfTen, IsBest;
    if v.l0Files >= 4 {
      BestIsHighest(v, best, 0);
    }
    if level :| 1 <= level <= 5 && v.bytes[level] >= 10485760 * PowerOfTen(level - 1) {
      BestIsHighest(v, best, level);
    }
    if level: nat, score: real :| IsBest(v, level, score) && score >= 1.0 {
      BestIsHighest(v, level, level);
    }
  }

  lemma BestIsHighest(v: Version, best: nat, level: nat)
    requires |v.bytes| == NUM_LEVELS && best < NUM_LEVELS && level < NUM_LEVELS - 1
    requires exists score: real :: IsBest(v, best, score)
    ensures best < NUM_LEVELS - 1 && Score(v, best) >= Score(v, level)
    ensures forall score: real :: IsBest(v, best, score) ==> score == Score(v, best)
  {
    hide Score;
    assert best == level || level < best || best < level;
  }

  // ------------------------------------------------------------------ the machine

  /** The writer at the head of the queue, while it makes room. */
  datatype Writer = Elsewhere | Checking | Asleep | Awake

  datatype State = State(
    scheduled: bool,
    queued: nat,
    running: nat,
    flushed: bool,
    imm: bool,
    memtableFull: bool,
    force: bool,
    version: Version,
    manual: bool,
    error: bool,
    shuttingDown: bool,
    writer: Writer)

  datatype Step =
    | MakeRoom(force: bool)
    | Check
    | WakeUp
    | Fill
    | SeekMarks
    | RequestManual
    | Start
    | ClearFlushed(version: Version)
    | SignalInPassing
    | InstallResult(version: Version)
    | FinishFlush(failed: bool)
    | FinishCompaction(version: Version, failed: bool, manualDone: bool)
    | FinishIdle
    | SyncError
    | ShutDown

  ghost predicate Work(st: State) {
    st.imm || st.manual || NeedsCompaction(st.version)
  }

  ghost function MaybeSchedule(st: State): State {
    if st.scheduled || st.shuttingDown || st.error || !Work(st) then st
    else st.(scheduled := true, queued := st.queued + 1)
  }

  function SignalAll(w: Writer): Writer {
    if w.Asleep? then Awake else w
  }

  function RecordError(st: State): State {
    if st.error then st else st.(error := true, writer := SignalAll(st.writer))
  }

  /** The end of a background call. */
  ghost function EndCall(st: State): State
    requires st.running > 0
  {
    var after := MaybeSchedule(st.(scheduled := false, running := st.running - 1, flushed := false));
    after.(writer := SignalAll(after.writer))
  }

  ghost predicate Next(st: State, st': State, step: Step) {
    match step
    case MakeRoom(force) =>
      st.writer.Elsewhere? && st' == st.(writer := Checking, force := force)
    case Check =>
      && st.writer.Checking?
      && if st.error || (!st.force && !st.memtableFull) then st' == st.(writer := Elsewhere)
         else if st.imm || st.version.l0Files >= L0_STOP_WRITES_TRIGGER then st' == st.(writer := Asleep)
         else st' == MaybeSchedule(st.(imm := true, memtableFull := false, force := false))
    case WakeUp =>
      // Signalled or not
      (st.writer.Awake? || st.writer.Asleep?) && st' == st.(writer := Checking)
    case Fill =>
      st.writer.Elsewhere? && st' == st.(memtableFull := true)
    case SeekMarks =>
      st' == MaybeSchedule(st.(version := st.version.(seekFile := true)))
    case RequestManual =>
      st' == MaybeSchedule(st.(manual := true))
    case Start =>
      st.queued > 0 && st' == st.(queued := st.queued - 1, running := st.running + 1)
    case ClearFlushed(version) =>
      // The memtable's table is in place; the mutex is given up to remove files before anyone is told
      && st.running > 0 && st.imm && |version.bytes| == NUM_LEVELS
      && st' == st.(imm := false, version := version, flushed := true)
    case SignalInPassing =>
      // A compaction that stopped to flush the memtable goes on
      st.running > 0 && st.flushed && st' == st.(flushed := false, writer := SignalAll(st.writer))
    case InstallResult(version) =>
      // Within a call, a new version is in place before the call ends
      && st.running > 0 && |version.bytes| == NUM_LEVELS && st' == st.(version := version)
    case FinishFlush(failed) =>
      && st.running > 0 && (if failed then st.imm else st.flushed)
      && st' == EndCall(if failed then RecordError(st) else st)
    case FinishCompaction(version, failed, manualDone) =>
      && st.running > 0 && |version.bytes| == NUM_LEVELS
      && st' == EndCall(if failed then RecordError(st) else st.(version := version, manual := st.manual && !manualDone))
    case FinishIdle =>
      st.running > 0 && (st.error || st.shuttingDown) && st' == EndCall(st)
    case SyncError =>
      st' == RecordError(st)
    case ShutDown =>
      st' == st.(shuttingDown := true)
  }

  ghost predicate Init(st: State) {
    && |st.version.bytes| == NUM_LEVELS
    && st == MaybeSchedule(State(false, 0, 0, false, false, false, false, st.version, false, false, false, Elsewhere))
  }

  ghost predicate Inv(st: State) {
    && |st.version.bytes| == NUM_LEVELS
    && st.queued + st.running == (if st.scheduled then 1 else 0)
    && (Work(st) ==> st.scheduled || st.error || st.shuttingDown)
    && (st.writer.Asleep? ==> st.scheduled || st.shuttingDown)
  }

  lemma InitInv(st: State)
    requires Init(st)
    ensures Inv(st)
  {
    hide NeedsCompaction;
  }

  lemma NextInv(st: State, st': State, step: Step)
    requires Inv(st) && Next(st, st', step)
    ensures Inv(st')
  {
    hide NeedsCompaction, MaybeSchedule, EndCall;
    match step
    case Check => CheckInv(st, st');
    case SeekMarks => MaybeScheduleInv(st.(version := st.version.(seekFile := true)));
    case RequestManual => MaybeScheduleInv(st.(manual := true));
    case FinishFlush(failed) => EndCallInv(if failed then RecordError(st) else st);
    case FinishCompaction(version, failed, manualDone) =>
      EndCallInv(if failed then RecordError(st) else st.(version := version, manual := st.manual && !manualDone));
    case FinishIdle => EndCallInv(st);
    case _ => OtherInv(st, st', step);
  }

  lemma OtherInv(st: State, st': State, step: Step)
    requires Inv(st) && Next(st, st', step)
    requires !step.Check? && !step.SeekMarks? && !step.RequestManual? && !step.FinishFlush? && !step.FinishCompaction?
             && !step.FinishIdle?
    ensures Inv(st')
  {
    hide NeedsCompaction, MaybeSchedule, EndCall;
  }

  lemma MaybeScheduleInv(st: State)
    requires |st.version.bytes| == NUM_LEVELS && st.queued + st.running == (if st.scheduled then 1 else 0)
    requires st.writer.Asleep? ==> st.scheduled || st.shuttingDown
    ensures Inv(MaybeSchedule(st))
  {
    hide NeedsCompaction;
  }

  lemma EndCallInv(st: State)
    requires st.running > 0 && |st.version.bytes| == NUM_LEVELS && st.queued + st.running == 1
    ensures Inv(EndCall(st)) && !EndCall(st).writer.Asleep?
  {
    hide NeedsCompaction;
  }

  lemma CheckInv(st: State, st': State)
    requires Inv(st) && Next(st, st', Check)
    ensures Inv(st')
  {
    if st.version.l0Files >= L0_STOP_WRITES_TRIGGER {
      FullLevelZeroNeedsCompaction(st.version);
    }
    hide NeedsCompaction;
  }

  ghost predicate IsRun(states: seq<State>, steps: seq<Step>) {
    && |states| == |steps| + 1
    && Init(states[0])
    && forall i: nat, next: nat :: i < |steps| && next == i + 1 ==> Next(states[i], states[next], steps[i])
  }

  lemma {:induction false} RunInv(states: seq<State>, steps: seq<Step>, i: nat)
    requires IsRun(states, steps) && i < |states|
    ensures Inv(states[i])
  {
    hide Inv, Next;
    if i == 0 {
      InitInv(states[0]);
    } else {
      RunInv(states, steps, i - 1);
      NextInv(states[i - 1], states[i], steps[i - 1]);
    }
  }

  /** Never more than one background call, waiting to run or running. */
  lemma AtMostOneCall(states: seq<State>, steps: seq<Step>, i: nat)
    requires IsRun(states, steps) && i < |states|
    ensures states[i].queued + states[i].running <= 1
    ensures states[i].queued + states[i].running == 1 <==> states[i].scheduled
  {
    RunInv(states, steps, i);
  }

  /** Whenever a writer sleeps until background work is done, a call is waiting to run or running
      that will wake it when it ends, or the database is shutting down. */
  lemma SleeperIsServed(states: seq<State>, steps: seq<Step>, i: nat)
    requires IsRun(states, steps) && i < |states| && states[i].writer.Asleep? && !states[i].shuttingDown
    ensures states[i].queued + states[i].running == 1
  {
    RunInv(states, steps, i);
  }

  predicate Finishes(step: Step) {
    step.FinishFlush? || step.FinishCompaction? || step.FinishIdle?
  }

  /** A writer sleeps through one call only: the call it waits for is the same all along, starts at
      most once, and has not ended, for its end would have woken the writer. */
  lemma {:induction false} SleepsThroughOneCall(states: seq<State>, steps: seq<Step>, i: nat, j: nat)
    requires IsRun(states, steps) && i <= j < |states| && !states[j].shuttingDown
    requires forall k :: i <= k <= j ==> states[k].writer.Asleep?
    ensures states[i].queued + states[i].running == 1 && states[j].queued + states[j].running == 1
    ensures states[j].queued <= states[i].queued
    ensures forall k :: i <= k < j ==> !Finishes(steps[k])
    decreases j
  {
    hide Inv, Next, NeedsCompaction, MaybeSchedule;
    RunInv(states, steps, j);
    assert Inv(states[j]);
    if i < j {
      RunInv(states, steps, j - 1);
      assert Next(states[j - 1], states[j], steps[j - 1]);
      StaysAsleep(states[j - 1], states[j], steps[j - 1]);
      SleepsThroughOneCall(states, steps, i, j - 1);
    }
    OneCall(states[j]);
  }

  lemma OneCall(st: State)
    requires Inv(st) && st.writer.Asleep? && !st.shuttingDown
    ensures st.queued + st.running == 1
  {
    hide NeedsCompaction;
  }

  lemma StaysAsleep(st: State, st': State, step: Step)
    requires Inv(st) && Next(st, st', step) && st.writer.Asleep? && st'.writer.Asleep? && !st'.shuttingDown
    ensures !Finishes(step) && !st.shuttingDown && st'.queued <= st.queued
  {
    hide NeedsCompaction;
  }

  /** A run of the background call's own steps. */
  ghost predicate CallPath(path: seq<State>, moves: seq<Step>) {
    && |path| == |moves| + 1
    && forall k: nat, next: nat :: k < |moves| && next == k + 1 ==>
         Next(path[k], path[next], moves[k]) && (moves[k].Start? || moves[k].ClearFlushed? || Finishes(moves[k]))
  }

  lemma PathFrom(st: State, move: Step, path: seq<State>, moves: seq<Step>)
    requires CallPath(path, moves) && Next(st, path[0], move) && (move.Start? || move.ClearFlushed? || Finishes(move))
    ensures CallPath([st] + path, [move] + moves)
  {
    hide Next;
  }

  lemma LastStep(st: State, move: Step, st': State)
    requires Next(st, st', move) && Finishes(move)
    ensures CallPath([st, st'], [move])
  {
    hide Next;
  }

  lemma RunningCallEnds(st: State) returns (path: seq<State>, moves: seq<Step>)
    requires Inv(st) && st.running > 0
    ensures |moves| <= 2 && CallPath(path, moves) && path[0] == st && !path[|moves|].writer.Asleep?
  {
    hide NeedsCompaction, MaybeSchedule, EndCall, CallPath;
    if st.imm {
      var cleared := st.(imm := false, flushed := true);
      EndCallInv(cleared);
      LastStep(cleared, FinishFlush(false), EndCall(cleared));
      PathFrom(st, ClearFlushed(st.version), [cleared, EndCall(cleared)], [FinishFlush(false)]);
      path, moves := [st] + [cleared, EndCall(cleared)], [ClearFlushed(st.version)] + [FinishFlush(false)];
    } else {
      EndCallInv(st);
      LastStep(st, FinishCompaction(st.version, false, false), EndCall(st));
      path, moves := [st, EndCall(st)], [FinishCompaction(st.version, false, false)];
    }
  }

  /** And that call can always go on to its end, in three steps of its own at most. */
  lemma CallCanEnd(states: seq<State>, steps: seq<Step>, i: nat) returns (path: seq<State>, moves: seq<Step>)
    requires IsRun(states, steps) && i < |states| && states[i].writer.Asleep? && !states[i].shuttingDown
    ensures |moves| <= 3 && CallPath(path, moves) && path[0] == states[i] && !path[|moves|].writer.Asleep?
  {
    hide NeedsCompaction, MaybeSchedule, EndCall, CallPath;
    RunInv(states, steps, i);
    var st := states[i];
    if st.queued > 0 {
      var started := st.(queued := st.queued - 1, running := st.running + 1);
      path, moves := RunningCallEnds(started);
      PathFrom(st, Start, path, moves);
      path, moves := [st] + path, [Start] + moves;
    } else {
      path, moves := RunningCallEnds(st);
    }
  }

  /** A writer facing a memtable it cannot switch, or too many files at level 0, finds work under way
      unless an error is recorded or the database is shutting down. */
  lemma BlockedMeansWorking(states: seq<State>, steps: seq<Step>, i: nat)
    requires IsRun(states, steps) && i < |states|
    requires states[i].imm || states[i].version.l0Files >= L0_STOP_WRITES_TRIGGER
    ensures states[i].scheduled || states[i].error || states[i].shuttingDown
  {
    RunInv(states, steps, i);
    if states[i].version.l0Files >= L0_STOP_WRITES_TRIGGER {
      FullLevelZeroNeedsCompaction(states[i].version);
    }
  }

  /** Work that is there is scheduled: a memtable to flush, a range somebody asked to have compacted, or a
      version that needs it, unless an error is recorded or the database is shutting down. */
  lemma WorkIsScheduled(states: seq<State>, steps: seq<Step>, i: nat)
    requires IsRun(states, steps) && i < |states| && !states[i].error && !states[i].shuttingDown
    requires states[i].imm || states[i].manual || NeedsCompaction(states[i].version)
    ensures states[i].scheduled && states[i].queued + states[i].running == 1
  {
    hide NeedsCompaction;
    RunInv(states, steps, i);
  }

  /** A writer that looks for room is let through only if the memtable has some, or because of an error; it
      switches memtables only when the last one is flushed and level 0 has fewer than twelve files; and
      otherwise it waits, for just one of these two reasons. */
  lemma WriterFindsRoom(st: State, st': State)
    requires Next(st, st', Check)
    ensures st'.writer.Elsewhere? ==> st'.error || !st'.memtableFull
    ensures st'.writer.Checking? ==> !st.error && !st.imm && st.version.l0Files < 12 && st'.imm && !st'.memtableFull
    ensures st'.writer.Asleep? ==> !st.error && (st.force || st.memtableFull) && (st.imm || st.version.l0Files >= 12)
    ensures !st'.writer.Awake?
  {
    hide NeedsCompaction;
  }
}
