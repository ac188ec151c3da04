/** The merge loop of a compaction and its cursor over the deeper levels. */
module CompactionWork {
  import opened InternalKeys
  import opened Files
  import opened CompactionMeaning

  /** An output table: its contents and the bounds recorded for the manifest. */
  datatype Output = Output(smallest: InternalKey, largest: InternalKey, entries: seq<Entry>) {
    predicate Ok() {
      && |entries| > 0
      && smallest == entries[0].key
      && largest == entries[|entries| - 1].key
    }
  }

  function Contents(outputs: seq<Output>): seq<Entry> {
    if outputs == [] then []
    else Contents(outputs[..|outputs| - 1]) + outputs[|outputs| - 1].entries
  }

  // ------------------------------------------------------------------ where outputs are cut

  /** The entries of the outputs that are closed, and of the one being built. */
  datatype Cutting = Cutting(closed: seq<seq<Entry>>, open: seq<Entry>)

  ghost function EntriesOf(outputs: seq<Output>): (parts: seq<seq<Entry>>)
    ensures |parts| == |outputs| && forall i :: 0 <= i < |outputs| ==> parts[i] == outputs[i].entries
  {
    seq(|outputs|, i requires 0 <= i < |outputs| => outputs[i].entries)
  }

  ghost function Closed(c: Cutting): Cutting {
    Cutting(c.closed + [c.open], [])
  }

  ghost function Taken(c: Cutting, e: Entry, isFull: seq<Entry> -> bool): Cutting {
    if isFull(c.open + [e]) then Closed(Cutting(c.closed, c.open + [e])) else Cutting(c.closed, c.open + [e])
  }

  /** What the first n inputs come to. */
  ghost function CutAfter(input: seq<Entry>, n: nat, smallestSnapshot: nat, base: UserKey -> bool,
      stopBefore: seq<bool>, isFull: seq<Entry> -> bool): Cutting
    requires n <= |input| == |stopBefore|
  {
    if n == 0 then Cutting([], [])
    else
      var c := CutAfter(input, n - 1, smallestSnapshot, base, stopBefore, isFull);
      var c1 := if stopBefore[n - 1] && c.open != [] then Closed(c) else c;
      if Dropped(input, n - 1, smallestSnapshot, base) then c1 else Taken(c1, input[n - 1], isFull)
  }

  ghost function AllParts(c: Cutting): seq<seq<Entry>> {
    if c.open == [] then c.closed else c.closed + [c.open]
  }

  /** No output goes on once it is full, and none holds entries from both sides of a place where the loop
      was told to stop. */
  ghost predicate CutRight(c: Cutting, input: seq<Entry>, n: nat, stopBefore: seq<bool>, isFull: seq<Entry> -> bool)
    requires n <= |input| == |stopBefore|
  {
    && (c.open != [] ==> !isFull(c.open))
    && (forall p :: p in AllParts(c) ==> p != [] && NotFullBefore(p, isFull) && Within(p, input, n))
    && (forall p, i :: p in AllParts(c) && 0 <= i < n && stopBefore[i] ==> OneSide(p, input[i].key))
    && (forall i :: 0 <= i < n && stopBefore[i] ==> NotBefore(c.open, input[i].key))
  }

  lemma {:induction false} CutsAreRight(input: seq<Entry>, n: nat, smallestSnapshot: nat, base: UserKey -> bool,
      stopBefore: seq<bool>, isFull: seq<Entry> -> bool)
    requires n <= |input| == |stopBefore| && Sorted(input)
    ensures CutRight(CutAfter(input, n, smallestSnapshot, base, stopBefore, isFull), input, n, stopBefore, isFull)
  {
    hide Dropped, Sorted, CutRight, Taken;
    if n == 0 {
      NothingCut(input, stopBefore, isFull);
    } else {
      CutsAreRight(input, n - 1, smallestSnapshot, base, stopBefore, isFull);
      var c := CutAfter(input, n - 1, smallestSnapshot, base, stopBefore, isFull);
      var c1 := if stopBefore[n - 1] && c.open != [] then Closed(c) else c;
      StopIsRight(c, input, n, stopBefore, isFull);
      TakeIsRight(c1, input, n, stopBefore, isFull);
    }
  }

  /** The loop was told to stop somewhere after all of p and before all of q. */
  ghost predicate Asked(p: seq<Entry>, q: seq<Entry>, input: seq<Entry>, n: nat, stopBefore: seq<bool>)
    requires n <= |input| == |stopBefore|
  {
    exists i :: 0 <= i < n && stopBefore[i] && AllBefore(p, input[i].key) && NotBefore(q, input[i].key)
  }

  /** Every output but the one being built is full, or ends where the loop was told to stop. */
  ghost predicate CutForCause(c: Cutting, input: seq<Entry>, n: nat, stopBefore: seq<bool>, isFull: seq<Entry> -> bool)
    requires n <= |input| == |stopBefore|
  {
    forall k :: 0 <= k < |c.closed| ==> isFull(c.closed[k]) || Asked(c.closed[k], Following(c, k), input, n, stopBefore)
  }

  ghost function Following(c: Cutting, k: nat): seq<Entry>
    requires k < |c.closed|
  {
    if k + 1 < |c.closed| then c.closed[k + 1] else c.open
  }

  lemma {:induction false} CutsHaveCause(input: seq<Entry>, n: nat, smallestSnapshot: nat, base: UserKey -> bool,
      stopBefore: seq<bool>, isFull: seq<Entry> -> bool)
    requires n <= |input| == |stopBefore| && Sorted(input)
    ensures CutForCause(CutAfter(input, n, smallestSnapshot, base, stopBefore, isFull), input, n, stopBefore, isFull)
  {
    hide Dropped, Sorted, CutRight, Taken, CutForCause;
    if n == 0 {
      NothingCut(input, stopBefore, isFull);
    } else {
      CutsHaveCause(input, n - 1, smallestSnapshot, base, stopBefore, isFull);
      CutsAreRight(input, n - 1, smallestSnapshot, base, stopBefore, isFull);
      var c := CutAfter(input, n - 1, smallestSnapshot, base, stopBefore, isFull);
      var c1 := if stopBefore[n - 1] && c.open != [] then Closed(c) else c;
      StopHasCause(c, input, n, stopBefore, isFull);
      TakeHasCause(c1, input, n, stopBefore, isFull);
    }
  }

  lemma StopHasCause(c: Cutting, input: seq<Entry>, n: nat, stopBefore: seq<bool>, isFull: seq<Entry> -> bool)
    requires 0 < n <= |input| == |stopBefore| && Sorted(input)
    requires CutRight(c, input, n - 1, stopBefore, isFull) && CutForCause(c, input, n - 1, stopBefore, isFull)
    ensures CutForCause(if stopBefore[n - 1] && c.open != [] then Closed(c) else c, input, n, stopBefore, isFull)
  {
    hide NotFullBefore, Within, OneSide, NotBefore, AllBefore, Sorted;
    var c1 := if stopBefore[n - 1] && c.open != [] then Closed(c) else c;
    if c1 != c {
      assert c.open in AllParts(c);
      AllEarlier(c.open, input, n - 1);
      NothingHeld(input, n, isFull);
    }
    forall k | 0 <= k < |c1.closed| && !isFull(c1.closed[k])
      ensures Asked(c1.closed[k], Following(c1, k), input, n, stopBefore)
    {
      if k < |c.closed| {
        assert c1.closed[k] == c.closed[k] && Following(c1, k) == Following(c, k);
      } else {
        assert AllBefore(c1.closed[k], input[n - 1].key) && NotBefore(Following(c1, k), input[n - 1].key);
      }
    }
  }

  lemma TakeHasCause(c: Cutting, input: seq<Entry>, n: nat, stopBefore: seq<bool>, isFull: seq<Entry> -> bool)
    requires 0 < n <= |input| == |stopBefore| && Sorted(input) && CutForCause(c, input, n, stopBefore, isFull)
    ensures CutForCause(Taken(c, input[n - 1], isFull), input, n, stopBefore, isFull)
  {
    hide NotBefore, AllBefore, Sorted;
    var longer := c.open + [input[n - 1]];
    var c1 := Taken(c, input[n - 1], isFull);
    forall k | 0 <= k < |c1.closed| && !isFull(c1.closed[k])
      ensures Asked(c1.closed[k], Following(c1, k), input, n, stopBefore)
    {
      assert c1.closed[k] == c.closed[k];
      var i :| 0 <= i < n && stopBefore[i] && AllBefore(c.closed[k], input[i].key)
               && NotBefore(Following(c, k), input[i].key);
      StillBehind(c.open, input, i, n);
      assert Following(c1, k) == Following(c, k) || (Following(c, k) == c.open && Following(c1, k) == longer);
    }
  }

  lemma StillBehind(p: seq<Entry>, input: seq<Entry>, i: nat, n: nat)
    requires Sorted(input) && i < n <= |input|
    ensures NotBefore(p, input[i].key) ==> NotBefore(p + [input[n - 1]], input[i].key)
  {
    LessIsStrictTotalOrder(input[n - 1].key, input[i].key, input[n - 1].key);
  }

  lemma NothingCut(input: seq<Entry>, stopBefore: seq<bool>, isFull: seq<Entry> -> bool)
    requires |input| == |stopBefore|
    ensures CutRight(Cutting([], []), input, 0, stopBefore, isFull)
    ensures CutForCause(Cutting([], []), input, 0, stopBefore, isFull)
  {
  }

  /** The output is closed where the loop is told to stop. */
  lemma StopIsRight(c: Cutting, input: seq<Entry>, n: nat, stopBefore: seq<bool>, isFull: seq<Entry> -> bool)
    requires 0 < n <= |input| == |stopBefore| && Sorted(input) && CutRight(c, input, n - 1, stopBefore, isFull)
    ensures CutRight(if stopBefore[n - 1] && c.open != [] then Closed(c) else c, input, n, stopBefore, isFull)
  {
    hide NotFullBefore, Within, NotBefore, AllBefore, Sorted;
    var c1 := if stopBefore[n - 1] && c.open != [] then Closed(c) else c;
    assert AllParts(c1) == AllParts(c);
    forall p | p in AllParts(c)
      ensures Within(p, input, n) && OneSide(p, input[n - 1].key)
    {
      AllEarlier(p, input, n - 1);
    }
    NothingHeld(input, n, isFull);
  }

  lemma TakeIsRight(c: Cutting, input: seq<Entry>, n: nat, stopBefore: seq<bool>, isFull: seq<Entry> -> bool)
    requires 0 < n <= |input| == |stopBefore| && Sorted(input) && CutRight(c, input, n, stopBefore, isFull)
    requires stopBefore[n - 1] ==> c.open == []
    ensures CutRight(Taken(c, input[n - 1], isFull), input, n, stopBefore, isFull)
  {
    hide NotFullBefore, Within, OneSide, NotBefore, AllBefore, Sorted;
    var longer := c.open + [input[n - 1]];
    NothingHeld(input, n, isFull);
    assert c.open != [] ==> c.open in AllParts(c);
    LongerPart(c.open, input, n, isFull);
    forall i | 0 <= i < n && stopBefore[i]
      ensures NotBefore(longer, input[i].key) && OneSide(longer, input[i].key)
    {
      StillNotBefore(c.open, input, i, n);
    }
    assert AllParts(Taken(c, input[n - 1], isFull)) == c.closed + [longer];
    assert forall p :: p in c.closed ==> p in AllParts(c);
  }

  lemma NothingHeld(input: seq<Entry>, n: nat, isFull: seq<Entry> -> bool)
    requires n <= |input|
    ensures NotFullBefore([], isFull) && Within([], input, n) && forall key :: NotBefore([], key)
  {
  }

  /** No proper beginning of the output is full. */
  ghost predicate NotFullBefore(p: seq<Entry>, isFull: seq<Entry> -> bool) {
    forall k :: 0 < k < |p| ==> !isFull(p[..k])
  }

  ghost predicate Within(p: seq<Entry>, input: seq<Entry>, n: nat)
    requires n <= |input|
  {
    forall x :: x in p ==> x in input[..n]
  }

  ghost predicate OneSide(p: seq<Entry>, key: InternalKey) {
    AllBefore(p, key) || NotBefore(p, key)
  }

  ghost predicate AllBefore(p: seq<Entry>, key: InternalKey) {
    forall x :: x in p ==> Less(x.key, key)
  }

  ghost predicate NotBefore(p: seq<Entry>, key: InternalKey) {
    forall x :: x in p ==> !Less(x.key, key)
  }

  lemma AllEarlier(p: seq<Entry>, input: seq<Entry>, n: nat)
    requires Sorted(input) && n < |input| && Within(p, input, n)
    ensures Within(p, input, n + 1) && AllBefore(p, input[n].key)
  {
    forall x | x in p
      ensures x in input[..n + 1] && Less(x.key, input[n].key)
    {
      var k :| 0 <= k < n && input[..n][k] == x;
      assert input[..n + 1][k] == x && input[k] == x;
    }
  }

  lemma LongerPart(p: seq<Entry>, input: seq<Entry>, n: nat, isFull: seq<Entry> -> bool)
    requires 0 < n <= |input| && Within(p, input, n) && NotFullBefore(p, isFull) && (p != [] ==> !isFull(p))
    ensures NotFullBefore(p + [input[n - 1]], isFull) && Within(p + [input[n - 1]], input, n)
  {
    var longer := p + [input[n - 1]];
    forall k | 0 < k < |longer|
      ensures !isFull(longer[..k])
    {
      assert longer[..k] == p[..k] && p[..|p|] == p;
    }
    assert input[..n][n - 1] == input[n - 1];
  }

  lemma StillNotBefore(p: seq<Entry>, input: seq<Entry>, i: nat, n: nat)
    requires Sorted(input) && i < n <= |input|
    requires if i < n - 1 then NotBefore(p, input[i].key) else p == []
    ensures NotBefore(p, input[i].key) && NotBefore(p + [input[n - 1]], input[i].key)
    ensures OneSide(p + [input[n - 1]], input[i].key)
  {
    LessIsStrictTotalOrder(input[n - 1].key, input[i].key, input[n - 1].key);
  }

  class Compaction {
    const level: nat
    const inputVersion: Version
    /** For each level below the output level, how many of its files end before every user key
        asked about so far. */
    const levelPtrs: array<nat>

    constructor (level: nat, inputVersion: Version)
      requires level + 1 < NUM_LEVELS && LevelsOk(inputVersion)
      ensures this.level == level && this.inputVersion == inputVersion
      ensures fresh(levelPtrs) && Valid() && forall u :: Passed(u)
    {
      this.level := level;
      this.inputVersion := inputVersion;
      levelPtrs := new nat[NUM_LEVELS](_ => 0);
    }

    ghost predicate Valid()
      reads this, levelPtrs
    {
      && level + 1 < NUM_LEVELS
      && LevelsOk(inputVersion)
      && levelPtrs.Length == NUM_LEVELS
      && forall lvl :: 0 <= lvl < NUM_LEVELS ==> levelPtrs[lvl] <= |inputVersion[lvl]|
    }

    /** Every file the cursor has left behind ends before u. */
    ghost predicate Passed(u: UserKey)
      requires Valid()
      reads this, levelPtrs
    {
      forall lvl, i :: level + 2 <= lvl < NUM_LEVELS && 0 <= i < levelPtrs[lvl]
        ==> inputVersion[lvl][i].largest.user < u
    }

    /** The cursor walks each deeper level once over the whole compaction, yet answers as a scan of
        all the deeper files would, as long as user keys are asked about in order. */
    method IsBaseLevelForKey(u: UserKey) returns (base: bool)
      requires Valid() && Passed(u)
      modifies levelPtrs
      ensures Valid() && Passed(u)
      ensures base <==> BaseLevel(inputVersion, level, u)
      ensures base <==> forall deeper, i :: level + 2 <= deeper < NUM_LEVELS && 0 <= i < |inputVersion[deeper]| ==>
                u < inputVersion[deeper][i].smallest.user || inputVersion[deeper][i].largest.user < u
    {
      var lvl := level + 2;
      while lvl < NUM_LEVELS
        invariant level + 2 <= lvl
        invariant Valid() && Passed(u)
        invariant forall deeper, i :: level + 2 <= deeper < lvl && deeper < NUM_LEVELS
                                      && 0 <= i < |inputVersion[deeper]|
                    ==> !inputVersion[deeper][i].Covers(u)
      {
        var files := inputVersion[lvl];
        while levelPtrs[lvl] < |files|
          invariant Valid() && Passed(u)
          decreases |files| - levelPtrs[lvl]
        {
          var f := files[levelPtrs[lvl]];
          if u <= f.largest.user {
            // This file ends at or after the key
            if u >= f.smallest.user {
              return false;
            }
            LaterFilesBegin(lvl, levelPtrs[lvl], u);
            break;
          }
          levelPtrs[lvl] := levelPtrs[lvl] + 1;
        }
        lvl := lvl + 1;
      }
      return true;
    }

    lemma LaterFilesBegin(lvl: nat, p: nat, u: UserKey)
      requires LevelsOk(inputVersion) && 1 <= lvl < NUM_LEVELS && p < |inputVersion[lvl]|
      requires u < inputVersion[lvl][p].smallest.user
      ensures forall i :: p <= i < |inputVersion[lvl]| ==> u < inputVersion[lvl][i].smallest.user
    {
      var files := inputVersion[lvl];
      EntryWithinFile(files[p], files[p].entries[0]);
      forall i | p < i < |files|
        ensures u < files[i].smallest.user
      {
        assert Less(files[p].largest, files[i].smallest);
      }
    }
  }

  /** What the loop meets on its way: whether the database is found shutting down at its n-th test,
      whether the n-th output file can be opened and finished, and whether the inputs could be read. */
  datatype Surroundings = Surroundings(shuttingDown: nat -> bool, opens: nat -> bool, finishes: nat -> bool,
    inputOk: bool)
  {
    ghost predicate AllWell() {
      (forall n :: !shuttingDown(n) && opens(n) && finishes(n)) && inputOk
    }
  }

  /** The outputs written so far and the one being built. */
  class CompactionState {
    const smallestSnapshot: nat
    var outputs: seq<Output>
    var builder: seq<Entry>
    var smallest: InternalKey
    var largest: InternalKey

    constructor (smallestSnapshot: nat)
      ensures this.smallestSnapshot == smallestSnapshot
      ensures Valid() && Written() == [] && builder == [] && Parts() == Cutting([], []) && forall env :: AllStored(env)
    {
      this.smallestSnapshot := smallestSnapshot;
      outputs, builder := [], [];
      smallest, largest := SeekKey(0, 0), SeekKey(0, 0);
    }

    ghost predicate Valid()
      reads this
    {
      && (forall o :: o in outputs ==> o.Ok())
      && (builder != [] ==> Output(smallest, largest, builder).Ok())
    }

    ghost function Written(): seq<Entry>
      reads this
    {
      Contents(outputs) + builder
    }

    /** The entries of the outputs that are closed, and of the one being built. */
    ghost function Parts(): Cutting
      reads this
    {
      Cutting(EntriesOf(outputs), builder)
    }

    /** Every output so far could be opened, and every closed one be finished. */
    ghost predicate AllStored(env: Surroundings)
      reads this
    {
      && (forall n: nat :: n < |outputs| ==> env.opens(n) && env.finishes(n))
      && (builder != [] ==> env.opens(|outputs|))
    }

    method Add(e: Entry)
      requires Valid()
      modifies this
      ensures Valid() && Written() == old(Written()) + [e] && builder == old(builder) + [e] && outputs == old(outputs)
    {
      if builder == [] {
        smallest := e.key;
      }
      largest := e.key;
      builder := builder + [e];
    }

    method FinishCompactionOutputFile(env: Surroundings) returns (ok: bool)
      requires Valid() && builder != []
      modifies this
      ensures Valid() && Written() == old(Written()) && ok == env.finishes(|old(outputs)|)
      ensures |outputs| == |old(outputs)| + (if ok then 1 else 0)
      ensures Parts() == if ok then Closed(old(Parts())) else old(Parts())
    {
      ok := env.finishes(|outputs|);
      if ok {
        ghost var before := outputs;
        outputs := outputs + [Output(smallest, largest, builder)];
        assert outputs[..|before|] == before;
        builder := [];
      }
    }

    /** Opens an output for the entry if there is none, and closes it when it is big enough. */
    method Keep(e: Entry, isFull: seq<Entry> -> bool, env: Surroundings) returns (ok: bool)
      requires Valid()
      modifies this
      ensures Valid() && (Written() == old(Written()) + [e] || (!ok && Written() == old(Written())))
      ensures ok <==> (old(builder) == [] ==> env.opens(|old(outputs)|))
                      && (isFull(old(builder) + [e]) ==> env.finishes(|old(outputs)|))
      ensures ok ==> Parts() == Taken(old(Parts()), e, isFull)
    {
      if builder == [] && !env.opens(|outputs|) {
        return false;
      }
      Add(e);
      ok := true;
      if isFull(builder) {
        ok := FinishCompactionOutputFile(env);
      }
    }
  }

  /** The loop variables that decide whether an entry is dropped. */
  class DropState {
    var hasCurrentUserKey: bool
    var currentUserKey: UserKey
    var lastSequenceForKey: nat

    constructor ()
      ensures forall input :: Describes(input, 0)
    {
      hasCurrentUserKey, currentUserKey, lastSequenceForKey := false, 0, MAX_SEQUENCE;
    }

    /** The state summarises the entry just before position i and nothing else. */
    ghost predicate Describes(input: seq<Entry>, i: nat)
      requires i <= |input|
      reads this
    {
      if i > 0 && input[i - 1].key.Parses()
      then hasCurrentUserKey && currentUserKey == input[i - 1].key.user
           && lastSequenceForKey == input[i - 1].key.sequence
      else !hasCurrentUserKey && lastSequenceForKey == MAX_SEQUENCE
    }

    method ShouldDrop(c: Compaction, input: seq<Entry>, i: nat, smallestSnapshot: nat) returns (drop: bool)
      requires c.Valid() && i < |input| && c.Passed(input[i].key.user)
      requires Describes(input, i) && smallestSnapshot < MAX_SEQUENCE
      modifies this, c.levelPtrs
      ensures c.Valid() && c.Passed(input[i].key.user)
      ensures Describes(input, i + 1)
      ensures drop <==> Dropped(input, i, smallestSnapshot, BaseTest(c.inputVersion, c.level))
      ensures Sorted(input) ==>
                (drop <==> !CarriedOver(input, input[i], smallestSnapshot, BaseTest(c.inputVersion, c.level)))
    {
      var ikey := input[i].key;
      drop := false;
      if !ikey.Parses() {
        // A key that does not parse is kept
        hasCurrentUserKey := false;
        lastSequenceForKey := MAX_SEQUENCE;
      } else {
        if !hasCurrentUserKey || ikey.user != currentUserKey {
          // A new user key begins
          currentUserKey := ikey.user;
          hasCurrentUserKey := true;
          lastSequenceForKey := MAX_SEQUENCE;
        }
        if lastSequenceForKey <= smallestSnapshot {
          drop := true;  // (A)
        } else if ikey.kind == TYPE_DELETION && ikey.sequence <= smallestSnapshot {
          drop := c.IsBaseLevelForKey(ikey.user);
        }
        lastSequenceForKey := ikey.sequence;
      }
      if Sorted(input) {
        NeighbourDecides(input, i, smallestSnapshot);
      }
    }
  }

  ghost function BaseTest(v: Version, level: nat): UserKey -> bool
    requires |v| == NUM_LEVELS
  {
    u => BaseLevel(v, level, u)
  }

  lemma {:induction false} SurvivorsGrow(input: seq<Entry>, i: nat, n: nat, smallestSnapshot: nat,
      base: UserKey -> bool)
    requires i <= n <= |input|
    ensures Survivors(input, i, smallestSnapshot, base) <= Survivors(input, n, smallestSnapshot, base)
    decreases n
  {
    hide Dropped;
    if i < n {
      SurvivorsGrow(input, i, n - 1, smallestSnapshot, base);
    }
  }

  lemma SurvivorsNext(input: seq<Entry>, i: nat, smallestSnapshot: nat, base: UserKey -> bool)
    requires i < |input|
    ensures Survivors(input, i + 1, smallestSnapshot, base)
         == Survivors(input, i, smallestSnapshot, base)
           + (if Dropped(input, i, smallestSnapshot, base) then [] else [input[i]])
    ensures Survivors(input, i, smallestSnapshot, base) <= Kept(input, smallestSnapshot, base)
    ensures Survivors(input, i + 1, smallestSnapshot, base) <= Kept(input, smallestSnapshot, base)
  {
    SurvivorsGrow(input, i, |input|, smallestSnapshot, base);
    SurvivorsGrow(input, i + 1, |input|, smallestSnapshot, base);
  }

  lemma CutNext(input: seq<Entry>, i: nat, smallestSnapshot: nat, base: UserKey -> bool, stopBefore: seq<bool>,
      isFull: seq<Entry> -> bool)
    requires i < |input| == |stopBefore|
    ensures var c := CutAfter(input, i, smallestSnapshot, base, stopBefore, isFull);
            var c1 := if stopBefore[i] && c.open != [] then Closed(c) else c;
            CutAfter(input, i + 1, smallestSnapshot, base, stopBefore, isFull)
            == if Dropped(input, i, smallestSnapshot, base) then c1 else Taken(c1, input[i], isFull)
  {
    hide Dropped;
  }

  lemma PassedLater(c: Compaction, u: UserKey, later: UserKey)
    requires c.Valid() && c.Passed(u) && u <= later
    ensures c.Passed(later)
  {
  }

  lemma NothingYet(input: seq<Entry>, smallestSnapshot: nat, base: UserKey -> bool, stopBefore: seq<bool>,
      isFull: seq<Entry> -> bool)
    requires |input| == |stopBefore|
    ensures Survivors(input, 0, smallestSnapshot, base) == []
    ensures CutAfter(input, 0, smallestSnapshot, base, stopBefore, isFull) == Cutting([], [])
  {
  }

  lemma PrefixOfPrefix(a: seq<Entry>, b: seq<Entry>, c: seq<Entry>)
    requires a + b <= c
    ensures a <= c
  {
    assert a == (a + b)[..|a|];
  }

  /** One entry of the merged inputs: the output so far may be closed, and the entry is dropped or
      kept. */
  method TakeEntry(c: Compaction, compact: CompactionState, state: DropState, input: seq<Entry>, i: nat,
      smallestSnapshot: nat, stop: bool, ghost stopBefore: seq<bool>, isFull: seq<Entry> -> bool, env: Surroundings)
    returns (ok: bool)
    requires i < |input| && Sorted(input) && smallestSnapshot < MAX_SEQUENCE
    requires c.Valid() && c.Passed(input[i].key.user) && compact.Valid() && state.Describes(input, i)
    requires compact.Written() == Survivors(input, i, smallestSnapshot, BaseTest(c.inputVersion, c.level))
    requires |stopBefore| == |input| && stop == stopBefore[i] && compact.AllStored(env)
    requires compact.Parts() == CutAfter(input, i, smallestSnapshot, BaseTest(c.inputVersion, c.level), stopBefore,
             isFull)
    modifies c.levelPtrs, compact, state
    ensures c.Valid() && compact.Valid() && (env.AllWell() ==> ok)
    ensures compact.Written() <= Kept(input, smallestSnapshot, BaseTest(c.inputVersion, c.level))
    ensures ok ==> compact.Written() == Survivors(input, i + 1, smallestSnapshot, BaseTest(c.inputVersion, c.level))
    ensures ok ==> state.Describes(input, i + 1) && (i + 1 < |input| ==> c.Passed(input[i + 1].key.user))
    ensures ok ==> compact.AllStored(env)
    ensures ok ==> compact.Parts() == CutAfter(input, i + 1, smallestSnapshot, BaseTest(c.inputVersion, c.level),
                     stopBefore, isFull)
  {
    hide FilesOk, DisjointSorted, BaseLevel, Dropped, Survivors, Contents, DropState.Describes, Compaction.Passed,
         CarriedOver, CutAfter;
    SurvivorsNext(input, i, smallestSnapshot, BaseTest(c.inputVersion, c.level));
    CutNext(input, i, smallestSnapshot, BaseTest(c.inputVersion, c.level), stopBefore, isFull);
    ok := true;
    if stop && compact.builder != [] {
      ok := compact.FinishCompactionOutputFile(env);
    }
    if ok {
      var drop := state.ShouldDrop(c, input, i, smallestSnapshot);
      if !drop {
        ok := compact.Keep(input[i], isFull, env);
      }
      if i + 1 < |input| {
        assert Less(input[i].key, input[i + 1].key);
        PassedLater(c, input[i].key.user, input[i + 1].key.user);
      }
    }
  }

  /** The loop over the merged inputs.  `stopBefore` and `isFull` stand for the decisions to close
      an output early (too much overlap two levels down) or when it has grown big enough; where
      outputs are cut never changes which entries they hold.  A compaction that is cut short holds
      only the first of them, and says so. */
  method DoCompactionWork(c: Compaction, input: seq<Entry>, smallestSnapshot: nat,
                          stopBefore: seq<bool>, isFull: seq<Entry> -> bool, env: Surroundings)
    returns (outputs: seq<Output>, ok: bool)
    requires c.Valid() && forall u :: c.Passed(u)
    requires Sorted(input) && |stopBefore| == |input|
    requires smallestSnapshot < MAX_SEQUENCE
    modifies c.levelPtrs
    ensures ok ==> Contents(outputs) == Kept(input, smallestSnapshot, BaseTest(c.inputVersion, c.level))
    ensures ok ==> forall e :: e in Contents(outputs) <==>
              CarriedOver(input, e, smallestSnapshot, BaseTest(c.inputVersion, c.level))
    ensures Contents(outputs) <= Kept(input, smallestSnapshot, BaseTest(c.inputVersion, c.level))
    ensures forall o :: o in outputs ==> o.Ok()
    ensures env.AllWell() ==> ok
    ensures ok ==> forall n: nat :: n < |outputs| ==> env.opens(n) && env.finishes(n)
    ensures ok ==> EntriesOf(outputs) == AllParts(CutAfter(input, |input|, smallestSnapshot,
                     BaseTest(c.inputVersion, c.level), stopBefore, isFull))
    ensures ok ==> env.inputOk && forall n: nat :: n <= |input| ==> !env.shuttingDown(n)
  {
    hide FilesOk, DisjointSorted, BaseLevel, Dropped, Survivors, Contents, DropState.Describes, Compaction.Passed,
         CarriedOver, CutAfter, Taken, EntriesOf;
    ghost var base := BaseTest(c.inputVersion, c.level);
    ghost var kept := Kept(input, smallestSnapshot, base);
    SurvivorsGrow(input, 0, |input|, smallestSnapshot, base);
    NothingYet(input, smallestSnapshot, base, stopBefore, isFull);
    var compact := new CompactionState(smallestSnapshot);
    var state := new DropState();
    var i := 0;
    ok := true;
    while i < |input| && !env.shuttingDown(i) && ok
      invariant 0 <= i <= |input| && (env.AllWell() ==> ok)
      invariant forall n: nat :: n < i ==> !env.shuttingDown(n)
      invariant c.Valid() && compact.Valid() && fresh(compact) && fresh(state)
      invariant ok ==> state.Describes(input, i) && (i < |input| ==> c.Passed(input[i].key.user))
      invariant ok ==> compact.Written() == Survivors(input, i, smallestSnapshot, base)
      invariant ok ==> compact.AllStored(env)
                       && compact.Parts() == CutAfter(input, i, smallestSnapshot, base, stopBefore, isFull)
      invariant compact.Written() <= kept
      decreases |input| - i, ok
    {
      ok := TakeEntry(c, compact, state, input, i, smallestSnapshot, stopBefore[i], stopBefore, isFull, env);
      i := if ok then i + 1 else i;
    }
    ok := ok && !env.shuttingDown(i);
    if ok && compact.builder != [] {
      ok := compact.FinishCompactionOutputFile(env);
    }
    ok := ok && env.inputOk;
    outputs := compact.outputs;
    KeptExactly(input, smallestSnapshot, base);
    PrefixOfPrefix(Contents(outputs), compact.builder, kept);
  }
}
