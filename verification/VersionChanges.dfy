/** How a flush or a compaction changes the levels, and why the level invariants survive. */
module VersionChanges {
  import opened Options
  import opened InternalKeys
  import opened Reads
  import opened Files
  import opened InputSelection
  import opened CompactionInputs
  import opened PointLookup

  /** The order in which a new version lists the files of a level. */
  predicate BySmallest(fs: seq<File>) {
    forall i, j :: 0 <= i < j < |fs| ==> SmallestBefore(fs[i], fs[j])
  }

  predicate SmallestBefore(f: File, g: File) {
    Less(f.smallest, g.smallest) || (f.smallest == g.smallest && f.number < g.number)
  }

  /** A level after an edit: the old files less the deleted ones plus the added ones, in order. */
  ghost predicate EditedLevel(before: seq<File>, after: seq<File>, minus: set<File>, plus: set<File>) {
    && (forall f :: f in after <==> (f in before && f !in minus) || f in plus)
    && BySmallest(after)
  }

  predicate Apart(f: File, g: File) {
    f == g || Less(f.largest, g.smallest) || Less(g.largest, f.smallest)
  }

  /** A listing by smallest key of files that lie apart is a sorted level. */
  lemma ApartIsDisjoint(fs: seq<File>)
    requires FilesOk(fs) && BySmallest(fs)
    requires forall f, g :: f in fs && g in fs ==> Apart(f, g)
    ensures DisjointSorted(fs)
  {
    forall i, j | 0 <= i < j < |fs|
      ensures Less(fs[i].largest, fs[j].smallest)
    {
      assert SmallestBefore(fs[i], fs[j]);
      assert Apart(fs[i], fs[j]);
      FileOrder(fs[j]);
    }
  }

  lemma DisjointIsApart(fs: seq<File>)
    requires DisjointSorted(fs)
    ensures forall f, g :: f in fs && g in fs ==> Apart(f, g)
  {
    forall f, g | f in fs && g in fs
      ensures Apart(f, g)
    {
      OneSide(fs, f, g);
    }
  }

  /** Every table in the store has a number of its own. */
  ghost predicate NumbersDistinct(v: Version) {
    forall p, q, f, g :: 0 <= p < |v| && 0 <= q < |v| && f in v[p] && g in v[q] && f.number == g.number
      ==> p == q && f == g
  }

  ghost predicate NumbersBelow(v: Version, next: nat) {
    forall p, f :: 0 <= p < |v| && f in v[p] ==> f.number < next
  }

  // ------------------------------------------------------------------ flushing a memtable

  /** A level that a flushed memtable may be pushed down to. */
  ghost predicate FlushLevelOk(v: Version, level: nat, lo: UserKey, hi: UserKey)
    requires |v| == NUM_LEVELS
  {
    && level <= MAX_MEM_COMPACT_LEVEL
    && (level > 0 ==> forall p, i :: 0 <= p <= level && 0 <= i < |v[p]| ==> !v[p][i].Overlaps(lo, hi))
  }

  ghost predicate Untouched(files: seq<File>, lo: UserKey, hi: UserKey) {
    forall i :: 0 <= i < |files| ==> !files[i].Overlaps(lo, hi)
  }

  /** The next level down is not in the way, and not too much lies on the one below that. */
  ghost predicate MayPushDown(v: Version, level: nat, lo: UserKey, hi: UserKey, limit: nat)
    requires level + 2 < |v|
  {
    Untouched(v[level + 1], lo, hi) && TotalFileSize(Overlapping(v[level + 2], Some(lo), Some(hi))) <= limit
  }

  /** Nothing on the next level has a user key in the range, and what lies under it two levels down adds up
      to no more than the limit. */
  lemma {:induction false} MayPushDownExactly(v: Version, level: nat, lo: UserKey, hi: UserKey, limit: nat,
      under: seq<nat>)
    requires level + 2 < |v| && |under| == |v[level + 2]|
    requires forall i :: 0 <= i < |under| ==>
               under[i] == if hi < v[level + 2][i].smallest.user || v[level + 2][i].largest.user < lo then 0
                 else v[level + 2][i].size
    ensures MayPushDown(v, level, lo, hi, limit) <==>
              && (forall f :: f in v[level + 1] ==> f.largest.user < lo || hi < f.smallest.user)
              && Sum(under) <= limit
  {
    OverlappingSize(v[level + 2], lo, hi, under);
    hide Overlapping, TotalFileSize, Sum;
  }

  function Sum(ns: seq<nat>): nat {
    if ns == [] then 0 else Sum(ns[..|ns| - 1]) + ns[|ns| - 1]
  }

  lemma {:induction false} OverlappingSize(files: seq<File>, lo: UserKey, hi: UserKey, under: seq<nat>)
    requires |under| == |files|
    requires forall i :: 0 <= i < |under| ==>
               under[i] == if hi < files[i].smallest.user || files[i].largest.user < lo then 0 else files[i].size
    ensures TotalFileSize(Overlapping(files, Some(lo), Some(hi))) == Sum(under)
  {
    if files != [] {
      var n := |files| - 1;
      OverlappingSize(files[..n], lo, hi, under[..n]);
      var front := Overlapping(files[..n], Some(lo), Some(hi));
      OneMoreSize(front, files[n]);
      assert under[..n] + [under[n]] == under;
    }
  }

  lemma OneMoreSize(files: seq<File>, f: File)
    ensures TotalFileSize(files + [f]) == TotalFileSize(files) + f.size
            && TotalFileSize(files + []) == TotalFileSize(files)
  {
    assert (files + [f])[..|files|] == files && files + [] == files;
  }

  /** Pushed down past levels it does not overlap, as long as not too much data lies two levels
      further down, and no less far. */
  method PickLevelForMemTableOutput(v: Version, lo: UserKey, hi: UserKey, maxGrandParentOverlapBytes: nat)
      returns (level: nat)
    requires LevelsOk(v)
    requires forall p, i :: 0 <= p < NUM_LEVELS && 0 <= i < |v[p]| ==> Reachable(v[p][i].largest)
    ensures FlushLevelOk(v, level, lo, hi)
    ensures forall k: nat :: k < level ==> MayPushDown(v, k, lo, hi, maxGrandParentOverlapBytes)
    ensures Untouched(v[0], lo, hi) && level < MAX_MEM_COMPACT_LEVEL ==>
              !MayPushDown(v, level, lo, hi, maxGrandParentOverlapBytes)
  {
    hide Least, Within, ClosedRange, Overlapping;
    level := 0;
    var overlaps := SomeFileOverlapsRange(false, v[0], Some(lo), Some(hi));
    MeetsIsOverlap(v[0], lo, hi);
    if overlaps {
      return;
    }
    while level < MAX_MEM_COMPACT_LEVEL
      invariant level <= MAX_MEM_COMPACT_LEVEL
      invariant forall p :: 0 <= p <= level ==> Untouched(v[p], lo, hi)
      invariant forall k: nat :: k < level ==> MayPushDown(v, k, lo, hi, maxGrandParentOverlapBytes)
    {
      overlaps := SomeFileOverlapsRange(true, v[level + 1], Some(lo), Some(hi));
      MeetsIsOverlap(v[level + 1], lo, hi);
      if overlaps {
        break;
      }
      var grandparents, _, _ := GetOverlappingInputs(v[level + 2], level + 2, Some(lo), Some(hi));
      if TotalFileSize(grandparents) > maxGrandParentOverlapBytes {
        break;
      }
      level := level + 1;
    }
  }

  lemma MeetsIsOverlap(files: seq<File>, lo: UserKey, hi: UserKey)
    ensures (exists i :: 0 <= i < |files| && Meets(files[i], Some(lo), Some(hi))) <==> !Untouched(files, lo, hi)
  {
    if !Untouched(files, lo, hi) {
      var i :| 0 <= i < |files| && files[i].Overlaps(lo, hi);
      assert Meets(files[i], Some(lo), Some(hi));
    }
  }

  ghost predicate Flushed(v: Version, v': Version, level: nat, f: File)
    requires |v| == NUM_LEVELS && level < NUM_LEVELS
  {
    && |v'| == NUM_LEVELS
    && (forall p :: 0 <= p < NUM_LEVELS && p != level ==> v'[p] == v[p])
    && EditedLevel(v[level], v'[level], {}, {f})
  }

  lemma FlushKeepsLevels(v: Version, v': Version, level: nat, f: File)
    requires LevelsOk(v) && f.Ok() && level < NUM_LEVELS && Flushed(v, v', level, f)
    requires FlushLevelOk(v, level, f.smallest.user, f.largest.user)
    ensures LevelsOk(v')
  {
    forall i | 0 <= i < |v'[level]|
      ensures v'[level][i].Ok()
    {
      assert v'[level][i] in v'[level];
    }
    if level > 0 {
      DisjointIsApart(v[level]);
      forall g, h | g in v'[level] && h in v'[level]
        ensures Apart(g, h)
      {
        FileOrder(f);
        if g in v[level] { FileOrder(g); }
        if h in v[level] { FileOrder(h); }
      }
      ApartIsDisjoint(v'[level]);
    }
  }

  lemma FlushKeepsNewerAbove(v: Version, v': Version, level: nat, f: File, next: nat)
    requires LevelsOk(v) && f.Ok() && level < NUM_LEVELS && Flushed(v, v', level, f)
    requires FlushLevelOk(v, level, f.smallest.user, f.largest.user)
    requires NewerAbove(v) && NewerThanVersion(f.entries, v) && NumbersBelow(v, next) && f.number == next
    ensures NewerAbove(v')
  {
    forall g | g in v[level]
      ensures NewerThan(f.entries, g.entries) && g.number < next
    {
      var i :| 0 <= i < |v[level]| && v[level][i] == g;
      FlushNewerThanFile(v, level, i, f);
    }
    forall p, q, i, j | 0 <= p < q < NUM_LEVELS && 0 <= i < |v'[p]| && 0 <= j < |v'[q]|
      ensures NewerThan(v'[p][i].entries, v'[q][j].entries)
    {
      assert v'[p][i] in v'[p] && v'[q][j] in v'[q];
      FlushedPairNewer(v, v', level, f, p, q, v'[p][i], v'[q][j]);
    }
    hide NewerThan, LevelsOk, FlushLevelOk, NewerThanVersion;
    if level == 0 {
      assert HigherNumberNewer(v[0]);
      FlushFirstLevel(v[0], v'[0], f, next);
    }
  }

  lemma FlushedPairNewer(v: Version, v': Version, level: nat, f: File, p: nat, q: nat, a: File, b: File)
    requires LevelsOk(v) && f.Ok() && level < NUM_LEVELS && Flushed(v, v', level, f)
    requires FlushLevelOk(v, level, f.smallest.user, f.largest.user)
    requires NewerAbove(v) && NewerThanVersion(f.entries, v)
    requires p < q < NUM_LEVELS && a in v'[p] && b in v'[q]
    ensures NewerThan(a.entries, b.entries)
  {
    hide NewerThan;
    if p == level && a == f {
      var j :| 0 <= j < |v[q]| && v[q][j] == b;
      FlushNewerThanFile(v, q, j, f);
    } else if q == level && b == f {
      NoSharedKeys(a, f);
    } else {
      assert a in v[p] && b in v[q];
      PairNewer(v, p, q, a, b);
    }
  }

  lemma NoSharedKeys(g: File, f: File)
    requires g.Ok() && f.Ok() && !g.Overlaps(f.smallest.user, f.largest.user)
    ensures NewerThan(g.entries, f.entries)
  {
    forall a, b | a in g.entries && b in f.entries
      ensures a.key.user != b.key.user
    {
      EntryWithinFile(g, a);
      EntryWithinFile(f, b);
    }
  }

  lemma FlushNewerThanFile(v: Version, q: nat, j: nat, f: File)
    requires q < |v| && j < |v[q]| && NewerThanVersion(f.entries, v)
    ensures NewerThan(f.entries, v[q][j].entries)
  {
    forall b | b in v[q][j].entries
      ensures b in VersionEntries(v)
    {
    }
  }

  lemma FlushFirstLevel(before: seq<File>, after: seq<File>, f: File, next: nat)
    requires HigherNumberNewer(before) && EditedLevel(before, after, {}, {f})
    requires f.number == next && forall g :: g in before ==> g.number < next && NewerThan(f.entries, g.entries)
    ensures HigherNumberNewer(after)
  {
    forall i, j | 0 <= i < |after| && 0 <= j < |after|
      ensures after[i].number > after[j].number ==> NewerThan(after[i].entries, after[j].entries)
      ensures i < j ==> after[i].number != after[j].number
    {
      assert after[i] in after && after[j] in after;
      if i < j {
        assert SmallestBefore(after[i], after[j]);
        assert after[i] != after[j] by { LessIsStrictTotalOrder(after[i].smallest, after[j].smallest,
               after[i].smallest); }
      }
    }
  }

  lemma FlushEntries(v: Version, v': Version, level: nat, f: File)
    requires |v| == NUM_LEVELS && level < NUM_LEVELS && Flushed(v, v', level, f)
    ensures VersionEntries(v') == VersionEntries(v) + Elements(f.entries)
  {
    forall e
      ensures e in VersionEntries(v') <==> e in VersionEntries(v) || e in f.entries
    {
      if e in VersionEntries(v') {
        var p, i :| 0 <= p < |v'| && 0 <= i < |v'[p]| && e in v'[p][i].entries;
        assert v'[p][i] in v'[p];
        if v'[p][i] != f || p != level {
          assert v'[p][i] in v[p];
        }
      }
      if e in VersionEntries(v) {
        var p, i :| 0 <= p < |v| && 0 <= i < |v[p]| && e in v[p][i].entries;
        assert v[p][i] in v[p];
        assert v[p][i] in v'[p];
      }
      if e in f.entries {
        assert f in v'[level];
      }
    }
  }

  // ------------------------------------------------------------------ compactions

  ghost function InputFiles(inputs0: seq<File>, inputs1: seq<File>): set<File> {
    Members(inputs0) + Members(inputs1)
  }

  ghost function EntriesOfFiles(fs: set<File>): set<Entry> {
    set f, e | f in fs && e in f.entries :: e
  }

  /** The file lies to one side of all the others in key order. */
  ghost predicate Clear(f: File, fs: set<File>) {
    (forall g :: g in fs ==> Less(f.largest, g.smallest)) || (forall g :: g in fs ==> Less(g.largest, f.smallest))
  }

  /** The file shares no user key with the others unless its entries for it are newer. */
  ghost predicate NewerThanFiles(f: File, fs: set<File>) {
    forall g :: g in fs ==> NewerThan(f.entries, g.entries)
  }

  /** What the files left behind at the two levels of a compaction look like, from the moment its
      inputs are chosen until its results are installed. */
  ghost predicate Ready(v: Version, level: nat, inputs0: seq<File>, inputs1: seq<File>)
    requires |v| == NUM_LEVELS && level + 1 < NUM_LEVELS
  {
    && (forall f :: f in inputs0 ==> f in v[level])
    && (forall f :: f in inputs1 ==> f in v[level + 1])
    && Joined(InputFiles(inputs0, inputs1))
    && (forall f :: f in v[level] && f !in inputs0 ==> NewerThanFiles(f, Members(inputs0)))
    && (forall f :: f in v[level + 1] && f !in inputs1 ==>
          Clear(f, InputFiles(inputs0, inputs1)) && NewerThanFiles(f, InputFiles(inputs0, inputs1)))
  }

  /** No file left behind at the output level carries on with a user key at which an input from
      that level ends.  The code closes its inputs in this way at the upper level only. */
  ghost predicate ParentsClosed(v: Version, level: nat, inputs1: seq<File>)
    requires |v| == NUM_LEVELS && level + 1 < NUM_LEVELS
  {
    forall f, g :: f in v[level + 1] && f !in inputs1 && g in inputs1 ==> !Continues(f, g.largest)
  }

  /** A file after another in key order that holds older entries for one of its user keys carries
      on with the key at which the other ends. */
  lemma BeforeIsNewer(f: File, g: File)
    requires f.Ok() && g.Ok()
    requires Less(f.largest, g.smallest)
    ensures NewerThan(f.entries, g.entries)
    ensures !Continues(g, f.largest) ==> NewerThan(g.entries, f.entries)
  {
    forall a, b | a in f.entries && b in g.entries && a.key.user == b.key.user
      ensures Less(a.key, b.key) && Continues(g, f.largest)
    {
      EntryWithinFile(f, a);
      EntryWithinFile(g, b);
    }
  }

  lemma AsideIsNewer(f: File, fs: set<File>)
    requires f.Ok() && Aside(f, fs) && forall g :: g in fs ==> g.Ok()
    ensures NewerThanFiles(f, fs)
  {
    forall g | g in fs
      ensures NewerThan(f.entries, g.entries)
    {
      forall a, b | a in f.entries && b in g.entries
        ensures a.key.user != b.key.user
      {
        EntryWithinFile(f, a);
        EntryWithinFile(g, b);
      }
    }
  }

  lemma LeftAtLevelIsNewer(v: Version, level: nat, inputs0: seq<File>, f: File)
    requires LevelsOk(v) && level + 1 < NUM_LEVELS && GoodLevelInputs(v, level, inputs0)
    requires BoundaryClosed(v[level], inputs0) && f in v[level] && f !in inputs0
    ensures NewerThanFiles(f, Members(inputs0))
  {
    InLevelOk(v[level], inputs0);
    if level == 0 {
      AsideIsNewer(f, Members(inputs0));
    } else {
      var key := LargestOf(inputs0);
      var last :| 0 <= last < |inputs0| && inputs0[last].largest == key;
      forall g | g in inputs0
        ensures NewerThan(f.entries, g.entries)
      {
        OneSide(v[level], f, g);
        if Less(f.largest, g.smallest) {
          BeforeIsNewer(f, g);
        } else {
          OneSide(v[level], f, inputs0[last]);
          assert !Between(f, g, inputs0[last]);
          assert !Continues(f, key);
          assert !Less(key, g.largest);
          BeforeIsNewer(g, f);
        }
      }
    }
  }

  lemma LeftAtParentsIsClear(v: Version, level: nat, inputs0: seq<File>, inputs1: seq<File>, f: File)
    requires LevelsOk(v) && level + 1 < NUM_LEVELS && GoodInputs(v, level, inputs0, inputs1)
    requires ParentsClosed(v, level, inputs1) && f in v[level + 1] && f !in inputs1
    ensures Clear(f, InputFiles(inputs0, inputs1)) && NewerThanFiles(f, InputFiles(inputs0, inputs1))
  {
    InLevelOk(v[level], inputs0);
    InLevelOk(v[level + 1], inputs1);
    AsideIsNewer(f, Members(inputs0));
    FileOrder(f);
    forall g | g in inputs1
      ensures NewerThan(f.entries, g.entries)
      ensures AllAfter(Members(inputs0), f.largest.user) ==> Less(f.largest, g.smallest)
      ensures AllBefore(Members(inputs0), f.smallest.user) ==> Less(g.largest, f.smallest)
    {
      OneSide(v[level + 1], f, g);
      FileOrder(g);
      if Less(f.largest, g.smallest) {
        BeforeIsNewer(f, g);
      } else {
        BeforeIsNewer(g, f);
      }
    }
  }

  /** Inputs chosen by the selection loops start out ready. */
  lemma ChosenInputsReady(v: Version, level: nat, inputs0: seq<File>, inputs1: seq<File>)
    requires LevelsOk(v) && level + 1 < NUM_LEVELS && GoodInputs(v, level, inputs0, inputs1)
    requires ParentsClosed(v, level, inputs1)
    ensures Ready(v, level, inputs0, inputs1)
  {
    forall f | f in v[level] && f !in inputs0
      ensures NewerThanFiles(f, Members(inputs0))
    {
      LeftAtLevelIsNewer(v, level, inputs0, f);
    }
    forall f | f in v[level + 1] && f !in inputs1
      ensures Clear(f, InputFiles(inputs0, inputs1)) && NewerThanFiles(f, InputFiles(inputs0, inputs1))
    {
      LeftAtParentsIsClear(v, level, inputs0, inputs1, f);
    }
  }

  /** A flush that passes by the inputs of a running compaction misses all of them, and since their
      ranges join up it lands to one side of all of them. */
  lemma FlushMissesInputs(v: Version, at: nat, f: File, level: nat, inputs0: seq<File>, inputs1: seq<File>)
    requires LevelsOk(v) && level + 1 < NUM_LEVELS && Ready(v, level, inputs0, inputs1)
    requires f.Ok() && at >= level + 1 && FlushLevelOk(v, at, f.smallest.user, f.largest.user)
    ensures Clear(f, InputFiles(inputs0, inputs1))
    ensures forall g :: g in InputFiles(inputs0, inputs1) ==>
              g.Ok() && NewerThan(g.entries, f.entries) && NewerThan(f.entries, g.entries)
  {
    hide NewerThan;
    var fs := InputFiles(inputs0, inputs1);
    FileOrder(f);
    forall g | g in fs
      ensures g.Ok() && !g.Overlaps(f.smallest.user, f.largest.user)
      ensures NewerThan(g.entries, f.entries) && NewerThan(f.entries, g.entries)
    {
      if g in inputs0 {
        assert g in v[level];
      } else {
        assert g in v[level + 1];
      }
      FileOrder(g);
      NoSharedKeys(g, f);
      NoSharedKeys(f, g);
    }
    assert Misses(fs, f.smallest.user, f.largest.user);
  }

  lemma FlushKeepsReady(v: Version, v': Version, at: nat, f: File, level: nat, inputs0: seq<File>, inputs1: seq<File>)
    requires LevelsOk(v) && level + 1 < NUM_LEVELS && Ready(v, level, inputs0, inputs1)
    requires f.Ok() && at < NUM_LEVELS && Flushed(v, v', at, f)
    requires FlushLevelOk(v, at, f.smallest.user, f.largest.user) && NewerThanVersion(f.entries, v)
    ensures Ready(v', level, inputs0, inputs1)
  {
    if at == level {
      forall g | g in inputs0
        ensures NewerThan(f.entries, g.entries)
      {
        var i :| 0 <= i < |v[level]| && v[level][i] == g;
        FlushNewerThanFile(v, level, i, f);
      }
    } else if at == level + 1 {
      FlushMissesInputs(v, at, f, level, inputs0, inputs1);
    }
  }

  /** No entry for the user key is stored below the output level. */
  ghost predicate NothingDeeper(v: Version, level: nat, u: UserKey)
    requires |v| == NUM_LEVELS
  {
    forall p, f, x :: level + 2 <= p < NUM_LEVELS && f in v[p] && x in f.entries ==> x.key.user != u
  }

  /** Below the output level there is still nothing for the user keys that had nothing there. */
  ghost predicate BaseHolds(v: Version, level: nat, inputs0: seq<File>, inputs1: seq<File>, inputVersion: Version)
    requires |v| == NUM_LEVELS && |inputVersion| == NUM_LEVELS
  {
    forall e :: e in EntriesOfFiles(InputFiles(inputs0, inputs1)) && BaseLevel(inputVersion, level, e.key.user)
      ==> NothingDeeper(v, level, e.key.user)
  }

  lemma BaseMeansNothingDeeper(v: Version, level: nat, u: UserKey)
    requires LevelsOk(v) && BaseLevel(v, level, u)
    ensures NothingDeeper(v, level, u)
  {
    forall p, f, x | level + 2 <= p < NUM_LEVELS && f in v[p] && x in f.entries
      ensures x.key.user != u
    {
      var i :| 0 <= i < |v[p]| && v[p][i] == f;
      EntryWithinFile(v[p][i], x);
    }
  }

  lemma BaseHoldsAtStart(v: Version, level: nat, inputs0: seq<File>, inputs1: seq<File>)
    requires LevelsOk(v)
    ensures BaseHolds(v, level, inputs0, inputs1, v)
  {
    forall e | e in EntriesOfFiles(InputFiles(inputs0, inputs1)) && BaseLevel(v, level, e.key.user)
      ensures NothingDeeper(v, level, e.key.user)
    {
      BaseMeansNothingDeeper(v, level, e.key.user);
    }
  }

  lemma FlushKeepsBase(v: Version, v': Version, at: nat, f: File, level: nat, inputs0: seq<File>, inputs1: seq<File>,
      inputVersion: Version)
    requires LevelsOk(v) && level + 1 < NUM_LEVELS && Ready(v, level, inputs0, inputs1)
    requires f.Ok() && at < NUM_LEVELS && Flushed(v, v', at, f)
    requires FlushLevelOk(v, at, f.smallest.user, f.largest.user)
    requires |inputVersion| == NUM_LEVELS && BaseHolds(v, level, inputs0, inputs1, inputVersion)
    ensures BaseHolds(v', level, inputs0, inputs1, inputVersion)
  {
    forall e | e in EntriesOfFiles(InputFiles(inputs0, inputs1)) && BaseLevel(inputVersion, level, e.key.user)
      ensures NothingDeeper(v', level, e.key.user)
    {
      assert NothingDeeper(v, level, e.key.user);
      forall p, g, x | level + 2 <= p < NUM_LEVELS && g in v'[p] && x in g.entries
        ensures x.key.user != e.key.user
      {
        if g !in v[p] {
          FlushSharesNoInputKey(v, at, f, level, inputs0, inputs1, e, x);
        }
      }
    }
  }

  lemma FlushSharesNoInputKey(v: Version, at: nat, f: File, level: nat, inputs0: seq<File>, inputs1: seq<File>,
      e: Entry, x: Entry)
    requires LevelsOk(v) && level + 1 < NUM_LEVELS && Ready(v, level, inputs0, inputs1)
    requires f.Ok() && at >= level + 1 && FlushLevelOk(v, at, f.smallest.user, f.largest.user)
    requires e in EntriesOfFiles(InputFiles(inputs0, inputs1)) && x in f.entries
    ensures x.key.user != e.key.user
  {
    FlushMissesInputs(v, at, f, level, inputs0, inputs1);
    var g :| g in InputFiles(inputs0, inputs1) && e in g.entries;
    assert NewerThan(g.entries, f.entries) && NewerThan(f.entries, g.entries);
  }

  /** The version after the inputs are deleted and the outputs added one level down. */
  ghost predicate Installed(v: Version, v': Version, level: nat, inputs0: seq<File>, inputs1: seq<File>,
      outputs: set<File>)
    requires |v| == NUM_LEVELS && level + 1 < NUM_LEVELS
  {
    && |v'| == NUM_LEVELS
    && (forall p :: 0 <= p < NUM_LEVELS && p != level && p != level + 1 ==> v'[p] == v[p])
    && EditedLevel(v[level], v'[level], Members(inputs0), {})
    && EditedLevel(v[level + 1], v'[level + 1], Members(inputs1), outputs)
  }

  /** Output tables: well formed, apart from each other, holding only input entries. */
  ghost predicate GoodOutputs(outputs: set<File>, inputs: set<File>) {
    && (forall f :: f in outputs ==> f.Ok())
    && (forall f, g :: f in outputs && g in outputs ==> Apart(f, g))
    && (forall f, e :: f in outputs && e in f.entries ==> e in EntriesOfFiles(inputs))
  }

  lemma OutputWithinInputs(f: File, o: File, inputs: set<File>)
    requires o.Ok() && Clear(f, inputs) && (forall g :: g in inputs ==> g.Ok())
    requires forall e :: e in o.entries ==> e in EntriesOfFiles(inputs)
    ensures Apart(f, o)
  {
    var a, b := o.entries[0], o.entries[|o.entries| - 1];
    assert a in o.entries && b in o.entries;
    var g :| g in inputs && a in g.entries;
    var h :| h in inputs && b in h.entries;
    EntryWithinFile(g, a);
    EntryWithinFile(h, b);
  }

  lemma InputsOk(v: Version, level: nat, inputs0: seq<File>, inputs1: seq<File>)
    requires LevelsOk(v) && level + 1 < NUM_LEVELS && Ready(v, level, inputs0, inputs1)
    ensures forall g :: g in InputFiles(inputs0, inputs1) ==> g.Ok()
  {
    forall g | g in InputFiles(inputs0, inputs1)
      ensures g.Ok()
    {
      if g in inputs0 {
        assert g in v[level];
      } else {
        assert g in v[level + 1];
      }
    }
  }

  lemma InstallKeepsLevels(v: Version, v': Version, level: nat, inputs0: seq<File>, inputs1: seq<File>,
      outputs: set<File>)
    requires LevelsOk(v) && level + 1 < NUM_LEVELS && Ready(v, level, inputs0, inputs1)
    requires Installed(v, v', level, inputs0, inputs1, outputs)
    requires GoodOutputs(outputs, InputFiles(inputs0, inputs1))
    ensures LevelsOk(v')
  {
    InputsOk(v, level, inputs0, inputs1);
    forall p, i | level <= p <= level + 1 && 0 <= i < |v'[p]|
      ensures v'[p][i].Ok()
    {
      assert v'[p][i] in v'[p];
    }
    DisjointIsApart(v[level + 1]);
    forall f, g | f in v'[level + 1] && g in v'[level + 1]
      ensures Apart(f, g)
    {
      if f in outputs && g !in outputs {
        OutputWithinInputs(g, f, InputFiles(inputs0, inputs1));
      } else if g in outputs && f !in outputs {
        OutputWithinInputs(f, g, InputFiles(inputs0, inputs1));
      }
    }
    ApartIsDisjoint(v'[level + 1]);
    if level > 0 {
      DisjointIsApart(v[level]);
      ApartIsDisjoint(v'[level]);
    }
  }

  lemma PairNewer(v: Version, p: nat, q: nat, f: File, g: File)
    requires NewerAbove(v) && p < q < |v| && f in v[p] && g in v[q]
    ensures NewerThan(f.entries, g.entries)
  {
    var i :| 0 <= i < |v[p]| && v[p][i] == f;
    var j :| 0 <= j < |v[q]| && v[q][j] == g;
    assert NewerThan(v[p][i].entries, v[q][j].entries);
  }

  /** A file above both levels, or left behind at the upper one, is newer than any input. */
  lemma NewerThanInputs(v: Version, level: nat, inputs0: seq<File>, inputs1: seq<File>, p: nat, f: File, g: File)
    requires LevelsOk(v) && NewerAbove(v) && level + 1 < NUM_LEVELS && Ready(v, level, inputs0, inputs1)
    requires p <= level && f in v[p] && (p == level ==> f !in inputs0)
    requires g in InputFiles(inputs0, inputs1)
    ensures NewerThan(f.entries, g.entries)
  {
    if g in inputs1 {
      PairNewer(v, p, level + 1, f, g);
    } else if p < level {
      PairNewer(v, p, level, f, g);
    } else {
      assert NewerThanFiles(f, Members(inputs0));
    }
  }

  lemma InputsNewerThanDeeper(v: Version, level: nat, inputs0: seq<File>, inputs1: seq<File>, q: nat, f: File, g: File)
    requires LevelsOk(v) && NewerAbove(v) && level + 1 < NUM_LEVELS && Ready(v, level, inputs0, inputs1)
    requires level + 2 <= q < NUM_LEVELS && g in v[q] && f in InputFiles(inputs0, inputs1)
    ensures NewerThan(f.entries, g.entries)
  {
    if f in inputs0 {
      PairNewer(v, level, q, f, g);
    } else {
      PairNewer(v, level + 1, q, f, g);
    }
  }

  lemma InstallKeepsNewerAbove(v: Version, v': Version, level: nat, inputs0: seq<File>, inputs1: seq<File>,
      outputs: set<File>)
    requires LevelsOk(v) && NewerAbove(v) && level + 1 < NUM_LEVELS && Ready(v, level, inputs0, inputs1)
    requires Installed(v, v', level, inputs0, inputs1, outputs)
    requires GoodOutputs(outputs, InputFiles(inputs0, inputs1))
    ensures NewerAbove(v')
  {
    forall p, q, i, j | 0 <= p < q < NUM_LEVELS && 0 <= i < |v'[p]| && 0 <= j < |v'[q]|
      ensures NewerThan(v'[p][i].entries, v'[q][j].entries)
    {
      var f, g := v'[p][i], v'[q][j];
      assert f in v'[p] && g in v'[q];
      InstalledPairNewer(v, v', level, inputs0, inputs1, outputs, p, q, f, g);
    }
    hide NewerThan, LevelsOk, Ready, GoodOutputs;
    if level == 0 {
      FewerFirstLevel(v[0], v'[0], Members(inputs0));
    } else {
      assert v'[0] == v[0];
    }
  }

  lemma FewerFirstLevel(before: seq<File>, after: seq<File>, minus: set<File>)
    requires HigherNumberNewer(before) && EditedLevel(before, after, minus, {})
    ensures HigherNumberNewer(after)
  {
    hide NewerThan;
    forall i, j | 0 <= i < |after| && 0 <= j < |after|
      ensures after[i].number > after[j].number ==> NewerThan(after[i].entries, after[j].entries)
      ensures i < j ==> after[i].number != after[j].number
    {
      assert after[i] in after && after[j] in after;
      var m :| 0 <= m < |before| && before[m] == after[i];
      var n :| 0 <= n < |before| && before[n] == after[j];
      if i < j {
        assert SmallestBefore(after[i], after[j]);
      }
    }
  }

  lemma InstalledPairNewer(v: Version, v': Version, level: nat, inputs0: seq<File>, inputs1: seq<File>,
      outputs: set<File>,
                           p: nat, q: nat, f: File, g: File)
    requires LevelsOk(v) && NewerAbove(v) && level + 1 < NUM_LEVELS && Ready(v, level, inputs0, inputs1)
    requires Installed(v, v', level, inputs0, inputs1, outputs)
    requires GoodOutputs(outputs, InputFiles(inputs0, inputs1))
    requires p < q < NUM_LEVELS && f in v'[p] && g in v'[q]
    ensures NewerThan(f.entries, g.entries)
  {
    if q == level + 1 && g in outputs {
      forall a, b | a in f.entries && b in g.entries && a.key.user == b.key.user
        ensures Less(a.key, b.key)
      {
        assert b in EntriesOfFiles(InputFiles(inputs0, inputs1));
        var h :| h in InputFiles(inputs0, inputs1) && b in h.entries;
        NewerThanInputs(v, level, inputs0, inputs1, p, f, h);
      }
    } else if p == level + 1 && f in outputs {
      forall a, b | a in f.entries && b in g.entries && a.key.user == b.key.user
        ensures Less(a.key, b.key)
      {
        assert a in EntriesOfFiles(InputFiles(inputs0, inputs1));
        var h :| h in InputFiles(inputs0, inputs1) && a in h.entries;
        InputsNewerThanDeeper(v, level, inputs0, inputs1, q, h, g);
      }
    } else {
      PairNewer(v, p, q, f, g);
    }
  }

  /** The entries of a version that are outside the inputs of a compaction. */
  ghost function OutsideEntries(v: Version, inputs: set<File>): set<Entry> {
    VersionEntries(v) - EntriesOfFiles(inputs)
  }

  lemma OutsideEntryFile(v: Version, level: nat, inputs0: seq<File>, inputs1: seq<File>, x: Entry)
      returns (p: nat, f: File)
    requires LevelsOk(v) && level + 1 < NUM_LEVELS && Ready(v, level, inputs0, inputs1)
    requires x in OutsideEntries(v, InputFiles(inputs0, inputs1))
    ensures p < NUM_LEVELS && f in v[p] && x in f.entries
    ensures f !in InputFiles(inputs0, inputs1)
  {
    var i;
    p, i :| 0 <= p < |v| && 0 <= i < |v[p]| && x in v[p][i].entries;
    f := v[p][i];
  }

  lemma InputEntriesStored(v: Version, level: nat, inputs0: seq<File>, inputs1: seq<File>)
    requires LevelsOk(v) && level + 1 < NUM_LEVELS && Ready(v, level, inputs0, inputs1)
    ensures EntriesOfFiles(InputFiles(inputs0, inputs1)) <= VersionEntries(v)
  {
    forall e | e in EntriesOfFiles(InputFiles(inputs0, inputs1))
      ensures e in VersionEntries(v)
    {
      var g :| g in InputFiles(inputs0, inputs1) && e in g.entries;
      if g in inputs0 {
        assert g in v[level];
      } else {
        assert g in v[level + 1];
      }
    }
  }

  /** No entry of an input is also stored in a file left behind. */
  lemma InputsNotDuplicated(v: Version, level: nat, inputs0: seq<File>, inputs1: seq<File>, p: nat, f: File, e: Entry)
    requires LevelsOk(v) && NewerAbove(v) && level + 1 < NUM_LEVELS && Ready(v, level, inputs0, inputs1)
    requires p < NUM_LEVELS && f in v[p] && e in f.entries
    requires (p == level ==> f !in inputs0) && (p == level + 1 ==> f !in inputs1)
    ensures e !in EntriesOfFiles(InputFiles(inputs0, inputs1))
  {
    if g :| g in InputFiles(inputs0, inputs1) && e in g.entries {
      if p <= level {
        NewerThanInputs(v, level, inputs0, inputs1, p, f, g);
      } else if p >= level + 2 {
        InputsNewerThanDeeper(v, level, inputs0, inputs1, p, g, f);
      }
    }
  }

  lemma InstallEntries(v: Version, v': Version, level: nat, inputs0: seq<File>, inputs1: seq<File>, outputs: set<File>)
    requires LevelsOk(v) && NewerAbove(v) && level + 1 < NUM_LEVELS && Ready(v, level, inputs0, inputs1)
    requires Installed(v, v', level, inputs0, inputs1, outputs)
    ensures VersionEntries(v') == OutsideEntries(v, InputFiles(inputs0, inputs1)) + EntriesOfFiles(outputs)
  {
    forall e | e in VersionEntries(v')
      ensures e in OutsideEntries(v, InputFiles(inputs0, inputs1)) + EntriesOfFiles(outputs)
    {
      var p, i :| 0 <= p < |v'| && 0 <= i < |v'[p]| && e in v'[p][i].entries;
      var f := v'[p][i];
      assert f in v'[p];
      if !(p == level + 1 && f in outputs) {
        assert f in v[p];
        InputsNotDuplicated(v, level, inputs0, inputs1, p, f, e);
      }
    }
    forall e | e in OutsideEntries(v, InputFiles(inputs0, inputs1)) + EntriesOfFiles(outputs)
      ensures e in VersionEntries(v')
    {
      if f :| f in outputs && e in f.entries {
        assert f in v'[level + 1];
      } else {
        var p, f := OutsideEntryFile(v, level, inputs0, inputs1, e);
        assert f in v'[p];
      }
    }
  }

  /** Nothing left behind can be read just below an input tombstone for a user key that has no data
      further down. */
  lemma NothingBelowTombstone(v: Version, level: nat, inputs0: seq<File>, inputs1: seq<File>, inputVersion: Version,
      t: Entry)
    requires LevelsOk(v) && NewerAbove(v) && level + 1 < NUM_LEVELS && Ready(v, level, inputs0, inputs1)
    requires |inputVersion| == NUM_LEVELS && BaseHolds(v, level, inputs0, inputs1, inputVersion)
    requires t in EntriesOfFiles(InputFiles(inputs0, inputs1)) && BaseLevel(inputVersion, level, t.key.user)
    ensures forall x :: x in OutsideEntries(v, InputFiles(inputs0, inputs1)) && x.key.user == t.key.user ==>
              Less(x.key, t.key)
  {
    var g :| g in InputFiles(inputs0, inputs1) && t in g.entries;
    assert NothingDeeper(v, level, t.key.user);
    forall x | x in OutsideEntries(v, InputFiles(inputs0, inputs1)) && x.key.user == t.key.user
      ensures Less(x.key, t.key)
    {
      AboveTombstone(v, level, inputs0, inputs1, g, t, x);
    }
    hide Ready, LevelsOk, NewerAbove, BaseLevel, Less;
  }

  lemma AboveTombstone(v: Version, level: nat, inputs0: seq<File>, inputs1: seq<File>, g: File, t: Entry, x: Entry)
    requires LevelsOk(v) && NewerAbove(v) && level + 1 < NUM_LEVELS && Ready(v, level, inputs0, inputs1)
    requires g in InputFiles(inputs0, inputs1) && t in g.entries && NothingDeeper(v, level, t.key.user)
    requires x in OutsideEntries(v, InputFiles(inputs0, inputs1)) && x.key.user == t.key.user
    ensures Less(x.key, t.key)
  {
    var p, f := OutsideEntryFile(v, level, inputs0, inputs1, x);
    if p <= level {
      hide Less, NothingDeeper, OutsideEntries, Joined, Clear;
      NewerThanInputs(v, level, inputs0, inputs1, p, f, g);
      hide NewerAbove, LevelsOk, Ready;
    } else if p == level + 1 {
      hide Less, NewerAbove, LevelsOk, NothingDeeper, OutsideEntries, Joined, Clear;
      assert f in v[level + 1] && f !in inputs1;
      assert NewerThanFiles(f, InputFiles(inputs0, inputs1));
    } else {
      hide NewerAbove, Ready, Less, OutsideEntries, Joined, Clear;
    }
  }
}
