/** The iterator over the whole store: memtables, first-level files, and each deeper level walked file by
    file, merged, and shown to the user at a snapshot.  What it shows is what the history of writes
    says. */
module StoreIterators {
  import opened Options
  import opened InternalKeys
  import opened Reads
  import opened Files
  import opened PointLookup
  import opened Iterators
  import opened Cursors
  import opened Merger
  import opened TwoLevel
  import opened UserView
  import opened DbIter
  import opened History
  import opened StoreMachine

  // ------------------------------------------------------------------ one level

  /** The index over a level's files: the largest key of each. */
  function FileIndex(files: seq<File>): (index: seq<Entry>)
    ensures |index| == |files| && forall i :: 0 <= i < |files| ==> index[i] == Entry(files[i].largest, [])
  {
    seq(|files|, i requires 0 <= i < |files| => Entry(files[i].largest, []))
  }

  function FileBlocks(files: seq<File>): (blocks: seq<seq<Entry>>)
    ensures |blocks| == |files| && forall i :: 0 <= i < |files| ==> blocks[i] == files[i].entries
  {
    seq(|files|, i requires 0 <= i < |files| => files[i].entries)
  }

  lemma LevelSeparates(files: seq<File>)
    requires FilesOk(files) && DisjointSorted(files)
    ensures Separates(FileIndex(files), FileBlocks(files))
  {
    forall b, k | 0 <= b < |files| && 0 <= k < |files[b].entries|
      ensures !Less(files[b].largest, files[b].entries[k].key)
    {
      EntryWithinFile(files[b], files[b].entries[k]);
    }
    forall b, c, k | 0 <= b < c < |files| && 0 <= k < |files[c].entries|
      ensures Less(files[b].largest, files[c].entries[k].key)
    {
      EntryWithinFile(files[c], files[c].entries[k]);
    }
    forall i, j | 0 <= i < j < |files|
      ensures Less(files[i].largest, files[j].largest)
    {
      assert Less(files[i].largest, files[j].smallest);
      EntryWithinFile(files[j], files[j].entries[0]);
    }
  }

  /** The entries of a sorted level, walked by the two-level iterator over its files. */
  method WalkLevel(files: seq<File>) returns (run: seq<Entry>)
    requires FilesOk(files) && DisjointSorted(files)
    ensures run == Flat(FileBlocks(files))
  {
    LevelSeparates(files);
    run := WalkAll(FileIndex(files), FileBlocks(files));
  }

  // ------------------------------------------------------------------ the runs

  ghost predicate RunsOk(runs: seq<seq<Entry>>) {
    && (forall i :: 0 <= i < |runs| ==> Sorted(runs[i]))
    && (forall i, j, k, m :: 0 <= i < j < |runs| && 0 <= k < |runs[i]| && 0 <= m < |runs[j]| ==>
          runs[i][k].key != runs[j][m].key)
  }

  ghost function AllOf(runs: seq<seq<Entry>>): set<Entry> {
    set i, e | 0 <= i < |runs| && e in runs[i] :: e
  }

  lemma AddRun(runs: seq<seq<Entry>>, run: seq<Entry>)
    requires RunsOk(runs) && Sorted(run) && forall a, b :: a in AllOf(runs) && b in run ==> a.key != b.key
    ensures RunsOk(runs + [run]) && AllOf(runs + [run]) == AllOf(runs) + Elements(run)
  {
    var longer := runs + [run];
    forall i, k | 0 <= i < |runs| && 0 <= k < |runs[i]|
      ensures runs[i][k] in AllOf(runs)
    {
      assert runs[i][k] in runs[i];
    }
    forall e
      ensures e in AllOf(longer) <==> e in AllOf(runs) || e in Elements(run)
    {
      if e in AllOf(runs) {
        var i :| 0 <= i < |runs| && e in runs[i];
        assert longer[i] == runs[i];
      }
      if e in run {
        assert longer[|runs|] == run;
      }
    }
  }

  /** The entries of the levels before one, and of the first files of that one. */
  ghost function EntriesUpTo(v: Version, level: nat, n: nat): set<Entry> {
    set q, j, e | 0 <= q < |v| && 0 <= j < |v[q]| && (q < level || (q == level && j < n)) && e in v[q][j].entries :: e
  }

  /** What the next run of a version brings has keys of its own. */
  lemma FileApart(mem: seq<Entry>, imm: Option<seq<Entry>>, v: Version, level: nat, i: nat, a: Entry, b: Entry)
    requires PartsOrdered(mem, imm, v) && level < NUM_LEVELS && i < |v[level]| && b in v[level][i].entries
    requires a in mem || (imm.Some? && a in imm.value) || a in EntriesUpTo(v, level, i)
    ensures a.key != b.key
  {
    assert b in VersionEntries(v);
    if a in EntriesUpTo(v, level, i) {
      var q, j :| 0 <= q < |v| && 0 <= j < |v[q]| && (q < level || (q == level && j < i)) && a in v[q][j].entries;
      hide NewerAbove, LevelsOk;
      KeysApart(v, q, j, a, level, i, b);
    }
  }

  lemma OneMoreFile(v: Version, level: nat, i: nat)
    requires level < |v| && i < |v[level]|
    ensures EntriesUpTo(v, level, i + 1) == EntriesUpTo(v, level, i) + Elements(v[level][i].entries)
  {
  }

  lemma NextLevel(v: Version, level: nat)
    requires level < |v|
    ensures EntriesUpTo(v, level + 1, 0) == EntriesUpTo(v, level, |v[level]|)
  {
  }

  /** A level's run holds the entries of its files. */
  lemma LevelRun(v: Version, level: nat, e: Entry)
    requires level < |v|
    ensures e in Flat(FileBlocks(v[level])) <==> exists i :: 0 <= i < |v[level]| && e in v[level][i].entries
  {
    InFlatBlocks(FileBlocks(v[level]), e);
  }

  lemma LevelEntries(v: Version, level: nat)
    requires level < |v|
    ensures EntriesUpTo(v, level + 1, 0) == EntriesUpTo(v, level, 0) + Elements(Flat(FileBlocks(v[level])))
  {
    hide Flat, FileBlocks;
    forall x
      ensures x in Flat(FileBlocks(v[level])) <==> exists i :: 0 <= i < |v[level]| && x in v[level][i].entries
    {
      LevelRun(v, level, x);
    }
  }

  lemma InFlatBlocks(blocks: seq<seq<Entry>>, e: Entry)
    ensures e in Flat(blocks) <==> exists b :: 0 <= b < |blocks| && e in blocks[b]
  {
    if e in Flat(blocks) {
      var p :| 0 <= p < |Flat(blocks)| && Flat(blocks)[p] == e;
      var b, k := FlatSplit(blocks, p);
    }
    if b :| 0 <= b < |blocks| && e in blocks[b] {
      var k :| 0 <= k < |blocks[b]| && blocks[b][k] == e;
      FlatAt(blocks, b, k);
    }
  }

  /** The runs under the merging iterator: memtables, each first-level file, and each deeper level. */
  method GatherRuns(mem: seq<Entry>, imm: Option<seq<Entry>>, v: Version) returns (runs: seq<seq<Entry>>)
    requires PartsOrdered(mem, imm, v)
    ensures RunsOk(runs) && AllOf(runs) == StoreEntries(mem, imm, v)
  {
    hide NewerAbove, RunsOk, Separates;
    ghost var base := Elements(mem) + (if imm.Some? then Elements(imm.value) else {});
    runs := MemoryRuns(mem, imm, v);
    for i := 0 to |v[0]|
      invariant RunsOk(runs) && AllOf(runs) == base + EntriesUpTo(v, 0, i)
    {
      FirstLevelRun(mem, imm, v, i, runs);
      OneMoreFile(v, 0, i);
      runs := runs + [v[0][i].entries];
    }
    NextLevel(v, 0);
    for level := 1 to NUM_LEVELS
      invariant RunsOk(runs) && AllOf(runs) == base + EntriesUpTo(v, level, 0)
    {
      var run := WalkLevel(v[level]);
      DeeperLevelRun(mem, imm, v, level, runs);
      runs := runs + [run];
    }
    assert EntriesUpTo(v, NUM_LEVELS, 0) == VersionEntries(v);
  }

  method MemoryRuns(mem: seq<Entry>, imm: Option<seq<Entry>>, v: Version) returns (runs: seq<seq<Entry>>)
    requires PartsOrdered(mem, imm, v)
    ensures RunsOk(runs)
    ensures AllOf(runs) == Elements(mem) + (if imm.Some? then Elements(imm.value) else {}) + EntriesUpTo(v, 0, 0)
  {
    hide NewerAbove, LevelsOk;
    assert AllOf([]) == {} && RunsOk([]);
    AddRun([], mem);
    runs := [] + [mem];
    if imm.Some? {
      AddRun(runs, imm.value);
      runs := runs + [imm.value];
    }
  }

  lemma FirstLevelRun(mem: seq<Entry>, imm: Option<seq<Entry>>, v: Version, i: nat, runs: seq<seq<Entry>>)
    requires PartsOrdered(mem, imm, v) && i < |v[0]| && RunsOk(runs)
    requires AllOf(runs) == Elements(mem) + (if imm.Some? then Elements(imm.value) else {}) + EntriesUpTo(v, 0, i)
    ensures RunsOk(runs + [v[0][i].entries]) && AllOf(runs + [v[0][i].entries]) == AllOf(runs)
            + Elements(v[0][i].entries)
  {
    LevelFileOk(v, 0, i);
    hide RunsOk, PartsOrdered, LevelsOk, EntriesUpTo, AllOf;
    forall a, b | a in AllOf(runs) && b in v[0][i].entries
      ensures a.key != b.key
    {
      FileApart(mem, imm, v, 0, i, a, b);
    }
    AddRun(runs, v[0][i].entries);
  }

  lemma DeeperLevelRun(mem: seq<Entry>, imm: Option<seq<Entry>>, v: Version, level: nat, runs: seq<seq<Entry>>)
    requires PartsOrdered(mem, imm, v) && 1 <= level < NUM_LEVELS && RunsOk(runs)
    requires AllOf(runs) == Elements(mem) + (if imm.Some? then Elements(imm.value) else {}) + EntriesUpTo(v, level, 0)
    ensures var run := Flat(FileBlocks(v[level]));
            RunsOk(runs + [run]) && AllOf(runs + [run])
            == Elements(mem) + (if imm.Some? then Elements(imm.value) else {}) + EntriesUpTo(v, level + 1, 0)
  {
    var run := Flat(FileBlocks(v[level]));
    LevelSeparates(v[level]);
    FlatIsSorted(FileIndex(v[level]), FileBlocks(v[level]));
    hide RunsOk, PartsOrdered, LevelsOk, AllOf, Separates, Flat, FileBlocks, FileIndex, EntriesUpTo;
    forall a, b | a in AllOf(runs) && b in run
      ensures a.key != b.key
    {
      LevelApart(mem, imm, v, level, a, b);
    }
    AddRun(runs, run);
    LevelEntries(v, level);
  }

  lemma LevelApart(mem: seq<Entry>, imm: Option<seq<Entry>>, v: Version, level: nat, a: Entry, b: Entry)
    requires PartsOrdered(mem, imm, v) && level < NUM_LEVELS && b in Flat(FileBlocks(v[level]))
    requires a in mem || (imm.Some? && a in imm.value) || a in EntriesUpTo(v, level, 0)
    ensures a.key != b.key
  {
    assert |v| == NUM_LEVELS;
    hide PartsOrdered, LevelsOk, Flat, FileBlocks;
    LevelRun(v, level, b);
    var i :| 0 <= i < |v[level]| && b in v[level][i].entries;
    assert a in EntriesUpTo(v, level, 0) ==> a in EntriesUpTo(v, level, i);
    FileApart(mem, imm, v, level, i, a, b);
  }

  // ------------------------------------------------------------------ merged

  lemma {:induction false} SortedListing(es: set<Entry>) returns (s: seq<Entry>)
    requires UniqueKeys(es)
    ensures Sorted(s) && Elements(s) == es
    decreases es
  {
    if es == {} {
      s := [];
    } else {
      var e := LeastEntry(es);
      var rest := SortedListing(es - {e});
      assert forall x :: x in rest ==> x in Elements(rest);
      s := [e] + rest;
    }
  }

  lemma {:induction false} LeastEntry(es: set<Entry>) returns (e: Entry)
    requires es != {} && UniqueKeys(es)
    ensures e in es && forall x :: x in es && x != e ==> Less(e.key, x.key)
    decreases es
  {
    e :| e in es;
    if es != {e} {
      var least := LeastEntry(es - {e});
      LessIsStrictTotalOrder(least.key, e.key, e.key);
      if Less(least.key, e.key) {
        e := least;
      } else {
        forall x | x in es && x != e
          ensures Less(e.key, x.key)
        {
          LessIsStrictTotalOrder(e.key, least.key, x.key);
        }
      }
    }
  }

  lemma RunsUnique(runs: seq<seq<Entry>>)
    requires RunsOk(runs)
    ensures UniqueKeys(AllOf(runs))
  {
    forall a, b | a in AllOf(runs) && b in AllOf(runs) && a.key == b.key
      ensures a == b
    {
      var i :| 0 <= i < |runs| && a in runs[i];
      var j :| 0 <= j < |runs| && b in runs[j];
      var k :| 0 <= k < |runs[i]| && runs[i][k] == a;
      var m :| 0 <= m < |runs[j]| && runs[j][m] == b;
      assert i == j;
      SortedApart(runs[i], k, m);
    }
  }

  /** Iterators over the runs, merged and walked from the first entry to the last. */
  method WalkMerged(runs: seq<seq<Entry>>) returns (merged: seq<Entry>)
    requires RunsOk(runs)
    ensures Sorted(merged) && Elements(merged) == AllOf(runs)
  {
    hide MergingIterator.SortedUnion, RunsOk, AllOf, Sorted, UniqueKeys, MergingIterator.Frontier,
         MergingIterator.BackFrontier, Elements;
    RunsUnique(runs);
    ghost var all := SortedListing(AllOf(runs));
    var children := NewChildren(runs);
    ChildrenUnion(runs, children, all);
    var it := new MergingIterator(children, all);
    it.SeekToFirst();
    merged := [];
    while it.Valid()
      invariant it.WellFormed() && it.Holds() && it.children == children && it.merged == all && fresh(it)
      invariant forall k :: 0 <= k < |children| ==> fresh(children[k])
      invariant merged == all[..it.position]
      decreases |all| - it.position
    {
      merged := merged + [Entry(it.Key(), it.Value())];
      it.Next();
    }
    assert all[..|all|] == all;
  }

  method NewChildren(runs: seq<seq<Entry>>) returns (children: seq<EntryIterator>)
    ensures |children| == |runs| && forall k :: 0 <= k < |runs| ==> fresh(children[k]) && children[k].es == runs[k]
    ensures forall j, k :: 0 <= j < k < |runs| ==> children[j] != children[k]
  {
    children := [];
    for i := 0 to |runs|
      invariant |children| == i && forall k :: 0 <= k < i ==> fresh(children[k]) && children[k].es == runs[k]
      invariant forall j, k :: 0 <= j < k < i ==> children[j] != children[k]
    {
      var child := new EntryIterator(runs[i]);
      children := children + [child];
    }
  }

  lemma ChildrenUnion(runs: seq<seq<Entry>>, children: seq<EntryIterator>, all: seq<Entry>)
    requires RunsOk(runs) && Sorted(all) && Elements(all) == AllOf(runs)
    requires |children| == |runs| && forall k :: 0 <= k < |runs| ==> children[k].es == runs[k]
    ensures MergingIterator.SortedUnion(children, all)
  {
    forall i, k | 0 <= i < |children| && 0 <= k < |children[i].es|
      ensures children[i].es[k] in all
    {
      assert runs[i][k] in runs[i];
      assert runs[i][k] in AllOf(runs);
      assert runs[i][k] in Elements(all);
    }
    forall n | 0 <= n < |all|
      ensures MergingIterator.Stored(children, all[n])
    {
      assert all[n] in Elements(all);
      var i :| 0 <= i < |runs| && all[n] in runs[i];
      var k :| 0 <= k < |runs[i]| && runs[i][k] == all[n];
      assert children[i].es[k] == all[n];
    }
  }

  // ------------------------------------------------------------------ what the user sees

  /** The pairs, one for each user key with a value, in order. */
  ghost predicate ShowsHistory(view: seq<Pair>, h: seq<Op>, n: nat)
    requires n <= |h|
  {
    && (forall a, b :: 0 <= a < b < |view| ==> view[a].key < view[b].key)
    && (forall u, value :: Pair(u, value) in view <==> Meaning(h, n, u) == Found(value))
  }

  /** There is one such listing only. */
  lemma {:induction false} SameAscending(a: seq<Pair>, b: seq<Pair>)
    requires forall i, j :: 0 <= i < j < |a| ==> a[i].key < a[j].key
    requires forall i, j :: 0 <= i < j < |b| ==> b[i].key < b[j].key
    requires forall p :: p in a <==> p in b
    ensures a == b
  {
    assert b != [] ==> b[0] in a;
    if a != [] {
      var m, n := |a| - 1, |b| - 1;
      assert a[m] in b && b[n] in a;
      assert a[m] == b[n];
      forall p
        ensures p in a[..m] <==> p in b[..n]
      {
        assert p in a[..m] <==> p in a && p != a[m];
        assert p in b[..n] <==> p in b && p != b[n];
      }
      SameAscending(a[..m], b[..n]);
    }
  }

  lemma OneView(a: seq<Pair>, b: seq<Pair>, h: seq<Op>, n: nat)
    requires n <= |h| && ShowsHistory(a, h, n) && ShowsHistory(b, h, n)
    ensures a == b
  {
    hide Meaning;
    forall p
      ensures p in a <==> p in b
    {
      assert p == Pair(p.key, p.value);
    }
    SameAscending(a, b);
  }

  /** In every state the machine can reach, an iterator over the store at a snapshot still in use shows,
      whatever calls are made, what a plain cursor over the history's keys and values at that snapshot
      shows. */
  method Iterate(st: Store, s: nat, moves: seq<Move<UserKey>>) returns (shown: seq<Option<Pair>>)
    requires Inv(st) && s >= st.OldestInUse()
    ensures exists view :: ShowsHistory(view, st.history, Min(s, |st.history|))
    ensures forall view :: ShowsHistory(view, st.history, Min(s, |st.history|)) ==>
              shown == Trace(view, PAIR_BEFORE, |view|, moves)
  {
    PartsAreOrdered(st);
    hide Inv, PartsOrdered, RunsOk, AllOf, ShowsHistory;
    var runs := GatherRuns(st.mem, st.imm, st.version);
    var merged := WalkMerged(runs);
    ViewOfStore(st, s, merged);
    var inner := new EntryIterator(merged);
    var it := new DBIter(inner, s);
    ghost var view := it.Pairs();
    shown := DbIter.Drive(it, moves);
    forall other | ShowsHistory(other, st.history, Min(s, |st.history|))
      ensures other == view
    {
      OneView(other, view, st.history, Min(s, |st.history|));
    }
  }

  lemma ViewOfStore(st: Store, s: nat, merged: seq<Entry>)
    requires Inv(st) && s >= st.OldestInUse() && Sorted(merged)
    requires Elements(merged) == StoreEntries(st.mem, st.imm, st.version)
    ensures ShowsHistory(View(merged, s), st.history, Min(s, |st.history|))
  {
    var view := View(merged, s);
    AllParse(st);
    forall i | 0 <= i < |merged|
      ensures merged[i].key.Parses()
    {
      assert merged[i] in Elements(merged);
    }
    hide Inv, Meaning, View;
    forall a, b | 0 <= a < b < |view|
      ensures view[a].key < view[b].key
    {
      ViewAscends(merged, s, a, b);
    }
    forall u, value
      ensures Pair(u, value) in view <==> Meaning(st.history, Min(s, |st.history|), u) == Found(value)
    {
      ViewMatchesReads(merged, s, u, value);
      ReadMatchesHistory(st, u, s);
    }
  }

  /** All that is stored was written by the history, under a known type. */
  lemma AllParse(st: Store)
    requires Inv(st)
    ensures forall e :: e in StoreEntries(st.mem, st.imm, st.version) ==> e.key.Parses()
  {
    StoredIsWritten(st);
    hide NewerAbove, LevelsOk, TablesRead, RunningHolds, Sorted;
    forall e | e in VersionEntries(st.version) + Written(st.history, st.flushed, |st.history|)
      ensures e.key.Parses()
    {
      if e in Written(st.history, st.flushed, |st.history|) {
        WrittenMembers(st.history, st.flushed, |st.history|, e);
      }
    }
  }
}
