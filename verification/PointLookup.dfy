/** Point lookup: memtable first, then first-level files newest first, then one file a level. */
module PointLookup {
  import opened Options
  import opened InternalKeys
  import opened Reads
  import opened Files
  import opened InputSelection

  /** The first entry at or after the key, as a sorted table or memtable finds it. */
  method SeekEntry(es: seq<Entry>, key: InternalKey) returns (index: nat)
    requires Sorted(es)
    ensures index <= |es|
    ensures forall i :: 0 <= i < index ==> Less(es[i].key, key)
    ensures forall i :: index <= i < |es| ==> !Less(es[i].key, key)
  {
    index := 0;
    while index < |es| && Less(es[index].key, key)
      invariant 0 <= index <= |es|
      invariant forall i :: 0 <= i < index ==> Less(es[i].key, key)
    {
      index := index + 1;
    }
    forall i | index < i < |es|
      ensures !Less(es[i].key, key)
    {
      assert Less(es[index].key, es[i].key);
    }
  }

  /** The entry a sorted table delivers for a user key at a snapshot, if it holds one. */
  method SearchSorted(es: seq<Entry>, u: UserKey, snapshot: nat) returns (found: Option<Entry>)
    requires Sorted(es)
    ensures found.None? ==> forall e :: e in es ==> !Visible(e.key, u, snapshot)
    ensures found.Some? ==> IsNewest(Elements(es), u, snapshot, found.value)
  {
    var index := SeekEntry(es, SeekKey(u, snapshot));
    if index < |es| && es[index].key.user == u {
      forall i | index < i < |es|
        ensures Less(es[index].key, es[i].key)
      {
      }
      return Some(es[index]);
    }
    forall i | 0 <= i < |es|
      ensures !Visible(es[i].key, u, snapshot)
    {
      if index < i {
        assert Less(es[index].key, es[i].key);
      }
    }
    return None;
  }

  // ------------------------------------------------------------------ one version

  ghost function VersionEntries(v: Version): set<Entry> {
    set level, i, e | 0 <= level < |v| && 0 <= i < |v[level]| && e in v[level][i].entries :: e
  }

  /** Wherever the two sets share a user key, the first holds the newer entries. */
  ghost predicate NewerThan(as_: seq<Entry>, bs: seq<Entry>) {
    forall a, b :: a in as_ && b in bs && a.key.user == b.key.user ==> Less(a.key, b.key)
  }

  /** Newer entries of a user key lie above older ones, and on the first level in files with
      higher numbers. */
  ghost predicate NewerAbove(v: Version) {
    && (forall p, q, i, j :: 0 <= p < q < |v| && 0 <= i < |v[p]| && 0 <= j < |v[q]|
          ==> NewerThan(v[p][i].entries, v[q][j].entries))
    && (|v| > 0 ==> HigherNumberNewer(v[0]))
  }

  ghost predicate HigherNumberNewer(files: seq<File>) {
    && (forall i, j :: 0 <= i < |files| && 0 <= j < |files| && files[i].number > files[j].number
          ==> NewerThan(files[i].entries, files[j].entries))
    && (forall i, j :: 0 <= i < j < |files| ==> files[i].number != files[j].number)
  }

  /** Nothing visible on the levels before `level`. */
  ghost predicate NothingAbove(v: Version, level: nat, u: UserKey, snapshot: nat)
    requires level <= |v|
  {
    forall p, i, e :: 0 <= p < level && 0 <= i < |v[p]| && e in v[p][i].entries ==> !Visible(e.key, u, snapshot)
  }

  predicate NewestFirst(files: seq<File>) {
    forall i, j :: 0 <= i < j < |files| ==> files[i].number > files[j].number
  }

  /** The first-level files whose range covers the key, sorted newest first. */
  method CoveringNewestFirst(files: seq<File>, u: UserKey) returns (tmp: seq<File>)
    requires forall i, j :: 0 <= i < j < |files| ==> files[i].number != files[j].number
    ensures NewestFirst(tmp)
    ensures forall f :: f in tmp <==> f in files && f.Covers(u)
  {
    tmp := [];
    for i := 0 to |files|
      invariant NewestFirst(tmp)
      invariant forall f :: f in tmp <==> f in files[..i] && f.Covers(u)
    {
      assert files[..i + 1] == files[..i] + [files[i]];
      if files[i].Covers(u) {
        forall f | f in tmp
          ensures f.number != files[i].number
        {
          assert f in files[..i];
        }
        tmp := InsertNewestFirst(tmp, files[i]);
      }
    }
    assert files[..|files|] == files;
  }

  function InsertNewestFirst(tmp: seq<File>, f: File): (r: seq<File>)
    requires NewestFirst(tmp) && forall g :: g in tmp ==> g.number != f.number
    ensures NewestFirst(r)
    ensures forall g :: g in r <==> g in tmp || g == f
  {
    if tmp == [] then [f]
    else if f.number > tmp[0].number then [f] + tmp
    else
      var rest := InsertNewestFirst(tmp[1..], f);
      assert forall g :: g in tmp <==> g == tmp[0] || g in tmp[1..];
      assert forall k :: 0 <= k < |tmp| - 1 ==> tmp[1..][k] == tmp[k + 1];
      assert forall g :: g in rest ==> g.number < tmp[0].number;
      assert forall i :: 0 <= i < |rest| ==> rest[i] in rest;
      [tmp[0]] + rest
  }

  /** The first-level search: the newest file that holds anything visible settles the matter. */
  method SearchFirstLevel(v: Version, u: UserKey, snapshot: nat) returns (found: Option<Entry>)
    requires LevelsOk(v) && NewerAbove(v)
    ensures found.None? ==> NothingAbove(v, 1, u, snapshot)
    ensures found.Some? ==> IsNewest(VersionEntries(v), u, snapshot, found.value)
  {
    var tmp := CoveringNewestFirst(v[0], u);
    for k := 0 to |tmp|
      invariant forall i, e :: 0 <= i < k && e in tmp[i].entries ==> !Visible(e.key, u, snapshot)
    {
      var f := tmp[k];
      assert f in v[0];
      found := SearchSorted(f.entries, u, snapshot);
      if found.Some? {
        FirstLevelNewest(v, u, snapshot, tmp, k, found.value);
        return;
      }
    }
    found := None;
    forall i, e | 0 <= i < |v[0]| && e in v[0][i].entries
      ensures !Visible(e.key, u, snapshot)
    {
      EntryWithinFile(v[0][i], e);
      if v[0][i] in tmp {
        var k :| 0 <= k < |tmp| && tmp[k] == v[0][i];
      }
    }
  }

  lemma FirstLevelNewest(v: Version, u: UserKey, snapshot: nat, tmp: seq<File>, k: nat, e: Entry)
    requires LevelsOk(v) && NewerAbove(v) && NewestFirst(tmp) && k < |tmp|
    requires forall f :: f in tmp <==> f in v[0] && f.Covers(u)
    requires forall i, x :: 0 <= i < k && x in tmp[i].entries ==> !Visible(x.key, u, snapshot)
    requires IsNewest(Elements(tmp[k].entries), u, snapshot, e)
    ensures IsNewest(VersionEntries(v), u, snapshot, e)
  {
    assert tmp[k] in v[0];
    var n :| 0 <= n < |v[0]| && v[0][n] == tmp[k];
    forall x | x in VersionEntries(v) && Visible(x.key, u, snapshot)
      ensures !Less(x.key, e.key)
    {
      var q, j :| 0 <= q < |v| && 0 <= j < |v[q]| && x in v[q][j].entries;
      if q > 0 {
        assert NewerThan(v[0][n].entries, v[q][j].entries);
      } else {
        EntryWithinFile(v[0][j], x);
        assert v[0][j] in tmp;
        var m :| 0 <= m < |tmp| && tmp[m] == v[0][j];
        if m > k {
          assert NewerThan(v[0][n].entries, v[0][j].entries);
        } else {
          assert m == k;
          assert x in Elements(tmp[k].entries);
        }
      }
    }
  }

  /** The search of one sorted level: at most one file can hold what is looked for. */
  method SearchSortedLevel(v: Version, level: nat, u: UserKey, snapshot: nat) returns (found: Option<Entry>)
    requires LevelsOk(v) && NewerAbove(v) && 1 <= level < NUM_LEVELS
    requires NothingAbove(v, level, u, snapshot)
    ensures found.None? ==> NothingAbove(v, level + 1, u, snapshot)
    ensures found.Some? ==> IsNewest(VersionEntries(v), u, snapshot, found.value)
  {
    var files := v[level];
    var index := FindFile(files, SeekKey(u, snapshot));
    LevelSplit(files, index, u, snapshot);
    found := None;
    if index < |files| {
      if u < files[index].smallest.user {
        // The file begins after the user key
        forall e | e in files[index].entries
          ensures !Visible(e.key, u, snapshot)
        {
          EntryWithinFile(files[index], e);
        }
      } else {
        found := SearchSorted(files[index].entries, u, snapshot);
      }
      if found.Some? {
        LevelNewest(v, level, index, u, snapshot, found.value);
      } else {
        LevelExhausted(v, level, index, u, snapshot);
      }
    }
  }

  /** Around the file that the binary search lands on. */
  lemma LevelSplit(files: seq<File>, index: nat, u: UserKey, snapshot: nat)
    requires FilesOk(files) && DisjointSorted(files) && index <= |files|
    requires forall i :: 0 <= i < index ==> Less(files[i].largest, SeekKey(u, snapshot))
    ensures forall i, e :: 0 <= i < index && e in files[i].entries ==> !Visible(e.key, u, snapshot)
    ensures forall i, e, x :: index < i < |files| && e in files[i].entries && x in files[index].entries ==>
              Less(x.key, e.key)
  {
    forall i, e | 0 <= i < index && e in files[i].entries
      ensures !Visible(e.key, u, snapshot)
    {
      EntryWithinFile(files[i], e);
    }
    forall i, e, x | index < i < |files| && e in files[i].entries && x in files[index].entries
      ensures Less(x.key, e.key)
    {
      EntryWithinFile(files[i], e);
      EntryWithinFile(files[index], x);
      assert Less(files[index].largest, files[i].smallest);
    }
  }

  lemma LevelNewest(v: Version, level: nat, index: nat, u: UserKey, snapshot: nat, e: Entry)
    requires LevelsOk(v) && NewerAbove(v) && 1 <= level < NUM_LEVELS && index < |v[level]|
    requires NothingAbove(v, level, u, snapshot)
    requires forall i, x :: 0 <= i < index && x in v[level][i].entries ==> !Visible(x.key, u, snapshot)
    requires forall i, x, y :: index < i < |v[level]| && x in v[level][i].entries && y in v[level][index].entries ==>
               Less(y.key, x.key)
    requires IsNewest(Elements(v[level][index].entries), u, snapshot, e)
    ensures IsNewest(VersionEntries(v), u, snapshot, e)
  {
    forall x | x in VersionEntries(v) && Visible(x.key, u, snapshot)
      ensures !Less(x.key, e.key)
    {
      var q, j :| 0 <= q < |v| && 0 <= j < |v[q]| && x in v[q][j].entries;
      if q > level {
        assert NewerThan(v[level][index].entries, v[q][j].entries);
      } else {
        assert q == level;
        if j == index {
          assert x in Elements(v[level][index].entries);
        }
      }
    }
  }

  lemma LevelExhausted(v: Version, level: nat, index: nat, u: UserKey, snapshot: nat)
    requires LevelsOk(v) && 1 <= level < NUM_LEVELS && index < |v[level]|
    requires NothingAbove(v, level, u, snapshot)
    requires !Less(v[level][index].largest, SeekKey(u, snapshot))
    requires forall e :: e in v[level][index].entries ==> !Visible(e.key, u, snapshot)
    requires forall i, e :: 0 <= i < index && e in v[level][i].entries ==> !Visible(e.key, u, snapshot)
    requires forall i, x, y :: index < i < |v[level]| && x in v[level][i].entries && y in v[level][index].entries ==>
               Less(y.key, x.key)
    ensures NothingAbove(v, level + 1, u, snapshot)
  {
    var f := v[level][index];
    var last := f.entries[|f.entries| - 1];
    assert last in f.entries;
    assert last.key.user > u;
    forall p, i, e | 0 <= p < level + 1 && 0 <= i < |v[p]| && e in v[p][i].entries
      ensures !Visible(e.key, u, snapshot)
    {
      if p == level && i > index {
        assert Less(last.key, e.key);
      }
    }
  }

  method VersionGet(v: Version, u: UserKey, snapshot: nat) returns (found: Option<Entry>)
    requires LevelsOk(v) && NewerAbove(v)
    ensures found.None? ==> forall e :: e in VersionEntries(v) ==> !Visible(e.key, u, snapshot)
    ensures found.Some? ==> IsNewest(VersionEntries(v), u, snapshot, found.value)
  {
    found := SearchFirstLevel(v, u, snapshot);
    if found.Some? {
      return;
    }
    for level := 1 to NUM_LEVELS
      invariant NothingAbove(v, level, u, snapshot)
    {
      found := SearchSortedLevel(v, level, u, snapshot);
      if found.Some? {
        return;
      }
    }
    found := None;
  }

  // ------------------------------------------------------------------ the whole store

  /** Everything stored: active memtable, the one being flushed, and the current version. */
  ghost function StoreEntries(mem: seq<Entry>, imm: Option<seq<Entry>>, v: Version): set<Entry> {
    Elements(mem) + (if imm.Some? then Elements(imm.value) else {}) + VersionEntries(v)
  }

  ghost predicate NewerThanVersion(es: seq<Entry>, v: Version) {
    forall a, b :: a in es && b in VersionEntries(v) && a.key.user == b.key.user ==> Less(a.key, b.key)
  }

  /** The ordering of the parts that a lookup relies on when it stops at the first one. */
  ghost predicate PartsOrdered(mem: seq<Entry>, imm: Option<seq<Entry>>, v: Version) {
    && Sorted(mem) && (imm.Some? ==> Sorted(imm.value)) && LevelsOk(v)
    && NewerAbove(v) && NewerThanVersion(mem, v)
    && (imm.Some? ==> NewerThan(mem, imm.value) && NewerThanVersion(imm.value, v))
  }

  lemma KeysApart(v: Version, p: nat, i: nat, a: Entry, q: nat, j: nat, b: Entry)
    requires LevelsOk(v) && NewerAbove(v)
    requires p < NUM_LEVELS && i < |v[p]| && a in v[p][i].entries
    requires q < NUM_LEVELS && j < |v[q]| && b in v[q][j].entries
    requires p < q || (p == q && i < j)
    ensures a.key != b.key
  {
    if p < q {
      assert NewerThan(v[p][i].entries, v[q][j].entries);
    } else if p == 0 {
      assert v[0][i].number != v[0][j].number;
      assert NewerThan(v[0][i].entries, v[0][j].entries) || NewerThan(v[0][j].entries, v[0][i].entries);
    } else {
      EntryWithinFile(v[p][i], a);
      EntryWithinFile(v[q][j], b);
      assert Less(v[p][i].largest, v[p][j].smallest);
    }
  }

  lemma LevelFileOk(v: Version, p: nat, i: nat)
    requires LevelsOk(v) && p < NUM_LEVELS && i < |v[p]|
    ensures v[p][i].Ok()
  {
  }

  lemma VersionUnique(v: Version)
    requires LevelsOk(v) && NewerAbove(v)
    ensures UniqueKeys(VersionEntries(v))
  {
    hide NewerAbove, FilesOk, DisjointSorted;
    forall a, b | a in VersionEntries(v) && b in VersionEntries(v) && a != b
      ensures a.key != b.key
    {
      var p, i :| 0 <= p < |v| && 0 <= i < |v[p]| && a in v[p][i].entries;
      var q, j :| 0 <= q < |v| && 0 <= j < |v[q]| && b in v[q][j].entries;
      if p == q && i == j {
        LevelFileOk(v, p, i);
        SortedUnique(v[p][i].entries);
        assert a in Elements(v[p][i].entries) && b in Elements(v[p][i].entries);
      } else if p < q || (p == q && i < j) {
        KeysApart(v, p, i, a, q, j, b);
      } else {
        KeysApart(v, q, j, b, p, i, a);
      }
    }
  }

  lemma SortedUnique(es: seq<Entry>)
    requires Sorted(es)
    ensures UniqueKeys(Elements(es))
  {
  }

  lemma PartsUnique(mem: seq<Entry>, imm: Option<seq<Entry>>, v: Version)
    requires PartsOrdered(mem, imm, v)
    ensures UniqueKeys(StoreEntries(mem, imm, v))
  {
    VersionUnique(v);
    SortedUnique(mem);
    if imm.Some? {
      SortedUnique(imm.value);
    }
  }

  /** The database read.  Searching part by part and stopping at the first hit gives the outcome
      of the newest visible entry of the whole store. */
  method Get(mem: seq<Entry>, imm: Option<seq<Entry>>, v: Version, u: UserKey, snapshot: nat) returns (r: ReadResult)
    requires PartsOrdered(mem, imm, v)
    ensures r == ReadAt(StoreEntries(mem, imm, v), u, snapshot)
  {
    ghost var all := StoreEntries(mem, imm, v);
    var found := SearchSorted(mem, u, snapshot);
    if found.None? && imm.Some? {
      found := SearchSorted(imm.value, u, snapshot);
    }
    if found.None? {
      found := VersionGet(v, u, snapshot);
    }
    if found.Some? {
      PartsUnique(mem, imm, v);
      assert IsNewest(all, u, snapshot, found.value);
      ReadAtNewest(all, u, snapshot, found.value);
      return Outcome(found.value);
    } else {
      ReadAtInvisible(all, u, snapshot);
      return Missing;
    }
  }
}
