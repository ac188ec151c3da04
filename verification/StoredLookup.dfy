/** Lookup in a version whose files are bytes on disk: each file is opened and searched through its
    index, filter and blocks, and what is found is what a search of the files' entries finds. */
module StoredLookup {
  import opened Options
  import opened InternalKeys
  import opened Reads
  import opened Files
  import opened InputSelection
  import opened PointLookup
  import opened Coding
  import opened Bytewise
  import opened TableFormat
  import opened TableShapes
  import opened Tables
  import opened Bloom
  import opened History
  import opened StoreMachine

  // ------------------------------------------------------------------ entries as rows

  /** The byte string that a user key's rank stands for. */
  type Naming = UserKey -> Bytes

  ghost predicate Names(name: Naming, users: set<UserKey>) {
    forall u, w :: u in users && w in users ==> (u < w <==> BytesLess(name(u), name(w)))
  }

  function StoredKeyOf(name: Naming, k: InternalKey): StoredKey {
    StoredKey(name(k.user), Packed(k))
  }

  function RowOf(name: Naming, e: Entry): Row {
    Row(StoredKeyOf(name, e.key), e.value)
  }

  ghost function RowsOf(name: Naming, es: seq<Entry>): (rows: seq<Row>)
    ensures |rows| == |es| && forall i :: 0 <= i < |es| ==> rows[i] == RowOf(name, es[i])
  {
    seq(|es|, i requires 0 <= i < |es| => RowOf(name, es[i]))
  }

  /** The keys are among those named, and their sequence numbers are within bounds. */
  ghost predicate KeysWithin(users: set<UserKey>, es: seq<Entry>) {
    forall e :: e in es ==> e.key.user in users && e.key.sequence <= MAX_SEQUENCE
  }

  lemma SameName(name: Naming, users: set<UserKey>, u: UserKey, w: UserKey)
    requires Names(name, users) && u in users && w in users
    ensures name(u) == name(w) <==> u == w
  {
    Irreflexive(name(u));
  }

  lemma OrderKept(name: Naming, users: set<UserKey>, a: InternalKey, b: InternalKey)
    requires Names(name, users) && a.user in users && b.user in users
    ensures Less(a, b) <==> StoredLess(StoredKeyOf(name, a), StoredKeyOf(name, b))
  {
    SameName(name, users, a.user, b.user);
  }

  /** What a row stands for, its user key known. */
  function EntryOfRow(u: UserKey, row: Row): Entry {
    Entry(InternalKey(u, row.key.packed / 256, row.key.packed % 256), row.value)
  }

  lemma EntryBack(name: Naming, e: Entry)
    ensures EntryOfRow(e.key.user, RowOf(name, e)) == e
  {
  }

  lemma RowsMembers(name: Naming, es: seq<Entry>, row: Row)
    ensures row in RowsOf(name, es) <==> exists e :: e in es && RowOf(name, e) == row
  {
    if e :| e in es && RowOf(name, e) == row {
      var i :| 0 <= i < |es| && es[i] == e;
      assert RowsOf(name, es)[i] == row;
    }
  }

  /** A first row of the user is the newest visible entry. */
  lemma FirstIsNewest(name: Naming, users: set<UserKey>, es: seq<Entry>, u: UserKey, snapshot: nat, row: Row)
    requires Names(name, users) && KeysWithin(users, es) && u in users
    requires FirstRow(RowsOf(name, es), StoredKeyOf(name, SeekKey(u, snapshot)), row) && row.key.user == name(u)
    ensures IsNewest(Elements(es), u, snapshot, EntryOfRow(u, row))
  {
    hide StoredLess, Less, Packed;
    var seek := SeekKey(u, snapshot);
    RowsMembers(name, es, row);
    var e :| e in es && RowOf(name, e) == row;
    SameName(name, users, e.key.user, u);
    EntryBack(name, e);
    OrderKept(name, users, e.key, seek);
    forall x | x in Elements(es) && Visible(x.key, u, snapshot)
      ensures !Less(x.key, e.key)
    {
      RowsMembers(name, es, RowOf(name, x));
      OrderKept(name, users, x.key, seek);
      OrderKept(name, users, x.key, e.key);
    }
  }

  /** The newest visible entry is a first row of the user. */
  lemma NewestIsFirst(name: Naming, users: set<UserKey>, es: seq<Entry>, u: UserKey, snapshot: nat, e: Entry)
    requires Names(name, users) && KeysWithin(users, es) && u in users && IsNewest(Elements(es), u, snapshot, e)
    ensures FirstRow(RowsOf(name, es), StoredKeyOf(name, SeekKey(u, snapshot)), RowOf(name, e))
  {
    var seek := SeekKey(u, snapshot);
    RowsMembers(name, es, RowOf(name, e));
    OrderKept(name, users, e.key, seek);
    forall row | row in RowsOf(name, es) && !StoredLess(row.key, StoredKeyOf(name, seek))
      ensures !StoredLess(row.key, StoredKeyOf(name, e.key))
    {
      RowsMembers(name, es, row);
      var x :| x in es && RowOf(name, x) == row;
      OrderKept(name, users, x.key, seek);
      OrderKept(name, users, x.key, e.key);
      assert x.key.user == u ==> x in Elements(es) && Visible(x.key, u, snapshot);
    }
  }

  // ------------------------------------------------------------------ the files

  class TableCache {
    const disk: map<nat, Bytes>
    const name: Naming
    const policy: BloomFilterPolicy?
    const policyName: Bytes
    const verify: bool
    ghost const users: set<UserKey>
    ghost const plans: map<nat, Plan>

    constructor (disk: map<nat, Bytes>, name: Naming, policy: BloomFilterPolicy?, policyName: Bytes, verify: bool,
                 ghost users: set<UserKey>, ghost plans: map<nat, Plan>)
      ensures this.disk == disk && this.name == name && this.policy == policy && this.policyName == policyName
      ensures this.verify == verify && this.users == users && this.plans == plans
    {
      this.disk, this.name, this.policy, this.policyName, this.verify := disk, name, policy, policyName, verify;
      this.users, this.plans := users, plans;
    }

    /** The file is a table of the file's entries; damage that shows is allowed for. */
    ghost predicate Has(f: File) {
      && f.number in disk && f.number in plans && KeysWithin(users, f.entries)
      && var p := plans[f.number];
      && FlatRows(p.blocks) == RowsOf(name, f.entries) && |p.filter| < TWO_32
      && (OpenIndex(disk[f.number], verify).Some? ==> Readable(disk[f.number], verify, policy, policyName, p))
    }

    ghost predicate Serves(v: Version) {
      && Names(name, users) && (policy != null ==> policy.Valid())
      && forall level, f :: 0 <= level < |v| && f in v[level] ==> Has(f)
    }

    /** The file is just what a builder wrote. */
    ghost predicate Intact(f: File) {
      && f.number in disk && f.number in plans
      && IsTable(disk[f.number], policy, policyName, plans[f.number])
    }

    /** Opens the file's table and looks the key up in it. */
    method Get(f: File, u: UserKey, snapshot: nat) returns (found: Option<Entry>, ok: bool)
      requires Names(name, users) && (policy != null ==> policy.Valid()) && Has(f)
      requires u in users && snapshot <= MAX_SEQUENCE
      ensures ok && found.None? ==> forall e :: e in f.entries ==> !Visible(e.key, u, snapshot)
      ensures ok && found.Some? ==> IsNewest(Elements(f.entries), u, snapshot, found.value)
      ensures Intact(f) ==> ok
    {
      hide IsTable, Readable, OpenIndex, ReadBlock, FlatRows, FirstRow, FirstFrom, StoredLess, Names, Less;
      ghost var p := plans[f.number];
      var table := Open(disk[f.number], policy, policyName, verify, policy, p);
      if table == null {
        return None, false;
      }
      var k := StoredKeyOf(name, SeekKey(u, snapshot));
      var row;
      row, ok := table.InternalGet(k, p);
      if !ok {
        if Intact(f) {
          BlocksCanBeRead(disk[f.number], verify, policy, policyName, p);
          assert false;
        }
        return None, false;
      }
      found := if row.Some? && row.value.key.user == name(u) then Some(EntryOfRow(u, row.value)) else None;
      Delivered(f, u, snapshot, row);
    }

    lemma Delivered(f: File, u: UserKey, snapshot: nat, row: Option<Row>)
      requires Names(name, users) && Has(f) && u in users
      requires var k, blocks := StoredKeyOf(name, SeekKey(u, snapshot)), plans[f.number].blocks;
               && (row.Some? ==> FirstFrom(blocks, k, row.value))
               && forall r :: FirstFrom(blocks, k, r) && r.key.user == k.user ==> row == Some(r)
      ensures row.Some? && row.value.key.user == name(u) ==>
                IsNewest(Elements(f.entries), u, snapshot, EntryOfRow(u, row.value))
      ensures !(row.Some? && row.value.key.user == name(u)) ==> forall e :: e in f.entries ==>
                !Visible(e.key, u, snapshot)
    {
      hide IsTable, Readable, OpenIndex, FlatRows, FirstRow, FirstFrom, StoredLess, Names, Less, KeysWithin;
      var k, blocks := StoredKeyOf(name, SeekKey(u, snapshot)), plans[f.number].blocks;
      var rows := RowsOf(name, f.entries);
      if row.Some? && row.value.key.user == name(u) {
        SameFirst(blocks, rows, k, row.value);
        FirstIsNewest(name, users, f.entries, u, snapshot, row.value);
      } else if w :| w in f.entries && Visible(w.key, u, snapshot) {
        assert w in Elements(f.entries);
        var e := NewestExists(Elements(f.entries), u, snapshot, w);
        NewestIsFirst(name, users, f.entries, u, snapshot, e);
        SameFirst(blocks, rows, k, RowOf(name, e));
        assert false;
      }
    }

    // ---------------------------------------------------------------- the levels

    /** Every file of the version is just what a builder wrote. */
    ghost predicate AllIntact(v: Version) {
      forall level, f :: 0 <= level < |v| && f in v[level] ==> Intact(f)
    }

    /** Some file that is not as it was built covers the key. */
    ghost predicate DamagedOver(v: Version, u: UserKey) {
      exists level, f :: 0 <= level < |v| && f in v[level] && f.Covers(u) && !Intact(f)
    }

    /** The first-level files whose range covers the key, newest first; the first that holds anything
        visible settles the matter, and so does one that cannot be read. */
    method SearchFirstLevelFiles(v: Version, u: UserKey, snapshot: nat) returns (found: Option<Entry>, ok: bool)
      requires LevelsOk(v) && NewerAbove(v) && Serves(v) && u in users && snapshot <= MAX_SEQUENCE
      ensures ok && found.None? ==> NothingAbove(v, 1, u, snapshot)
      ensures ok && found.Some? ==> IsNewest(VersionEntries(v), u, snapshot, found.value)
      ensures AllIntact(v) ==> ok
      ensures !ok ==> DamagedOver(v, u)
    {
      var tmp := CoveringNewestFirst(v[0], u);
      hide Has, Intact, NewerAbove;
      for k := 0 to |tmp|
        invariant forall i, e :: 0 <= i < k && e in tmp[i].entries ==> !Visible(e.key, u, snapshot)
      {
        assert tmp[k] in v[0];
        found, ok := Get(tmp[k], u, snapshot);
        if !ok {
          return;
        }
        if found.Some? {
          FirstLevelNewest(v, u, snapshot, tmp, k, found.value);
          return;
        }
      }
      FirstLevelExhausted(v, u, snapshot, tmp);
      found, ok := None, true;
    }

    lemma FirstLevelExhausted(v: Version, u: UserKey, snapshot: nat, tmp: seq<File>)
      requires LevelsOk(v) && forall f :: f in tmp <==> f in v[0] && f.Covers(u)
      requires forall i, e :: 0 <= i < |tmp| && e in tmp[i].entries ==> !Visible(e.key, u, snapshot)
      ensures NothingAbove(v, 1, u, snapshot)
    {
      forall i, e | 0 <= i < |v[0]| && e in v[0][i].entries
        ensures !Visible(e.key, u, snapshot)
      {
        EntryWithinFile(v[0][i], e);
        if v[0][i] in tmp {
          var k :| 0 <= k < |tmp| && tmp[k] == v[0][i];
        }
      }
    }

    /** One file of a sorted level. */
    method SearchLevelFile(v: Version, level: nat, u: UserKey, snapshot: nat) returns (found: Option<Entry>, ok: bool)
      requires LevelsOk(v) && NewerAbove(v) && Serves(v) && u in users && snapshot <= MAX_SEQUENCE
      requires 1 <= level < NUM_LEVELS && NothingAbove(v, level, u, snapshot)
      ensures ok && found.None? ==> NothingAbove(v, level + 1, u, snapshot)
      ensures ok && found.Some? ==> IsNewest(VersionEntries(v), u, snapshot, found.value)
      ensures AllIntact(v) ==> ok
      ensures !ok ==> DamagedOver(v, u)
    {
      var files := v[level];
      var index := FindFile(files, SeekKey(u, snapshot));
      LevelSplit(files, index, u, snapshot);
      hide Has, Intact, NewerAbove;
      found, ok := None, true;
      if index < |files| {
        if u < files[index].smallest.user {
          NothingBeforeFile(files[index], u, snapshot);
        } else {
          found, ok := Get(files[index], u, snapshot);
          if !ok {
            return;
          }
        }
        if found.Some? {
          LevelNewest(v, level, index, u, snapshot, found.value);
        } else {
          LevelExhausted(v, level, index, u, snapshot);
        }
      }
    }

    lemma NothingBeforeFile(f: File, u: UserKey, snapshot: nat)
      requires f.Ok() && u < f.smallest.user
      ensures forall e :: e in f.entries ==> !Visible(e.key, u, snapshot)
    {
      forall e | e in f.entries
        ensures !Visible(e.key, u, snapshot)
      {
        EntryWithinFile(f, e);
      }
    }

    /** The lookup in a version through the bytes of its files gives what the lookup in their entries
        gives, unless a file it needs cannot be read, which it reports. */
    method VersionGetFiles(v: Version, u: UserKey, snapshot: nat) returns (found: Option<Entry>, ok: bool)
      requires LevelsOk(v) && NewerAbove(v) && Serves(v) && u in users && snapshot <= MAX_SEQUENCE
      ensures ok && found.None? ==> forall e :: e in VersionEntries(v) ==> !Visible(e.key, u, snapshot)
      ensures ok && found.Some? ==> IsNewest(VersionEntries(v), u, snapshot, found.value)
      ensures AllIntact(v) ==> ok
      ensures !ok ==> DamagedOver(v, u)
    {
      hide Has, Intact, NewerAbove, DamagedOver;
      found, ok := SearchFirstLevelFiles(v, u, snapshot);
      if !ok || found.Some? {
        return;
      }
      for level := 1 to NUM_LEVELS
        invariant NothingAbove(v, level, u, snapshot)
      {
        found, ok := SearchLevelFile(v, level, u, snapshot);
        if !ok || found.Some? {
          return;
        }
      }
      found, ok := None, true;
    }

    /** The database read, down to the bytes: memtable, immutable memtable, then the files. */
    method StoredGet(mem: seq<Entry>, imm: Option<seq<Entry>>, v: Version, u: UserKey, snapshot: nat)
        returns (r: ReadResult, ok: bool)
      requires PartsOrdered(mem, imm, v) && Serves(v) && u in users && snapshot <= MAX_SEQUENCE
      ensures ok ==> r == ReadAt(StoreEntries(mem, imm, v), u, snapshot)
      ensures AllIntact(v) ==> ok
    {
      ghost var all := StoreEntries(mem, imm, v);
      var found := SearchSorted(mem, u, snapshot);
      ok := true;
      if found.None? && imm.Some? {
        found := SearchSorted(imm.value, u, snapshot);
      }
      if found.None? {
        found, ok := VersionGetFiles(v, u, snapshot);
        if !ok {
          return Missing, false;
        }
      }
      if found.Some? {
        PartsUnique(mem, imm, v);
        assert IsNewest(all, u, snapshot, found.value);
        ReadAtNewest(all, u, snapshot, found.value);
        r := Outcome(found.value);
      } else {
        ReadAtInvisible(all, u, snapshot);
        r := Missing;
      }
    }
  }

  /** In every state the machine can reach, a read through the files' bytes at a snapshot still in use
      returns what the history says, or reports a file it cannot read. */
  method ReadStore(st: Store, cache: TableCache, u: UserKey, s: nat) returns (r: ReadResult, ok: bool)
    requires Inv(st) && s >= st.OldestInUse() && cache.Serves(st.version) && u in cache.users && s <= MAX_SEQUENCE
    ensures ok ==> r == Meaning(st.history, Min(s, |st.history|), u)
    ensures cache.AllIntact(st.version) ==> ok
  {
    PartsAreOrdered(st);
    ReadMatchesHistory(st, u, s);
    hide Inv, PartsOrdered, TableCache.Serves, TableCache.AllIntact, Meaning, ReadAt;
    r, ok := cache.StoredGet(st.mem, st.imm, st.version, u, s);
  }

  ghost function NameOf(keys: set<Bytes>, u: UserKey): Bytes {
    if k :| k in keys && Rank(keys, k) == u then k else []
  }

  /** Some naming serves: the ranks of any finite set of byte strings can be named back. */
  lemma NamingExists(keys: set<Bytes>) returns (name: Naming, users: set<UserKey>)
    ensures Names(name, users) && forall k :: k in keys ==> Rank(keys, k) in users && name(Rank(keys, k)) == k
  {
    users := set k | k in keys :: Rank(keys, k);
    name := (u: UserKey) => NameOf(keys, u);
    forall a, b | a in keys && b in keys
      ensures BytesLess(a, b) <==> Rank(keys, a) < Rank(keys, b)
      ensures a == b <==> Rank(keys, a) == Rank(keys, b)
    {
      RankEmbeds(keys, a, b);
    }
    hide Rank, BytesLess;
    assert forall k :: k in keys ==> NameOf(keys, Rank(keys, k)) == k;
  }
}
