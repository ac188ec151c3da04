/** Table files and versions: which files make up each level of the store. */
module Files {
  import opened InternalKeys

  const NUM_LEVELS: nat := 7
  const MAX_MEM_COMPACT_LEVEL: nat := 2

  /** File metadata together with the table's contents. */
  datatype File = File(number: nat, size: nat, smallest: InternalKey, largest: InternalKey, entries: seq<Entry>) {
    predicate Ok() {
      && |entries| > 0
      && Sorted(entries)
      && smallest == entries[0].key
      && largest == entries[|entries| - 1].key
    }

    /** The user-key range of the file contains u. */
    predicate Covers(u: UserKey) {
      smallest.user <= u <= largest.user
    }

    /** The user-key range of the file meets [lo, hi]. */
    predicate Overlaps(lo: UserKey, hi: UserKey) {
      smallest.user <= hi && lo <= largest.user
    }
  }

  type Version = seq<seq<File>>

  predicate FilesOk(fs: seq<File>) {
    forall i :: 0 <= i < |fs| ==> fs[i].Ok()
  }

  /** Files in key order with no overlap: the state of every level but the first. */
  predicate DisjointSorted(fs: seq<File>) {
    forall i, j :: 0 <= i < j < |fs| ==> Less(fs[i].largest, fs[j].smallest)
  }

  predicate LevelsOk(v: Version) {
    && |v| == NUM_LEVELS
    && (forall level :: 0 <= level < NUM_LEVELS ==> FilesOk(v[level]))
    && (forall level :: 1 <= level < NUM_LEVELS ==> DisjointSorted(v[level]))
  }

  lemma EntryWithinFile(f: File, e: Entry)
    requires f.Ok() && e in f.entries
    ensures !Less(e.key, f.smallest) && !Less(f.largest, e.key)
    ensures f.Covers(e.key.user)
  {
    var i :| 0 <= i < |f.entries| && f.entries[i] == e;
    if i > 0 { assert Less(f.entries[0].key, f.entries[i].key); }
    if i < |f.entries| - 1 { assert Less(f.entries[i].key, f.entries[|f.entries| - 1].key); }
  }

  /** No file below the output level of a compaction of this level can hold the user key. */
  ghost predicate BaseLevel(v: Version, level: nat, u: UserKey)
    requires |v| == NUM_LEVELS
  {
    forall deeper, i :: level + 2 <= deeper < NUM_LEVELS && 0 <= i < |v[deeper]| ==> !v[deeper][i].Covers(u)
  }
}
