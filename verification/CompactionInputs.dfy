/** Setting up the inputs of a compaction: the files of one level and the files of the next that
    will be merged together. */
module CompactionInputs {
  import opened Options
  import opened InternalKeys
  import opened Files
  import opened InputSelection

  ghost function Members(fs: seq<File>): set<File> {
    set f | f in fs
  }

  // ------------------------------------------------------------------ ranges of user keys

  predicate IsRange(fs: seq<File>, smallest: InternalKey, largest: InternalKey) {
    && (forall i :: 0 <= i < |fs| ==> !Less(fs[i].smallest, smallest) && !Less(largest, fs[i].largest))
    && (exists i :: 0 <= i < |fs| && fs[i].smallest == smallest)
    && (exists i :: 0 <= i < |fs| && fs[i].largest == largest)
  }

  method GetRange(inputs: seq<File>) returns (smallest: InternalKey, largest: InternalKey)
    requires inputs != []
    ensures IsRange(inputs, smallest, largest)
  {
    smallest, largest := inputs[0].smallest, inputs[0].largest;
    var i := 1;
    while i < |inputs|
      invariant 1 <= i <= |inputs|
      invariant forall k :: 0 <= k < i ==> !Less(inputs[k].smallest, smallest) && !Less(largest, inputs[k].largest)
      invariant exists k :: 0 <= k < i && inputs[k].smallest == smallest
      invariant exists k :: 0 <= k < i && inputs[k].largest == largest
    {
      if Less(inputs[i].smallest, smallest) {
        smallest := inputs[i].smallest;
      }
      if Less(largest, inputs[i].largest) {
        largest := inputs[i].largest;
      }
      i := i + 1;
    }
  }

  /** All of the files begin after b. */
  ghost predicate AllAfter(fs: set<File>, b: UserKey) {
    forall f :: f in fs ==> b < f.smallest.user
  }

  /** All of the files end before a. */
  ghost predicate AllBefore(fs: set<File>, a: UserKey) {
    forall f :: f in fs ==> f.largest.user < a
  }

  ghost predicate Misses(fs: set<File>, a: UserKey, b: UserKey) {
    forall f :: f in fs ==> !f.Overlaps(a, b)
  }

  /** A file whose user-key range lies to one side of all the others. */
  ghost predicate Aside(f: File, fs: set<File>) {
    AllAfter(fs, f.largest.user) || AllBefore(fs, f.smallest.user)
  }

  /** The user-key ranges of the files join up: any range that meets none of them lies to one side
      of all of them. */
  ghost predicate Joined(fs: set<File>) {
    forall a, b :: a <= b && Misses(fs, a, b) ==> AllAfter(fs, b) || AllBefore(fs, a)
  }

  lemma SingleFileJoined(f: File)
    requires f.Ok()
    ensures Joined({f})
  {
    EntryWithinFile(f, f.entries[0]);
  }

  /** Files that each reach into the range covered by joined files leave the whole joined. */
  lemma JoinedUnion(fs: set<File>, more: set<File>)
    requires Joined(fs) && fs != {}
    requires forall f :: f in more ==> f.Ok() && !Aside(f, fs)
    ensures Joined(fs + more)
  {
    forall a, b | a <= b && Misses(fs + more, a, b)
      ensures AllAfter(fs + more, b) || AllBefore(fs + more, a)
    {
      assert Misses(fs, a, b);
      forall f | f in more
        ensures AllAfter(fs, b) ==> b < f.smallest.user
        ensures AllBefore(fs, a) ==> f.largest.user < a
      {
        EntryWithinFile(f, f.entries[0]);
        assert !f.Overlaps(a, b);
        assert !Misses(fs, f.smallest.user, f.largest.user);
        var g :| g in fs && g.Overlaps(f.smallest.user, f.largest.user);
        assert !g.Overlaps(a, b);
      }
    }
  }

  /** Closing a joined range under overlap keeps it joined: were there a gap, the range on the far
      side of it would have been a smaller closed range. */
  lemma LeastClosureJoined(files: seq<File>, fs: set<File>, begin: UserKey, end: UserKey,
                           lo: Option<UserKey>, hi: Option<UserKey>)
    requires FilesOk(files) && Joined(fs)
    requires exists f :: f in fs && f.smallest.user == begin
    requires exists f :: f in fs && f.largest.user == end
    requires ClosedRange(files, lo, hi) && Within(Some(begin), Some(end), lo, hi)
    requires lo.Some? && hi.Some? && Least(files, Some(begin), Some(end), lo, hi)
    ensures Joined(fs + Members(Overlapping(files, lo, hi)))
  {
    var found := Members(Overlapping(files, lo, hi));
    forall f
      ensures f in found <==> f in files && Meets(f, lo, hi)
    {
      OverlappingMembers(files, lo, hi, f);
    }
    forall a, b | a <= b && Misses(fs + found, a, b)
      ensures AllAfter(fs + found, b) || AllBefore(fs + found, a)
    {
      assert Misses(fs, a, b);
      if AllAfter(fs, b) {
        GapBelow(files, Some(begin), Some(end), lo, hi, a, b);
      } else {
        GapAbove(files, Some(begin), Some(end), lo, hi, a, b);
      }
    }
  }

  lemma GapBelow(files: seq<File>, begin: Option<UserKey>, end: Option<UserKey>, lo: Option<UserKey>,
      hi: Option<UserKey>, a: UserKey, b: UserKey)
    requires FilesOk(files) && Least(files, begin, end, lo, hi) && ClosedRange(files, lo, hi)
    requires begin.Some? && lo.Some? && Within(begin, end, lo, hi)
    requires a <= b < begin.value
    requires forall i :: 0 <= i < |files| && Meets(files[i], lo, hi) ==> !files[i].Overlaps(a, b)
    ensures b < lo.value
  {
    if lo.value <= b {
      assert ClosedRange(files, Some(b + 1), hi);
    }
  }

  lemma GapAbove(files: seq<File>, begin: Option<UserKey>, end: Option<UserKey>, lo: Option<UserKey>,
      hi: Option<UserKey>, a: UserKey, b: UserKey)
    requires FilesOk(files) && Least(files, begin, end, lo, hi) && ClosedRange(files, lo, hi)
    requires end.Some? && hi.Some? && Within(begin, end, lo, hi)
    requires end.value < a <= b
    requires forall i :: 0 <= i < |files| && Meets(files[i], lo, hi) ==> !files[i].Overlaps(a, b)
    ensures hi.value < a
  {
    if a <= hi.value {
      assert ClosedRange(files, lo, Some(a - 1));
    }
  }

  // ------------------------------------------------------------------ boundary files

  /** The file carries on with the user key that ends at `largest`. */
  predicate Continues(f: File, largest: InternalKey) {
    Less(largest, f.smallest) && f.smallest.user == largest.user
  }

  method FindLargestKey(files: seq<File>) returns (largest: Option<InternalKey>)
    ensures largest.None? <==> files == []
    ensures largest.Some? ==> IsLargest(files, largest.value)
  {
    if files == [] {
      return None;
    }
    var key := files[0].largest;
    var i := 1;
    while i < |files|
      invariant 1 <= i <= |files|
      invariant forall k :: 0 <= k < i ==> !Less(key, files[k].largest)
      invariant exists k :: 0 <= k < i && files[k].largest == key
    {
      if Less(key, files[i].largest) {
        key := files[i].largest;
      }
      i := i + 1;
    }
    return Some(key);
  }

  predicate IsLargest(files: seq<File>, key: InternalKey) {
    && (forall k :: 0 <= k < |files| ==> !Less(key, files[k].largest))
    && (exists k :: 0 <= k < |files| && files[k].largest == key)
  }

  method FindSmallestBoundaryFile(levelFiles: seq<File>, largest: InternalKey) returns (found: Option<File>)
    ensures found.None? ==> forall f :: f in levelFiles ==> !Continues(f, largest)
    ensures found.Some? ==> found.value in levelFiles && Continues(found.value, largest)
    ensures found.Some? ==> forall f :: f in levelFiles && Continues(f, largest) ==>
              !Less(f.smallest, found.value.smallest)
  {
    found := None;
    for i := 0 to |levelFiles|
      invariant found.None? ==> forall k :: 0 <= k < i ==> !Continues(levelFiles[k], largest)
      invariant found.Some? ==> found.value in levelFiles && Continues(found.value, largest)
      invariant found.Some? ==> forall k :: 0 <= k < i && Continues(levelFiles[k], largest) ==>
                  !Less(levelFiles[k].smallest, found.value.smallest)
    {
      var f := levelFiles[i];
      if Less(largest, f.smallest) && f.smallest.user == largest.user {
        if found.None? || Less(f.smallest, found.value.smallest) {
          found := Some(f);
        }
      }
    }
  }

  predicate Between(f: File, g: File, h: File) {
    Less(g.largest, f.smallest) && Less(f.largest, h.smallest)
  }

  /** No file of the level that lies between two chosen ones is left out. */
  ghost predicate Contiguous(levelFiles: seq<File>, chosen: seq<File>) {
    forall f, g, h :: f in levelFiles && g in chosen && h in chosen && Between(f, g, h) ==> f in chosen
  }

  ghost predicate BoundaryClosed(levelFiles: seq<File>, chosen: seq<File>) {
    forall key, f :: IsLargest(chosen, key) && f in levelFiles ==> !Continues(f, key)
  }

  /** Each file after the first n picks up the user key at which an earlier one ends. */
  ghost predicate Chained(chosen: seq<File>, n: nat) {
    forall k :: n <= k < |chosen| ==> PicksUp(chosen, k)
  }

  ghost predicate PicksUp(chosen: seq<File>, k: nat)
    requires k < |chosen|
  {
    exists j :: 0 <= j < k && chosen[j].largest.user == chosen[k].smallest.user
  }

  ghost function FilesBeyond(files: seq<File>, key: InternalKey): set<File> {
    set f | f in files && Less(key, f.smallest)
  }

  /** A sorted level with a gapless choice of its files. */
  ghost predicate GaplessChoice(levelFiles: seq<File>, chosen: seq<File>) {
    && DisjointSorted(levelFiles)
    && (forall f :: f in chosen ==> f in levelFiles)
    && Contiguous(levelFiles, chosen)
  }

  /** `result` is `from`, whose largest key is `start`, with boundary files of the level added. */
  ghost predicate Extended(levelFiles: seq<File>, from: seq<File>, start: InternalKey, result: seq<File>,
      largest: InternalKey) {
    && FilesOk(result)
    && from <= result
    && (forall k :: |from| <= k < |result| ==> result[k] in levelFiles)
    && IsLargest(result, largest)
    && (if |result| == |from| then largest == start else Continues(result[|from|], start))
    && Chained(result, |from|)
  }

  lemma ExtendByBoundary(levelFiles: seq<File>, from: seq<File>, start: InternalKey, result: seq<File>,
      largest: InternalKey, b: File)
    requires FilesOk(levelFiles) && Extended(levelFiles, from, start, result, largest)
    requires b in levelFiles && Continues(b, largest)
    ensures Extended(levelFiles, from, start, result + [b], b.largest)
    ensures FilesBeyond(levelFiles, b.largest) < FilesBeyond(levelFiles, largest)
  {
    EntryWithinFile(b, b.entries[0]);
    var grown := result + [b];
    assert grown[|result|] == b;
    assert b in FilesBeyond(levelFiles, largest) && b !in FilesBeyond(levelFiles, b.largest);
    var j :| 0 <= j < |result| && result[j].largest == largest;
    forall k | |from| <= k < |grown|
      ensures PicksUp(grown, k)
    {
      if k == |result| {
        assert grown[j].largest.user == grown[k].smallest.user;
      } else {
        assert PicksUp(result, k);
        var i :| 0 <= i < k && result[i].largest.user == result[k].smallest.user;
        assert grown[i].largest.user == grown[k].smallest.user;
      }
    }
  }

  /** Adds boundary files until none is left; the largest key grows strictly with each one. */
  method AddBoundaryInputs(levelFiles: seq<File>, compactionFiles: seq<File>) returns (result: seq<File>)
    requires FilesOk(levelFiles) && FilesOk(compactionFiles)
    ensures compactionFiles == [] ==> result == []
    ensures BoundaryClosed(levelFiles, result)
    ensures forall start :: IsLargest(compactionFiles, start) ==>
              exists largest :: Extended(levelFiles, compactionFiles, start, result, largest)
    ensures GaplessChoice(levelFiles, compactionFiles) ==> GaplessChoice(levelFiles, result)
  {
    result := compactionFiles;
    var largest := FindLargestKey(compactionFiles);
    if largest.None? {
      return;
    }
    var largestKey := largest.value;
    LargestUnique(compactionFiles, largestKey);
    ghost var start := largestKey;
    ghost var gapless := GaplessChoice(levelFiles, compactionFiles);
    var continueSearching := true;
    while continueSearching
      invariant Extended(levelFiles, compactionFiles, start, result, largestKey)
      invariant gapless ==> GaplessChoice(levelFiles, result)
      invariant !continueSearching ==> forall f :: f in levelFiles ==> !Continues(f, largestKey)
      decreases FilesBeyond(levelFiles, largestKey), continueSearching
    {
      var boundary := FindSmallestBoundaryFile(levelFiles, largestKey);
      if boundary.Some? {
        ExtendByBoundary(levelFiles, compactionFiles, start, result, largestKey, boundary.value);
        if gapless {
          ContiguousBoundary(levelFiles, result, largestKey, boundary.value);
        }
        result := result + [boundary.value];
        largestKey := boundary.value.largest;
      } else {
        continueSearching := false;
      }
    }
    LargestUnique(result, largestKey);
  }

  lemma LargestUnique(files: seq<File>, key: InternalKey)
    requires IsLargest(files, key)
    ensures forall k :: IsLargest(files, k) ==> k == key
  {
  }

  lemma ContiguousBoundary(levelFiles: seq<File>, chosen: seq<File>, key: InternalKey, b: File)
    requires FilesOk(levelFiles) && GaplessChoice(levelFiles, chosen) && IsLargest(chosen, key)
    requires b in levelFiles && Continues(b, key)
    requires forall f :: f in levelFiles && Continues(f, key) ==> !Less(f.smallest, b.smallest)
    ensures GaplessChoice(levelFiles, chosen + [b])
  {
    var last :| 0 <= last < |chosen| && chosen[last].largest == key;
    forall f, g, h | f in levelFiles && g in chosen + [b] && h in chosen + [b] && Between(f, g, h)
      ensures f in chosen + [b]
    {
      FileOrder(f);
      FileOrder(b);
      OneSide(levelFiles, f, chosen[last]);
      if h in chosen {
        FileOrder(h);
      }
    }
  }

  lemma FileOrder(f: File)
    requires f.Ok()
    ensures !Less(f.largest, f.smallest) && f.smallest.user <= f.largest.user
  {
    EntryWithinFile(f, f.entries[0]);
  }

  /** Two files of a sorted level are the same one or lie apart. */
  lemma OneSide(levelFiles: seq<File>, f: File, g: File)
    requires DisjointSorted(levelFiles) && f in levelFiles && g in levelFiles
    ensures f == g || Less(f.largest, g.smallest) || Less(g.largest, f.smallest)
  {
    var i :| 0 <= i < |levelFiles| && levelFiles[i] == f;
    var j :| 0 <= j < |levelFiles| && levelFiles[j] == g;
  }

  // ------------------------------------------------------------------ the whole choice

  /** On the first level every file outside the choice keeps clear of it. */
  ghost predicate OverlapClosed(levelFiles: seq<File>, chosen: seq<File>) {
    forall f :: f in levelFiles && f !in chosen ==> Aside(f, Members(chosen))
  }

  /** What a compaction needs of its level-side inputs. */
  ghost predicate GoodLevelInputs(v: Version, level: nat, inputs0: seq<File>)
    requires LevelsOk(v) && level + 1 < NUM_LEVELS
  {
    && inputs0 != []
    && (forall f :: f in inputs0 ==> f in v[level])
    && (if level == 0 then OverlapClosed(v[0], inputs0) else GaplessChoice(v[level], inputs0))
  }

  /** What a compaction needs of both sets of inputs. */
  ghost predicate GoodInputs(v: Version, level: nat, inputs0: seq<File>, inputs1: seq<File>)
    requires LevelsOk(v) && level + 1 < NUM_LEVELS
  {
    && GoodLevelInputs(v, level, inputs0)
    && BoundaryClosed(v[level], inputs0)
    && (forall f :: f in inputs1 <==> f in v[level + 1] && !Aside(f, Members(inputs0)))
    && Joined(Members(inputs0) + Members(inputs1))
  }

  lemma MeetsRange(fs: seq<File>, smallest: InternalKey, largest: InternalKey, f: File)
    requires IsRange(fs, smallest, largest)
    ensures Meets(f, Some(smallest.user), Some(largest.user)) <==> !Aside(f, Members(fs))
  {
  }

  lemma JoinedSnoc(extra: set<File>, prefix: seq<File>, j: nat, f: File)
    requires Joined(extra + Members(prefix)) && j < |prefix|
    requires prefix[j].Ok() && f.Ok() && f.smallest.user == prefix[j].largest.user
    ensures Joined(extra + Members(prefix + [f]))
  {
    FileOrder(f);
    FileOrder(prefix[j]);
    assert prefix[j] in extra + Members(prefix);
    JoinedUnion(extra + Members(prefix), {f});
    assert extra + Members(prefix + [f]) == extra + Members(prefix) + {f};
  }

  lemma {:induction false} ChainJoined(from: seq<File>, result: seq<File>, extra: set<File>)
    requires FilesOk(result) && from <= result && from != []
    requires Chained(result, |from|)
    requires Joined(extra + Members(from))
    ensures Joined(extra + Members(result))
    decreases |result|
  {
    if |result| == |from| {
      assert result == from;
    } else {
      var n := |result| - 1;
      var prefix := result[..n];
      assert Chained(prefix, |from|) by {
        forall k | |from| <= k < n
          ensures PicksUp(prefix, k)
        {
          assert PicksUp(result, k);
          var i :| 0 <= i < k && result[i].largest.user == result[k].smallest.user;
          assert prefix[i].largest.user == prefix[k].smallest.user;
        }
      }
      ChainJoined(from, prefix, extra);
      assert PicksUp(result, n);
      var j :| 0 <= j < n && result[j].largest.user == result[n].smallest.user;
      JoinedSnoc(extra, prefix, j, result[n]);
      assert result == prefix + [result[n]];
    }
  }

  lemma ClosedNeedsNoBoundary(levelFiles: seq<File>, from: seq<File>, start: InternalKey, result: seq<File>,
      largest: InternalKey)
    requires FilesOk(levelFiles) && FilesOk(from) && OverlapClosed(levelFiles, from)
    requires Extended(levelFiles, from, start, result, largest) && IsLargest(from, start)
    ensures result == from
  {
    var last :| 0 <= last < |from| && from[last].largest == start;
    FileOrder(from[last]);
    assert from[last] in Members(from);
    forall f | f in levelFiles
      ensures !Continues(f, start)
    {
      FileOrder(f);
    }
  }

  lemma InLevelOk(files: seq<File>, chosen: seq<File>)
    requires FilesOk(files) && forall f :: f in chosen ==> f in files
    ensures FilesOk(chosen)
  {
    forall i | 0 <= i < |chosen|
      ensures chosen[i].Ok()
    {
      assert chosen[i] in files;
    }
  }

  lemma OverlappingGapless(files: seq<File>, lo: Option<UserKey>, hi: Option<UserKey>)
    requires FilesOk(files) && DisjointSorted(files)
    ensures GaplessChoice(files, Overlapping(files, lo, hi))
  {
    forall f
      ensures f in Overlapping(files, lo, hi) <==> f in files && Meets(f, lo, hi)
    {
      OverlappingMembers(files, lo, hi, f);
    }
    forall f | f in files
      ensures f.smallest.user <= f.largest.user
    {
      FileOrder(f);
    }
  }

  /** Boundary files keep every property of the level-side inputs, and keep the whole joined. */
  method CloseBoundary(v: Version, level: nat, chosen: seq<File>, ghost extra: set<File>) returns (result: seq<File>)
    requires LevelsOk(v) && level + 1 < NUM_LEVELS
    requires GoodLevelInputs(v, level, chosen) && Joined(extra + Members(chosen))
    ensures chosen <= result && GoodLevelInputs(v, level, result)
    ensures BoundaryClosed(v[level], result) && Joined(extra + Members(result))
  {
    InLevelOk(v[level], chosen);
    ghost var start := LargestOf(chosen);
    result := AddBoundaryInputs(v[level], chosen);
    ghost var largest :| Extended(v[level], chosen, start, result, largest);
    ChainJoined(chosen, result, extra);
    if level == 0 {
      ClosedNeedsNoBoundary(v[0], chosen, start, result, largest);
    }
    forall f | f in result
      ensures f in v[level]
    {
      var k :| 0 <= k < |result| && result[k] == f;
      if k < |chosen| { assert result[k] == chosen[k]; }
    }
  }

  lemma {:induction false} LargestOf(files: seq<File>) returns (key: InternalKey)
    requires files != []
    ensures IsLargest(files, key)
  {
    key := files[0].largest;
    if |files| > 1 {
      var rest := LargestOf(files[1..]);
      assert forall k :: 1 <= k < |files| ==> files[k] == files[1..][k - 1];
      var r :| 0 <= r < |files| - 1 && files[1..][r].largest == rest;
      assert files[r + 1].largest == rest;
      if Less(key, rest) {
        key := rest;
      }
    }
  }

  function TotalFileSize(files: seq<File>): nat {
    if files == [] then 0 else TotalFileSize(files[..|files| - 1]) + files[|files| - 1].size
  }

  lemma {:induction false} WiderOverlapping(files: seq<File>, lo: Option<UserKey>, hi: Option<UserKey>,
      a: Option<UserKey>, b: Option<UserKey>)
    requires Within(lo, hi, a, b)
    ensures |Overlapping(files, lo, hi)| <= |Overlapping(files, a, b)|
    ensures |Overlapping(files, lo, hi)| == |Overlapping(files, a, b)| ==>
              Overlapping(files, lo, hi) == Overlapping(files, a, b)
  {
    if files != [] {
      WiderOverlapping(files[..|files| - 1], lo, hi, a, b);
    }
  }

  /** The files of the next level that reach into the range of the level-side inputs. */
  method ParentInputs(v: Version, level: nat, inputs0: seq<File>)
    returns (inputs1: seq<File>, smallest: InternalKey, largest: InternalKey)
    requires LevelsOk(v) && level + 1 < NUM_LEVELS && inputs0 != []
    ensures IsRange(inputs0, smallest, largest)
    ensures inputs1 == Overlapping(v[level + 1], Some(smallest.user), Some(largest.user))
    ensures forall f :: f in inputs1 <==> f in v[level + 1] && !Aside(f, Members(inputs0))
  {
    smallest, largest := GetRange(inputs0);
    ghost var lo, hi;
    inputs1, lo, hi := GetOverlappingInputs(v[level + 1], level + 1, Some(smallest.user), Some(largest.user));
    forall f
      ensures f in inputs1 <==> f in v[level + 1] && !Aside(f, Members(inputs0))
    {
      OverlappingMembers(v[level + 1], lo, hi, f);
      MeetsRange(inputs0, smallest, largest, f);
    }
  }

  /** The files of the level that reach into the range covered so far. */
  method ChildInputs(v: Version, level: nat, ghost inputs0: seq<File>, ghost inputs1: seq<File>,
                     allStart: InternalKey, allLimit: InternalKey)
    returns (expanded0: seq<File>)
    requires LevelsOk(v) && level + 1 < NUM_LEVELS && GoodInputs(v, level, inputs0, inputs1)
    requires IsRange(inputs0 + inputs1, allStart, allLimit)
    ensures GoodLevelInputs(v, level, expanded0) && Joined(Members(inputs1) + Members(expanded0))
    ensures forall f :: f in inputs0 ==> f in expanded0
    ensures forall f :: f in v[level] && !Aside(f, Members(inputs0 + inputs1)) ==> f in expanded0
  {
    ghost var lo, hi;
    expanded0, lo, hi := GetOverlappingInputs(v[level], level, Some(allStart.user), Some(allLimit.user));
    ghost var all := Members(inputs0) + Members(inputs1);
    assert all == Members(inputs0 + inputs1);
    InRange(v[level], inputs0, inputs1, allStart, allLimit, lo, hi);
    if level == 0 {
      LeastClosureJoined(v[0], all, allStart.user, allLimit.user, lo, hi);
      RangeOverlapClosed(v[0], lo, hi);
    } else {
      assert inputs0[0] in all;
      JoinedUnion(all, Members(expanded0));
      OverlappingGapless(v[level], lo, hi);
    }
    assert all + Members(expanded0) == Members(inputs1) + Members(expanded0);
    assert inputs0[0] in expanded0;
  }

  lemma InRange(files: seq<File>, inputs0: seq<File>, inputs1: seq<File>, allStart: InternalKey, allLimit: InternalKey,
      lo: Option<UserKey>, hi: Option<UserKey>)
    requires FilesOk(files) && IsRange(inputs0 + inputs1, allStart, allLimit) && forall f :: f in inputs0 ==> f in files
    requires Within(Some(allStart.user), Some(allLimit.user), lo, hi)
    ensures forall f :: f in Overlapping(files, lo, hi) <==> f in files && Meets(f, lo, hi)
    ensures forall f :: f in inputs0 ==> f in Overlapping(files, lo, hi)
    ensures forall f :: f in files && !Aside(f, Members(inputs0 + inputs1)) ==> f in Overlapping(files, lo, hi)
    ensures forall f :: f in files ==> f.Ok()
    ensures lo == Some(allStart.user) && hi == Some(allLimit.user) ==>
              forall f :: f in files && Meets(f, lo, hi) ==> !Aside(f, Members(inputs0 + inputs1))
  {
    var all := Members(inputs0 + inputs1);
    forall f
      ensures f in Overlapping(files, lo, hi) <==> f in files && Meets(f, lo, hi)
    {
      OverlappingMembers(files, lo, hi, f);
    }
    forall f | f in files
      ensures Meets(f, Some(allStart.user), Some(allLimit.user)) <==> !Aside(f, all)
      ensures f in inputs0 ==> !Aside(f, all)
    {
      FileOrder(f);
      MeetsRange(inputs0 + inputs1, allStart, allLimit, f);
      assert f in inputs0 ==> f in all;
    }
    assert forall f :: Meets(f, Some(allStart.user), Some(allLimit.user)) ==> Meets(f, lo, hi);
  }

  lemma RangeOverlapClosed(files: seq<File>, lo: Option<UserKey>, hi: Option<UserKey>)
    requires FilesOk(files) && ClosedRange(files, lo, hi) && lo.Some? && hi.Some?
    ensures OverlapClosed(files, Overlapping(files, lo, hi))
  {
    forall f
      ensures f in Overlapping(files, lo, hi) <==> f in files && Meets(f, lo, hi)
    {
      OverlappingMembers(files, lo, hi, f);
    }
  }

  /** All files of the level that reach into the range of all the inputs, with boundary files. */
  ghost predicate Reaches(v: Version, level: nat, inputs0: seq<File>, inputs1: seq<File>, expanded0: seq<File>)
    requires LevelsOk(v) && level + 1 < NUM_LEVELS
  {
    && GoodLevelInputs(v, level, expanded0) && BoundaryClosed(v[level], expanded0)
    && Joined(Members(inputs1) + Members(expanded0))
    && (forall f :: f in v[level] && !Aside(f, Members(inputs0 + inputs1)) ==> f in expanded0)
  }

  /** They are taken if they are more, few enough bytes, and reach into no more files of the next level. */
  ghost predicate WorthGrowing(v: Version, level: nat, inputs0: seq<File>, inputs1: seq<File>, expanded0: seq<File>,
      expandedLimit: nat)
    requires LevelsOk(v) && level + 1 < NUM_LEVELS
  {
    && |expanded0| > |inputs0| && TotalFileSize(inputs1) + TotalFileSize(expanded0) < expandedLimit
    && forall f :: f in v[level + 1] && !Aside(f, Members(expanded0)) ==> f in inputs1
  }

  /** The level-side inputs are the picked files with boundary files, or, if it is worth it, all that
      reach into the range of those and the files of the next level. */
  ghost predicate GrownFrom(v: Version, level: nat, picked: seq<File>, closed0: seq<File>, expanded0: seq<File>,
      expandedLimit: nat, inputs0: seq<File>, inputs1: seq<File>)
    requires LevelsOk(v) && level + 1 < NUM_LEVELS
  {
    && picked <= closed0 && BoundaryClosed(v[level], closed0)
    && (inputs1 != [] ==> Reaches(v, level, closed0, inputs1, expanded0))
    && inputs0 == if inputs1 != [] && WorthGrowing(v, level, closed0, inputs1, expanded0, expandedLimit)
         then expanded0 else closed0
  }

  lemma InputsExist(v: Version, level: nat, inputs0: seq<File>, inputs1: seq<File>)
    requires LevelsOk(v) && level + 1 < NUM_LEVELS && GoodInputs(v, level, inputs0, inputs1)
    ensures inputs0 != []
  {
  }

  /** Tries to take in more files of the level without taking in more of the next one. */
  method GrowInputs(v: Version, level: nat, inputs0: seq<File>, inputs1: seq<File>, smallest: InternalKey,
      largest: InternalKey, expandedLimit: nat)
    returns (grown0: seq<File>)
    requires LevelsOk(v) && level + 1 < NUM_LEVELS && GoodInputs(v, level, inputs0, inputs1)
    requires IsRange(inputs0, smallest, largest)
    requires inputs1 == Overlapping(v[level + 1], Some(smallest.user), Some(largest.user))
    ensures GoodInputs(v, level, grown0, inputs1)
    ensures forall f :: f in inputs0 ==> f in grown0
    ensures exists expanded0 :: Reaches(v, level, inputs0, inputs1, expanded0)
                                && grown0 == if WorthGrowing(v, level, inputs0, inputs1, expanded0, expandedLimit)
                                    then expanded0 else inputs0
  {
    hide Joined, Aside, OverlapClosed, GaplessChoice, BoundaryClosed, DisjointSorted, FilesOk, Overlapping,
         TotalFileSize;
    var allStart, allLimit := GetRange(inputs0 + inputs1);
    var reaching := ChildInputs(v, level, inputs0, inputs1, allStart, allLimit);
    var expanded0 := CloseBoundary(v, level, reaching, Members(inputs1));
    assert forall f :: f in reaching ==> f in expanded0;
    assert Reaches(v, level, inputs0, inputs1, expanded0);
    grown0 := inputs0;
    if |expanded0| > |inputs0| && TotalFileSize(inputs1) + TotalFileSize(expanded0) < expandedLimit {
      var expanded1, newStart, newLimit := ParentInputs(v, level, expanded0);
      WiderRange(inputs0, smallest, largest, expanded0, newStart, newLimit);
      SameParents(v[level + 1], smallest.user, largest.user, newStart.user, newLimit.user);
      if |expanded1| == |inputs1| {
        assert Members(expanded0) + Members(inputs1) == Members(inputs1) + Members(expanded0);
        grown0 := expanded0;
      }
    }
    hide Reaches, GoodInputs, GoodLevelInputs;
    assert grown0 == if WorthGrowing(v, level, inputs0, inputs1, expanded0, expandedLimit) then expanded0 else inputs0;
  }

  /** A wider range meets as many files only if it meets the same ones. */
  lemma SameParents(files: seq<File>, lo: UserKey, hi: UserKey, a: UserKey, b: UserKey)
    requires a <= lo && hi <= b
    ensures var narrow, wide := Overlapping(files, Some(lo), Some(hi)), Overlapping(files, Some(a), Some(b));
            && (|wide| == |narrow| ==> wide == narrow)
            && (|wide| == |narrow| <==> forall f :: f in wide ==> f in narrow)
  {
    var narrow, wide := Overlapping(files, Some(lo), Some(hi)), Overlapping(files, Some(a), Some(b));
    WiderOverlapping(files, Some(lo), Some(hi), Some(a), Some(b));
    if forall f :: f in wide ==> f in narrow {
      forall f | f in files
        ensures Meets(f, Some(lo), Some(hi)) <==> Meets(f, Some(a), Some(b))
      {
        OverlappingMembers(files, Some(lo), Some(hi), f);
        OverlappingMembers(files, Some(a), Some(b), f);
      }
      SameMeetings(files, Some(lo), Some(hi), Some(a), Some(b));
    }
  }

  lemma {:induction false} SameMeetings(files: seq<File>, lo: Option<UserKey>, hi: Option<UserKey>, a: Option<UserKey>,
      b: Option<UserKey>)
    requires forall f :: f in files ==> (Meets(f, lo, hi) <==> Meets(f, a, b))
    ensures Overlapping(files, lo, hi) == Overlapping(files, a, b)
  {
    if files != [] {
      assert files[|files| - 1] in files;
      SameMeetings(files[..|files| - 1], lo, hi, a, b);
    }
  }

  lemma WiderRange(fs: seq<File>, lo: InternalKey, hi: InternalKey, more: seq<File>, a: InternalKey, b: InternalKey)
    requires IsRange(fs, lo, hi) && IsRange(more, a, b) && forall f :: f in fs ==> f in more
    ensures a.user <= lo.user && hi.user <= b.user
  {
    var i :| 0 <= i < |fs| && fs[i].smallest == lo;
    var j :| 0 <= j < |fs| && fs[j].largest == hi;
    assert fs[i] in more && fs[j] in more;
  }

  /** The picked files with boundary files, and what they reach into of the next level. */
  method CloseInputs(v: Version, level: nat, picked: seq<File>)
    returns (closed0: seq<File>, inputs1: seq<File>, smallest: InternalKey, largest: InternalKey)
    requires LevelsOk(v) && level + 1 < NUM_LEVELS
    requires GoodLevelInputs(v, level, picked) && Joined(Members(picked))
    ensures GoodInputs(v, level, closed0, inputs1)
    ensures picked <= closed0 && BoundaryClosed(v[level], closed0) && IsRange(closed0, smallest, largest)
    ensures inputs1 == Overlapping(v[level + 1], Some(smallest.user), Some(largest.user))
  {
    hide Joined, Aside, OverlapClosed, GaplessChoice, BoundaryClosed, IsRange, Overlapping;
    assert {} + Members(picked) == Members(picked);
    closed0 := CloseBoundary(v, level, picked, {});
    inputs1, smallest, largest := ParentInputs(v, level, closed0);
    InLevelOk(v[level], closed0);
    InLevelOk(v[level + 1], inputs1);
    assert {} + Members(closed0) == Members(closed0);
    assert closed0[0] in Members(closed0);
    JoinedUnion(Members(closed0), Members(inputs1));
  }

  method SetupOtherInputs(v: Version, level: nat, picked: seq<File>, expandedLimit: nat)
    returns (inputs0: seq<File>, inputs1: seq<File>, compactPointer: InternalKey)
    requires LevelsOk(v) && level + 1 < NUM_LEVELS
    requires GoodLevelInputs(v, level, picked) && Joined(Members(picked))
    ensures GoodInputs(v, level, inputs0, inputs1)
    ensures forall f :: f in picked ==> f in inputs0
    ensures IsLargest(inputs0, compactPointer)
    ensures exists closed0, expanded0 ::
              GrownFrom(v, level, picked, closed0, expanded0, expandedLimit, inputs0, inputs1)
  {
    hide WorthGrowing, Reaches, GoodInputs, GoodLevelInputs, Joined, Members, Aside, BoundaryClosed, LevelsOk, IsRange;
    var closed0, smallest, largest;
    closed0, inputs1, smallest, largest := CloseInputs(v, level, picked);
    inputs0 := closed0;
    ghost var expanded0 := closed0;
    if inputs1 != [] {
      inputs0 := GrowInputs(v, level, closed0, inputs1, smallest, largest, expandedLimit);
      expanded0 :| Reaches(v, level, closed0, inputs1, expanded0)
                   && inputs0 == if WorthGrowing(v, level, closed0, inputs1, expanded0, expandedLimit)
                        then expanded0 else closed0;
    }
    assert GrownFrom(v, level, picked, closed0, expanded0, expandedLimit, inputs0, inputs1);
    InputsExist(v, level, inputs0, inputs1);
    var start;
    start, compactPointer := GetRange(inputs0);
  }

  // ------------------------------------------------------------------ whose turn it is

  /** The file ends past where the level's last compaction ended. */
  predicate Past(due: Option<InternalKey>, f: File) {
    due.Some? ==> Less(due.value, f.largest)
  }

  /** The first file past that key, or the level's first file if there is none. */
  ghost predicate IsNextDue(files: seq<File>, due: Option<InternalKey>, f: File) {
    if exists g :: g in files && Past(due, g)
    then exists k :: 0 <= k < |files| && files[k] == f && Past(due, f) && forall j :: 0 <= j < k ==>
        !Past(due, files[j])
    else files != [] && f == files[0]
  }

  /** Files in order of their smallest keys, as every level is saved. */
  predicate InKeyOrder(files: seq<File>) {
    forall i, j :: 0 <= i < j < |files| ==> !Less(files[j].smallest, files[i].smallest)
  }

  /** One turn at a level: the next file due is taken, and no file is passed over that ends between where
      the last turn ended and where this one does. */
  ghost predicate IsTurn(files: seq<File>, due: Option<InternalKey>, inputs: seq<File>, end: InternalKey) {
    && IsLargest(inputs, end)
    && (forall f :: f in inputs ==> f in files)
    && (exists f :: f in inputs && IsNextDue(files, due, f))
    && (InKeyOrder(files) ==> forall f :: f in files && !Less(end, f.largest)
                                          && ((exists g :: g in files && Past(due, g)) ==> Past(due, f))
                                ==> f in inputs)
  }

  lemma NothingPassedOver(v: Version, level: nat, due: Option<InternalKey>, first: File, inputs0: seq<File>,
      end: InternalKey)
    requires LevelsOk(v) && level + 1 < NUM_LEVELS && GoodLevelInputs(v, level, inputs0)
    requires first in inputs0 && IsNextDue(v[level], due, first) && IsLargest(inputs0, end)
    ensures IsTurn(v[level], due, inputs0, end)
  {
    var files := v[level];
    if InKeyOrder(files) {
      forall f | f in files && !Less(end, f.largest) && ((exists g :: g in files && Past(due, g)) ==> Past(due, f))
        ensures f in inputs0
      {
        NotBefore(files, due, first, f);
        FileOrder(f);
        var h :| 0 <= h < |inputs0| && inputs0[h].largest == end;
        if level == 0 {
          FileOrder(first);
          assert first in Members(inputs0) && inputs0[h] in Members(inputs0);
        } else {
          OneSide(files, f, first);
          OneSide(files, f, inputs0[h]);
          FileOrder(first);
          FileOrder(inputs0[h]);
          assert f == first || f == inputs0[h] || Between(f, first, inputs0[h]);
        }
      }
    }
  }

  /** Files past the key come no earlier than the first of them. */
  lemma NotBefore(files: seq<File>, due: Option<InternalKey>, first: File, f: File)
    requires IsNextDue(files, due, first) && InKeyOrder(files) && f in files
    requires (exists g :: g in files && Past(due, g)) ==> Past(due, f)
    ensures !Less(f.smallest, first.smallest)
  {
    var j :| 0 <= j < |files| && files[j] == f;
    if exists g :: g in files && Past(due, g) {
      var k :| 0 <= k < |files| && files[k] == first && forall i :: 0 <= i < k ==> !Past(due, files[i]);
      assert j >= k;
    }
  }

  /** Starting from one file: the next one due at its level, or one that too many seeks have hit. */
  method PickCompaction(v: Version, level: nat, due: Option<InternalKey>, seekFile: Option<File>, expandedLimit: nat)
    returns (inputs0: seq<File>, inputs1: seq<File>, compactPointer: InternalKey)
    requires LevelsOk(v) && level + 1 < NUM_LEVELS && v[level] != []
    requires seekFile.Some? ==> seekFile.value in v[level]
    ensures GoodInputs(v, level, inputs0, inputs1)
    ensures seekFile.Some? ==> seekFile.value in inputs0
    ensures seekFile.None? ==> IsTurn(v[level], due, inputs0, compactPointer)
  {
    hide Joined, Aside, OverlapClosed, GaplessChoice, BoundaryClosed, DisjointSorted, IsTurn, IsNextDue;
    var first;
    if seekFile.Some? {
      first := seekFile.value;
    } else {
      first := NextDue(v[level], due);
    }
    var picked := StartFrom(v, level, first);
    inputs0, inputs1, compactPointer := SetupOtherInputs(v, level, picked, expandedLimit);
    if seekFile.None? {
      NothingPassedOver(v, level, due, first, inputs0, compactPointer);
    }
  }

  /** On the first level the files that overlap the chosen one come along. */
  method StartFrom(v: Version, level: nat, first: File) returns (picked: seq<File>)
    requires LevelsOk(v) && level + 1 < NUM_LEVELS && first in v[level]
    ensures GoodLevelInputs(v, level, picked) && Joined(Members(picked)) && first in picked
  {
    picked := [first];
    SingleFileJoined(first);
    FileOrder(first);
    assert Members(picked) == {first};
    if level == 0 {
      ghost var lo, hi;
      picked, lo, hi := GetOverlappingInputs(v[0], 0, Some(first.smallest.user), Some(first.largest.user));
      OverlappingMembers(v[0], lo, hi, first);
      LeastClosureJoined(v[0], {first}, first.smallest.user, first.largest.user, lo, hi);
      RangeOverlapClosed(v[0], lo, hi);
      assert {first} + Members(picked) == Members(picked);
      forall f | f in picked
        ensures f in v[0]
      {
        OverlappingMembers(v[0], lo, hi, f);
      }
    } else {
      forall f | f in v[level]
        ensures !Between(f, first, first)
      {
        FileOrder(f);
      }
    }
  }

  method NextDue(files: seq<File>, due: Option<InternalKey>) returns (first: File)
    requires files != []
    ensures first in files && IsNextDue(files, due, first)
  {
    for i := 0 to |files|
      invariant forall j :: 0 <= j < i ==> !Past(due, files[j])
    {
      if due.None? || Less(due.value, files[i].largest) {
        return files[i];
      }
    }
    // From the start again
    first := files[0];
  }
}
