/** Choosing files: binary search within a level, the overlap tests, and the loops that grow the
    input set of a compaction. */
module InputSelection {
  import opened Options
  import opened InternalKeys
  import opened Files

  // ------------------------------------------------------------------ searching one level

  method FindFile(files: seq<File>, key: InternalKey) returns (index: nat)
    requires FilesOk(files) && DisjointSorted(files)
    ensures index <= |files|
    ensures forall i :: 0 <= i < index ==> Less(files[i].largest, key)
    ensures forall i :: index <= i < |files| ==> !Less(files[i].largest, key)
  {
    LargestAscends(files);
    var left, right := 0, |files|;
    while left < right
      invariant 0 <= left <= right <= |files|
      invariant forall i :: 0 <= i < left ==> Less(files[i].largest, key)
      invariant forall i :: right <= i < |files| ==> !Less(files[i].largest, key)
    {
      var mid := (left + right) / 2;
      if Less(files[mid].largest, key) {
        left := mid + 1;
      } else {
        right := mid;
      }
    }
    index := right;
  }

  lemma LargestAscends(files: seq<File>)
    requires FilesOk(files) && DisjointSorted(files)
    ensures forall i, j :: 0 <= i < j < |files| ==> Less(files[i].largest, files[j].largest)
  {
    forall i, j | 0 <= i < j < |files|
      ensures Less(files[i].largest, files[j].largest)
    {
      EntryWithinFile(files[j], files[j].entries[0]);
    }
  }

  predicate Meets(f: File, lo: Option<UserKey>, hi: Option<UserKey>) {
    && (lo.Some? ==> lo.value <= f.largest.user)
    && (hi.Some? ==> f.smallest.user <= hi.value)
  }

  /** A key no lookup can precede; every key a writer produces is one. */
  predicate Reachable(k: InternalKey) {
    Packed(k) <= Packed(SeekKey(k.user, MAX_SEQUENCE))
  }

  method SomeFileOverlapsRange(disjointSortedFiles: bool, files: seq<File>, lo: Option<UserKey>, hi: Option<UserKey>)
    returns (overlaps: bool)
    requires FilesOk(files) && (disjointSortedFiles ==> DisjointSorted(files))
    requires forall i :: 0 <= i < |files| ==> Reachable(files[i].largest)
    ensures overlaps <==> exists i :: 0 <= i < |files| && Meets(files[i], lo, hi)
  {
    if !disjointSortedFiles {
      // Level 0 is not sorted, so every file is looked at
      for i := 0 to |files|
        invariant forall k :: 0 <= k < i ==> !Meets(files[k], lo, hi)
      {
        if Meets(files[i], lo, hi) {
          return true;
        }
      }
      return false;
    }
    var index := 0;
    if lo.Some? {
      index := FindFile(files, SeekKey(lo.value, MAX_SEQUENCE));
    }
    if index >= |files| {
      return false;
    }
    overlaps := !(hi.Some? && hi.value < files[index].smallest.user);
    forall i | index <= i < |files|
      ensures files[index].smallest.user <= files[i].smallest.user
      ensures lo.Some? ==> lo.value <= files[i].largest.user
    {
      EntryWithinFile(files[index], files[index].entries[0]);
      if index < i {
        assert Less(files[index].largest, files[i].smallest);
      }
      assert Reachable(files[i].largest);
    }
    assert Meets(files[index], lo, hi) <==> overlaps;
    assert forall i :: 0 <= i < index ==> !Meets(files[i], lo, hi);
  }

  // ------------------------------------------------------------------ overlapping inputs

  function Overlapping(files: seq<File>, lo: Option<UserKey>, hi: Option<UserKey>): seq<File> {
    if files == [] then []
    else
      var f := files[|files| - 1];
      Overlapping(files[..|files| - 1], lo, hi) + (if Meets(f, lo, hi) then [f] else [])
  }

  lemma {:induction false} OverlappingMembers(files: seq<File>, lo: Option<UserKey>, hi: Option<UserKey>, f: File)
    ensures f in Overlapping(files, lo, hi) <==> f in files && Meets(f, lo, hi)
  {
    if files != [] {
      OverlappingMembers(files[..|files| - 1], lo, hi, f);
      assert files == files[..|files| - 1] + [files[|files| - 1]];
    }
  }

  /** [lo, hi] lies within [a, b], where an absent bound is infinite. */
  predicate Within(lo: Option<UserKey>, hi: Option<UserKey>, a: Option<UserKey>, b: Option<UserKey>) {
    && (a.Some? ==> lo.Some? && a.value <= lo.value)
    && (b.Some? ==> hi.Some? && hi.value <= b.value)
  }

  /** Every file that meets the range lies inside it. */
  predicate ClosedRange(files: seq<File>, lo: Option<UserKey>, hi: Option<UserKey>) {
    forall i :: 0 <= i < |files| && Meets(files[i], lo, hi) ==>
      && (lo.Some? ==> lo.value <= files[i].smallest.user)
      && (hi.Some? ==> files[i].largest.user <= hi.value)
  }

  /** No closed range that contains the one asked for is smaller than [lo, hi]. */
  ghost predicate Least(files: seq<File>, begin: Option<UserKey>, end: Option<UserKey>, lo: Option<UserKey>,
      hi: Option<UserKey>) {
    forall a, b :: ClosedRange(files, a, b) && Within(begin, end, a, b) ==> Within(lo, hi, a, b)
  }

  ghost function StartingBefore(files: seq<File>, lo: Option<UserKey>): set<nat> {
    set i: nat | i < |files| && lo.Some? && files[i].smallest.user < lo.value
  }

  ghost function EndingAfter(files: seq<File>, hi: Option<UserKey>): set<nat> {
    set i: nat | i < |files| && hi.Some? && hi.value < files[i].largest.user
  }

  lemma ClosedAtStart(files: seq<File>)
    ensures forall lo, hi :: ClosedRange(files[..0], lo, hi)
  {
  }

  lemma ClosedStep(files: seq<File>, i: nat, lo: Option<UserKey>, hi: Option<UserKey>)
    requires i < |files|
    ensures ClosedRange(files[..i + 1], lo, hi)
            <==> ClosedRange(files[..i], lo, hi)
                 && (Meets(files[i], lo, hi) ==> (lo.Some? ==> lo.value <= files[i].smallest.user)
                                                 && (hi.Some? ==> files[i].largest.user <= hi.value))
  {
    assert files[..i + 1][i] == files[i];
    assert forall k :: 0 <= k < i ==> files[..i + 1][k] == files[..i][k];
  }

  lemma LeastAtStart(files: seq<File>, begin: Option<UserKey>, end: Option<UserKey>)
    ensures Least(files, begin, end, begin, end)
  {
  }

  lemma WidenBegin(files: seq<File>, begin: Option<UserKey>, end: Option<UserKey>, lo: Option<UserKey>,
      hi: Option<UserKey>, i: nat)
    requires FilesOk(files) && Least(files, begin, end, lo, hi)
    requires i < |files| && Meets(files[i], lo, hi) && lo.Some? && files[i].smallest.user < lo.value
    ensures Least(files, begin, end, Some(files[i].smallest.user), hi)
    ensures StartingBefore(files, Some(files[i].smallest.user)) < StartingBefore(files, lo)
  {
    assert i in StartingBefore(files, lo);
    assert i !in StartingBefore(files, Some(files[i].smallest.user));
    forall a, b | ClosedRange(files, a, b) && Within(begin, end, a, b)
      ensures Within(Some(files[i].smallest.user), hi, a, b)
    {
      assert Within(lo, hi, a, b);
      assert Meets(files[i], a, b);
    }
  }

  lemma WidenEnd(files: seq<File>, begin: Option<UserKey>, end: Option<UserKey>, lo: Option<UserKey>,
      hi: Option<UserKey>, i: nat)
    requires FilesOk(files) && Least(files, begin, end, lo, hi)
    requires i < |files| && Meets(files[i], lo, hi) && hi.Some? && hi.value < files[i].largest.user
    ensures Least(files, begin, end, lo, Some(files[i].largest.user))
    ensures EndingAfter(files, Some(files[i].largest.user)) < EndingAfter(files, hi)
  {
    assert i in EndingAfter(files, hi);
    assert i !in EndingAfter(files, Some(files[i].largest.user));
    forall a, b | ClosedRange(files, a, b) && Within(begin, end, a, b)
      ensures Within(lo, Some(files[i].largest.user), a, b)
    {
      assert Within(lo, hi, a, b);
      assert Meets(files[i], a, b);
    }
  }

  lemma OverlappingStep(files: seq<File>, i: nat, lo: Option<UserKey>, hi: Option<UserKey>)
    requires i < |files|
    ensures Overlapping(files[..i + 1], lo, hi)
            == Overlapping(files[..i], lo, hi) + (if Meets(files[i], lo, hi) then [files[i]] else [])
  {
    assert files[..i + 1][..i] == files[..i];
  }

  /** On the first level, files overlap each other, so the search restarts with a wider range
      whenever a file sticks out of it.  It stops with exactly the files that meet the least range
      that contains the one asked for and is closed under overlap. */
  method GetOverlappingInputs(files: seq<File>, level: nat, begin: Option<UserKey>, end: Option<UserKey>)
    returns (inputs: seq<File>, ghost lo: Option<UserKey>, ghost hi: Option<UserKey>)
    requires FilesOk(files)
    ensures exists l, h :: Least(files, begin, end, l, h) && (level == 0 ==> ClosedRange(files, l, h))
                           && inputs == Overlapping(files, l, h)
    ensures level > 0 ==> inputs == Overlapping(files, begin, end)
    ensures inputs == Overlapping(files, lo, hi)
    ensures level > 0 ==> lo == begin && hi == end
    ensures level == 0 ==> ClosedRange(files, lo, hi)
    ensures Within(begin, end, lo, hi) && Least(files, begin, end, lo, hi)
    ensures lo.Some? == begin.Some? && hi.Some? == end.Some?
  {
    hide Least, StartingBefore, EndingAfter, ClosedRange;
    ClosedAtStart(files);
    inputs := [];
    var userBegin, userEnd := begin, end;
    LeastAtStart(files, begin, end);
    var i := 0;
    while i < |files|
      invariant 0 <= i <= |files|
      invariant userBegin.Some? == begin.Some? && userEnd.Some? == end.Some?
      invariant inputs == Overlapping(files[..i], userBegin, userEnd)
      invariant level > 0 ==> userBegin == begin && userEnd == end
      invariant level == 0 ==> ClosedRange(files[..i], userBegin, userEnd)
      invariant Within(begin, end, userBegin, userEnd)
      invariant Least(files, begin, end, userBegin, userEnd)
      decreases StartingBefore(files, userBegin), EndingAfter(files, userEnd), |files| - i
    {
      var f := files[i];
      OverlappingStep(files, i, userBegin, userEnd);
      ClosedStep(files, i, userBegin, userEnd);
      i := i + 1;
      if Meets(f, userBegin, userEnd) {
        inputs := inputs + [f];
        if level == 0 {
          // A file that reaches beyond the range widens it, and the search begins anew
          if userBegin.Some? && f.smallest.user < userBegin.value {
            WidenBegin(files, begin, end, userBegin, userEnd, i - 1);
            userBegin := Some(f.smallest.user);
            inputs := [];
            i := 0;
          } else if userEnd.Some? && userEnd.value < f.largest.user {
            WidenEnd(files, begin, end, userBegin, userEnd, i - 1);
            userEnd := Some(f.largest.user);
            inputs := [];
            i := 0;
          }
        }
      }
    }
    assert files[..i] == files;
    lo, hi := userBegin, userEnd;
  }
}
