/** The meaning of a compaction: which input entries the merge loop drops, and when dropping them
    leaves every read at a live snapshot unchanged. */
module CompactionMeaning {
  import opened InternalKeys
  import opened Reads

  /** Rule (A): the entry just before is for the same user key and is already visible to the
      oldest snapshot in use.  A preceding key that does not parse hides nothing. */
  predicate HiddenByNewer(input: seq<Entry>, i: nat, smallestSnapshot: nat)
    requires i < |input|
  {
    && i > 0
    && input[i - 1].key.Parses()
    && input[i - 1].key.user == input[i].key.user
    && input[i - 1].key.sequence <= smallestSnapshot
  }

  /** The tombstone rule: a deletion every snapshot sees, with no data for its key further down. */
  predicate ObsoleteTombstone(e: Entry, smallestSnapshot: nat, base: UserKey -> bool) {
    && e.key.kind == TYPE_DELETION
    && e.key.sequence <= smallestSnapshot
    && base(e.key.user)
  }

  predicate Dropped(input: seq<Entry>, i: nat, smallestSnapshot: nat, base: UserKey -> bool)
    requires i < |input|
  {
    && input[i].key.Parses()
    && (HiddenByNewer(input, i, smallestSnapshot) || ObsoleteTombstone(input[i], smallestSnapshot, base))
  }

  /** The entries of the first n inputs that reach the output, in order. */
  function Survivors(input: seq<Entry>, n: nat, smallestSnapshot: nat, base: UserKey -> bool): seq<Entry>
    requires n <= |input|
  {
    if n == 0 then []
    else Survivors(input, n - 1, smallestSnapshot, base)
         + (if Dropped(input, n - 1, smallestSnapshot, base) then [] else [input[n - 1]])
  }

  function Kept(input: seq<Entry>, smallestSnapshot: nat, base: UserKey -> bool): seq<Entry> {
    Survivors(input, |input|, smallestSnapshot, base)
  }

  /** Keys that do not parse are carried along and may surface below a dropped tombstone. */
  ghost function Unparsable(es: seq<Entry>): set<Entry> {
    set e | e in es && !e.key.Parses()
  }

  lemma {:induction false} SurvivorsContain(input: seq<Entry>, n: nat, smallestSnapshot: nat, base: UserKey -> bool,
      e: Entry)
    requires n <= |input|
    ensures e in Survivors(input, n, smallestSnapshot, base)
            <==> exists i :: 0 <= i < n && input[i] == e && !Dropped(input, i, smallestSnapshot, base)
  {
    if n > 0 {
      SurvivorsContain(input, n - 1, smallestSnapshot, base, e);
    }
  }

  lemma {:induction false} SurvivorsSorted(input: seq<Entry>, n: nat, smallestSnapshot: nat, base: UserKey -> bool)
    requires n <= |input| && Sorted(input)
    ensures Sorted(Survivors(input, n, smallestSnapshot, base))
  {
    if n > 0 {
      SurvivorsSorted(input, n - 1, smallestSnapshot, base);
      var front := Survivors(input, n - 1, smallestSnapshot, base);
      forall k | 0 <= k < |front|
        ensures Less(front[k].key, input[n - 1].key)
      {
        SurvivorsContain(input, n - 1, smallestSnapshot, base, front[k]);
      }
    }
  }

  /** Entries for one user key are adjacent in a sorted input. */
  lemma SameUserAdjacent(input: seq<Entry>, i: nat, j: nat)
    requires Sorted(input) && i < j < |input| && input[i].key.user == input[j].key.user
    ensures input[j - 1].key.user == input[j].key.user
    ensures i < j - 1 ==> Packed(input[i].key) > Packed(input[j - 1].key)
  {
    assert Less(input[j - 1].key, input[j].key);
    if i < j - 1 {
      assert Less(input[i].key, input[j - 1].key);
    }
  }

  /** A parsed survivor below an entry that every snapshot in question can see is never the newest
      one: what comes just before it is either visible too, or hides it. */
  lemma SurvivorBelowIsShadowed(input: seq<Entry>, i: nat, j: nat, smallestSnapshot: nat, base: UserKey -> bool)
    requires Sorted(input) && i < j < |input|
    requires input[i].key.Parses() && input[i].key.user == input[j].key.user
    requires input[i].key.sequence <= smallestSnapshot
    requires input[j].key.Parses() && !Dropped(input, j, smallestSnapshot, base)
    ensures i < j - 1 && !input[j - 1].key.Parses()
    ensures input[j - 1].key.user == input[j].key.user
    ensures Less(input[i].key, input[j - 1].key) && Less(input[j - 1].key, input[j].key)
  {
    SameUserAdjacent(input, i, j);
  }

  /** Everything the tombstone could have been hiding once it is gone: entries outside the
      compaction and carried-along unparsable ones. */
  ghost function LeftBehind(input: seq<Entry>, rest: set<Entry>): set<Entry> {
    rest + Unparsable(input)
  }

  /** No visible tombstone that the compaction forgets was still hiding something. */
  ghost predicate TombstonesHideNothing(input: seq<Entry>, rest: set<Entry>, smallestSnapshot: nat,
      base: UserKey -> bool)
  {
    forall i :: 0 <= i < |input|
                && ObsoleteTombstone(input[i], smallestSnapshot, base)
                && IsNewest(Elements(input) + rest, input[i].key.user, smallestSnapshot, input[i])
                ==> ReadAt(LeftBehind(input, rest), input[i].key.user, input[i].key.sequence) == Missing
  }

  ghost predicate PreservesReads(input: seq<Entry>, rest: set<Entry>, smallestSnapshot: nat, base: UserKey -> bool)
  {
    forall u: UserKey, s: nat :: s >= smallestSnapshot ==>
      ReadAt(Elements(Kept(input, smallestSnapshot, base)) + rest, u, s)
      == ReadAt(Elements(input) + rest, u, s)
  }

  lemma KeptElements(input: seq<Entry>, smallestSnapshot: nat, base: UserKey -> bool)
    ensures forall e :: e in Elements(Kept(input, smallestSnapshot, base)) ==> e in Elements(input)
    ensures forall i :: 0 <= i < |input| && !Dropped(input, i, smallestSnapshot, base)
              ==> input[i] in Elements(Kept(input, smallestSnapshot, base))
    ensures Unparsable(input) <= Elements(Kept(input, smallestSnapshot, base))
  {
    forall e
      ensures e in Kept(input, smallestSnapshot, base)
              <==> exists i :: 0 <= i < |input| && input[i] == e && !Dropped(input, i, smallestSnapshot, base)
    {
      SurvivorsContain(input, |input|, smallestSnapshot, base, e);
    }
  }

  lemma DroppedIsNotKept(input: seq<Entry>, i: nat, smallestSnapshot: nat, base: UserKey -> bool)
    requires Sorted(input) && i < |input| && Dropped(input, i, smallestSnapshot, base)
    ensures input[i] !in Elements(Kept(input, smallestSnapshot, base))
  {
    SurvivorsContain(input, |input|, smallestSnapshot, base, input[i]);
    forall k | 0 <= k < |input| && k != i
      ensures input[k] != input[i]
    {
      SortedApart(input, k, i);
    }
  }

  /** Only a visible obsolete tombstone can be both newest and dropped. */
  lemma NewestDroppedIsTombstone(input: seq<Entry>, rest: set<Entry>, i: nat, u: UserKey, s: nat,
                                 smallestSnapshot: nat, base: UserKey -> bool)
    requires Sorted(input) && i < |input| && s >= smallestSnapshot
    requires Dropped(input, i, smallestSnapshot, base)
    requires IsNewest(Elements(input) + rest, u, s, input[i])
    ensures ObsoleteTombstone(input[i], smallestSnapshot, base)
    ensures IsNewest(Elements(input) + rest, u, smallestSnapshot, input[i])
  {
    if i > 0 {
      SortedApart(input, i - 1, i);
      assert input[i - 1] in Elements(input) + rest;
    }
  }

  /** Below a forgotten visible tombstone, the newest thing a reader can still meet is an entry
      left behind. */
  lemma NewestBelowTombstone(input: seq<Entry>, rest: set<Entry>, i: nat, s: nat,
                             smallestSnapshot: nat, base: UserKey -> bool, x: Entry)
    requires Sorted(input) && UniqueKeys(Elements(input) + rest)
    requires i < |input| && s >= smallestSnapshot
    requires ObsoleteTombstone(input[i], smallestSnapshot, base)
    requires IsNewest(Elements(input) + rest, input[i].key.user, s, input[i])
    requires input[i] !in rest
    requires IsNewest(Elements(Kept(input, smallestSnapshot, base)) + rest, input[i].key.user, s, x)
    ensures IsNewest(LeftBehind(input, rest), input[i].key.user, input[i].key.sequence, x)
  {
    var kept := Elements(Kept(input, smallestSnapshot, base));
    KeptElements(input, smallestSnapshot, base);
    DroppedIsNotKept(input, i, smallestSnapshot, base);
    assert x in Elements(input) + rest && x != input[i];
    LessIsStrictTotalOrder(x.key, input[i].key, x.key);
    assert Less(input[i].key, x.key);
    if x !in LeftBehind(input, rest) {
      assert x in kept;
      SurvivorsContain(input, |input|, smallestSnapshot, base, x);
      var j :| 0 <= j < |input| && input[j] == x && !Dropped(input, j, smallestSnapshot, base);
      SortedApart(input, i, j);
      SurvivorBelowIsShadowed(input, i, j, smallestSnapshot, base);
    }
  }

  /** What the merge loop guarantees.  Every read at every snapshot still in use gives the same
      result as before if and only if, for each tombstone that was the newest visible entry and is
      forgotten, a read of the entries left behind, just below it, finds nothing. */
  lemma CompactionPreservesReads(input: seq<Entry>, rest: set<Entry>, smallestSnapshot: nat, base: UserKey -> bool)
    requires Sorted(input) && UniqueKeys(Elements(input) + rest) && Elements(input) !! rest
    ensures PreservesReads(input, rest, smallestSnapshot, base)
            <==> TombstonesHideNothing(input, rest, smallestSnapshot, base)
  {
    if TombstonesHideNothing(input, rest, smallestSnapshot, base) {
      forall u: UserKey, s: nat | s >= smallestSnapshot
        ensures ReadAt(Elements(Kept(input, smallestSnapshot, base)) + rest, u, s)
                == ReadAt(Elements(input) + rest, u, s)
      {
        ReadPreserved(input, rest, smallestSnapshot, base, u, s);
      }
    }
    if PreservesReads(input, rest, smallestSnapshot, base) {
      forall i | 0 <= i < |input|
                 && ObsoleteTombstone(input[i], smallestSnapshot, base)
                 && IsNewest(Elements(input) + rest, input[i].key.user, smallestSnapshot, input[i])
        ensures ReadAt(LeftBehind(input, rest), input[i].key.user, input[i].key.sequence) == Missing
      {
        NothingLeftBehind(input, rest, smallestSnapshot, base, i);
      }
    }
  }

  lemma NewestDroppedReads(input: seq<Entry>, rest: set<Entry>, i: nat, u: UserKey, s: nat, smallestSnapshot: nat,
                           base: UserKey -> bool)
    requires Sorted(input) && UniqueKeys(Elements(input) + rest) && Elements(input) !! rest
    requires TombstonesHideNothing(input, rest, smallestSnapshot, base)
    requires s >= smallestSnapshot && i < |input| && IsNewest(Elements(input) + rest, u, s, input[i])
    requires input[i] !in Elements(Kept(input, smallestSnapshot, base))
    ensures Outcome(input[i]) == Missing == ReadAt(Elements(Kept(input, smallestSnapshot, base)) + rest, u, s)
  {
    var after := Elements(Kept(input, smallestSnapshot, base)) + rest;
    KeptElements(input, smallestSnapshot, base);
    NewestDroppedIsTombstone(input, rest, i, u, s, smallestSnapshot, base);
    assert UniqueKeys(LeftBehind(input, rest));
    hide Sorted, UniqueKeys, Kept;
    if ReadAt(after, u, s) != Missing {
      var x := ReadAtNames(after, u, s);
      NewestBelowTombstone(input, rest, i, s, smallestSnapshot, base, x);
      ReadAtNewest(LeftBehind(input, rest), u, input[i].key.sequence, x);
    }
  }

  lemma ReadPreserved(input: seq<Entry>, rest: set<Entry>, smallestSnapshot: nat, base: UserKey -> bool, u: UserKey,
      s: nat)
    requires Sorted(input) && UniqueKeys(Elements(input) + rest) && Elements(input) !! rest
    requires TombstonesHideNothing(input, rest, smallestSnapshot, base)
    requires s >= smallestSnapshot
    ensures ReadAt(Elements(Kept(input, smallestSnapshot, base)) + rest, u, s) == ReadAt(Elements(input) + rest, u, s)
  {
    hide Sorted, Kept, TombstonesHideNothing;
    var all := Elements(input) + rest;
    var after := Elements(Kept(input, smallestSnapshot, base)) + rest;
    KeptElements(input, smallestSnapshot, base);
    assert after <= all && UniqueKeys(after);
    hide UniqueKeys;
    if w :| w in all && Visible(w.key, u, s) {
      var e := NewestExists(all, u, s, w);
      ReadAtNewest(all, u, s, e);
      if e in after {
        ReadAtNewest(after, u, s, e);
      } else {
        var i :| 0 <= i < |input| && input[i] == e;
        NewestDroppedReads(input, rest, i, u, s, smallestSnapshot, base);
      }
    } else {
      ReadAtInvisible(all, u, s);
      ReadAtInvisible(after, u, s);
    }
  }

  lemma StillDeleted(input: seq<Entry>, rest: set<Entry>, smallestSnapshot: nat, base: UserKey -> bool, i: nat)
    requires UniqueKeys(Elements(input) + rest) && PreservesReads(input, rest, smallestSnapshot, base)
    requires i < |input| && ObsoleteTombstone(input[i], smallestSnapshot, base)
    requires IsNewest(Elements(input) + rest, input[i].key.user, smallestSnapshot, input[i])
    ensures ReadAt(Elements(Kept(input, smallestSnapshot, base)) + rest, input[i].key.user, smallestSnapshot)
            == Missing
  {
    hide UniqueKeys, Kept;
    ReadAtNewest(Elements(input) + rest, input[i].key.user, smallestSnapshot, input[i]);
  }

  lemma NothingLeftBehind(input: seq<Entry>, rest: set<Entry>, smallestSnapshot: nat, base: UserKey -> bool, i: nat)
    requires Sorted(input) && UniqueKeys(Elements(input) + rest) && Elements(input) !! rest
    requires PreservesReads(input, rest, smallestSnapshot, base)
    requires i < |input| && ObsoleteTombstone(input[i], smallestSnapshot, base)
    requires IsNewest(Elements(input) + rest, input[i].key.user, smallestSnapshot, input[i])
    ensures ReadAt(LeftBehind(input, rest), input[i].key.user, input[i].key.sequence) == Missing
  {
    hide Sorted, UniqueKeys, Kept, Unparsable, PreservesReads;
    var u, seq0 := input[i].key.user, input[i].key.sequence;
    var left := LeftBehind(input, rest);
    var after := Elements(Kept(input, smallestSnapshot, base)) + rest;
    KeptElements(input, smallestSnapshot, base);
    StillDeleted(input, rest, smallestSnapshot, base, i);
    if ReadAt(left, u, seq0) != Missing {
      var y := ReadAtNames(left, u, seq0);
      assert y in after && Visible(y.key, u, smallestSnapshot);
      var x := NewestExists(after, u, smallestSnapshot, y);
      NewestBelowTombstone(input, rest, i, smallestSnapshot, smallestSnapshot, base, x);
      ReadAtNewest(left, u, seq0, x);
      ReadAtNewest(after, u, smallestSnapshot, x);
    }
  }

  // ------------------------------------------------------------------ exactly what reaches the output

  /** A newer entry of the same user key is seen by every snapshot in use, and all keys from it on to
      this one parse. */
  ghost predicate Superseded(es: seq<Entry>, e: Entry, smallestSnapshot: nat) {
    exists x :: x in es && x.key.user == e.key.user && Less(x.key, e.key) && x.key.sequence <= smallestSnapshot
                && forall y :: y in es && !Less(y.key, x.key) && Less(y.key, e.key) ==> y.key.Parses()
  }

  /** An entry is carried over unless it is superseded, or is a deletion that every snapshot in use
      sees and that has nothing below to hide.  A key that does not parse is always carried over. */
  ghost predicate CarriedOver(es: seq<Entry>, e: Entry, smallestSnapshot: nat, base: UserKey -> bool) {
    && e in es
    && (e.key.Parses() ==>
          && !Superseded(es, e, smallestSnapshot)
          && !(e.key.kind == TYPE_DELETION && e.key.sequence <= smallestSnapshot && base(e.key.user)))
  }

  /** The loop looks at one neighbour only; in a sorted input that settles the matter. */
  lemma NeighbourDecides(input: seq<Entry>, i: nat, smallestSnapshot: nat)
    requires Sorted(input) && i < |input|
    ensures HiddenByNewer(input, i, smallestSnapshot) <==> Superseded(input, input[i], smallestSnapshot)
  {
    if HiddenByNewer(input, i, smallestSnapshot) {
      var x := input[i - 1];
      forall y | y in input && !Less(y.key, x.key) && Less(y.key, input[i].key)
        ensures y == x
      {
        var k :| 0 <= k < |input| && input[k] == y;
        SortedApart(input, k, i);
        SortedApart(input, k, i - 1);
      }
      assert Less(x.key, input[i].key);
    }
    if x :| x in input && x.key.user == input[i].key.user && Less(x.key, input[i].key)
            && x.key.sequence <= smallestSnapshot
            && forall y :: y in input && !Less(y.key, x.key) && Less(y.key, input[i].key) ==> y.key.Parses()
    {
      var k :| 0 <= k < |input| && input[k] == x;
      SortedApart(input, k, i);
      SameUserAdjacent(input, k, i);
      SortedApart(input, i - 1, k);
      SortedApart(input, i - 1, i);
      assert input[i - 1] in input;
    }
  }

  /** The output of a compaction, entry by entry. */
  lemma KeptExactly(input: seq<Entry>, smallestSnapshot: nat, base: UserKey -> bool)
    requires Sorted(input)
    ensures forall e :: e in Kept(input, smallestSnapshot, base) <==> CarriedOver(input, e, smallestSnapshot, base)
  {
    forall e
      ensures e in Kept(input, smallestSnapshot, base) <==> CarriedOver(input, e, smallestSnapshot, base)
    {
      SurvivorsContain(input, |input|, smallestSnapshot, base, e);
      if e in input {
        var i :| 0 <= i < |input| && input[i] == e;
        NeighbourDecides(input, i, smallestSnapshot);
        forall k | 0 <= k < |input| && input[k] == e
          ensures k == i
        {
          SortedApart(input, k, i);
        }
        hide Superseded, Sorted, HiddenByNewer;
      }
    }
  }

  /** Where all keys parse and no user key has a sequence number twice: an entry is kept if and only if
      some snapshot that may be in use reads it, and it is not a deletion that all of them see and
      that has nothing below to hide. */
  lemma KeptIfReadSomewhere(input: seq<Entry>, smallestSnapshot: nat, base: UserKey -> bool, e: Entry)
    requires Sorted(input) && e in input && forall x :: x in input ==> x.key.Parses()
    requires forall x, y :: x in input && y in input && x.key.user == y.key.user && x.key.sequence == y.key.sequence
               ==> x == y
    ensures e in Kept(input, smallestSnapshot, base)
            <==> (exists s: nat :: s >= smallestSnapshot && IsNewest(Elements(input), e.key.user, s, e))
                 && !(e.key.kind == TYPE_DELETION && e.key.sequence <= smallestSnapshot && base(e.key.user))
  {
    KeptExactly(input, smallestSnapshot, base);
    hide Kept, Sorted;
    if s: nat :| s >= smallestSnapshot && IsNewest(Elements(input), e.key.user, s, e) {
      forall x | x in input && x.key.user == e.key.user && Less(x.key, e.key)
        ensures x.key.sequence > smallestSnapshot
      {
        assert x in Elements(input);
      }
    } else {
      SupersededWhenNeverNewest(input, smallestSnapshot, e);
    }
  }

  /** The nearest newer entry of the key tells up to which snapshot this one is read. */
  lemma SupersededWhenNeverNewest(input: seq<Entry>, smallestSnapshot: nat, e: Entry)
    requires Sorted(input) && e in input && forall x :: x in input ==> x.key.Parses()
    requires forall x, y :: x in input && y in input && x.key.user == y.key.user && x.key.sequence == y.key.sequence
               ==> x == y
    requires forall s: nat :: s >= smallestSnapshot ==> !IsNewest(Elements(input), e.key.user, s, e)
    ensures Superseded(input, e, smallestSnapshot)
  {
    var i :| 0 <= i < |input| && input[i] == e;
    NeighbourDecides(input, i, smallestSnapshot);
    if !HiddenByNewer(input, i, smallestSnapshot) {
      var s := if i > 0 && input[i - 1].key.user == e.key.user then input[i - 1].key.sequence - 1
        else if e.key.sequence < smallestSnapshot then smallestSnapshot else e.key.sequence;
      NewestUpTo(input, i, s);
    }
  }

  lemma NewestUpTo(input: seq<Entry>, i: nat, s: nat)
    requires Sorted(input) && i < |input| && input[i].key.Parses() && input[i].key.sequence <= s
    requires i > 0 && input[i - 1].key.user == input[i].key.user ==> s < input[i - 1].key.sequence
    ensures IsNewest(Elements(input), input[i].key.user, s, input[i])
  {
    forall x | x in input && Visible(x.key, input[i].key.user, s)
      ensures !Less(x.key, input[i].key)
    {
      var k :| 0 <= k < |input| && input[k] == x;
      SortedApart(input, k, i);
      if k < i {
        SameUserAdjacent(input, k, i);
      }
    }
  }
}
