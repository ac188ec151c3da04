/** The database iterator: many entries per user key below, one pair per live user key above, in
    both directions.  Every operation moves the iterator exactly as a plain cursor over the view
    would move. */
module DbIter {
  import opened Options
  import opened InternalKeys
  import opened Iterators
  import opened UserView
  import opened Cursors

  datatype Direction = Forward | Reverse

  class DBIter {
    const iter: EntryIterator
    const sequence: nat
    var savedKey: UserKey
    var savedValue: seq<Byte>
    var direction: Direction
    var valid: bool

    constructor (iter: EntryIterator, sequence: nat)
      requires Sorted(iter.es)
      ensures this.iter == iter && this.sequence == sequence && !valid
      ensures Holds(Nowhere)
    {
      this.iter := iter;
      this.sequence := sequence;
      savedKey, savedValue, direction, valid := 0, [], Forward, false;
    }

    ghost predicate IsShown(i: nat) {
      i < |iter.es| && Shown(iter.es, sequence, i)
    }

    /** No usable entry in [a, b). */
    ghost predicate NoneUsable(a: nat, b: nat) {
      forall k :: a <= k < b && k < |iter.es| ==> !Usable(iter.es[k], sequence)
    }

    /** Moving forward, the inner iterator is at the very entry shown. */
    ghost predicate ForwardAt(i: nat)
      reads this, iter
    {
      direction == Forward && IsShown(i) && iter.index == i
    }

    /** Moving backward, the shown pair is saved and the inner iterator has already gone on to the
        last usable entry of an earlier user key, or past the front. */
    ghost predicate ReverseAt(i: nat)
      reads this, iter
    {
      && direction == Reverse && IsShown(i)
      && savedKey == iter.es[i].key.user && savedValue == iter.es[i].value
      && (if iter.Valid()
          then iter.index < i && iter.es[iter.index].key.user < savedKey && NoneUsable(iter.index + 1, i)
          else NoneUsable(0, i))
    }

    /** The iterator stands where the cursor stands. */
    ghost predicate Holds(c: Cursor)
      reads this, iter
    {
      && Sorted(iter.es)
      && (valid <==> c.At?)
      && (c.At? ==> exists i :: (ForwardAt(i) || ReverseAt(i)) && |ViewOf(iter.es, sequence, i)| == c.index)
    }

    ghost function Pairs(): seq<Pair> {
      View(iter.es, sequence)
    }

    function Key(): UserKey
      requires valid && (direction == Forward ==> iter.Valid())
      reads this, iter
    {
      if direction == Forward then iter.Key().user else savedKey
    }

    function Value(): seq<Byte>
      requires valid && (direction == Forward ==> iter.Valid())
      reads this, iter
    {
      if direction == Forward then iter.Value() else savedValue
    }

    /** What the caller sees at a valid position is the pair under the cursor. */
    lemma ShowsPair(c: Cursor)
      requires Holds(c) && valid
      ensures c.index < |Pairs()|
      ensures direction == Forward ==> iter.Valid()
      ensures Pair(Key(), Value()) == Pairs()[c.index]
    {
      var i :| (ForwardAt(i) || ReverseAt(i)) && |ViewOf(iter.es, sequence, i)| == c.index;
      ShownRank(iter.es, sequence, i, |iter.es|);
    }

    lemma NoneShownBetween(a: nat, b: nat)
      requires a <= b <= |iter.es| && forall k :: a <= k < b ==> !IsShown(k)
      ensures ViewOf(iter.es, sequence, b) == ViewOf(iter.es, sequence, a)
    {
      forall k | a <= k < b
        ensures !Shown(iter.es, sequence, k)
      {
        assert !IsShown(k);
      }
      NoneShown(iter.es, sequence, a, b);
    }

    // ---------------------------------------------------------------- scanning forward

    /** What the forward scan from `from` is looking for: a shown entry beyond the skipped key. */
    ghost predicate Target(from: nat, skipping: bool, skip: UserKey, q: nat) {
      from <= q && IsShown(q) && (skipping ==> skip < iter.es[q].key.user)
    }

    /** User keys with usable entries before `from` are all skipped. */
    ghost predicate CleanStart(from: nat, skipping: bool, skip: UserKey) {
      && (forall j, q | 0 <= j < from <= q < |iter.es| && Usable(iter.es[j], sequence) && Usable(iter.es[q], sequence)
                        && iter.es[j].key.user == iter.es[q].key.user
            :: skipping && iter.es[q].key.user <= skip)
      && (skipping ==> forall q :: from <= q < |iter.es| && Usable(iter.es[q], sequence) ==>
           skip <= iter.es[q].key.user)
    }

    /** Midway: the skip key covers every usable entry passed, and is either the key given or one
        whose newest usable entry is a deletion already passed. */
    ghost predicate Scanned(from: nat, skipping0: bool, skip0: UserKey, p: nat, skipping: bool, skip: UserKey) {
      && (forall q :: from <= q < p ==> !Target(from, skipping0, skip0, q))
      && (forall q :: from <= q < p && q < |iter.es| && Usable(iter.es[q], sequence) ==>
           skipping && iter.es[q].key.user <= skip)
      && (skipping0 ==> skipping && skip0 <= skip)
      && (skipping ==> (skipping0 && skip == skip0)
                       || exists d :: from <= d < p && d < |iter.es| && Usable(iter.es[d], sequence)
                                      && iter.es[d].key.kind == TYPE_DELETION && iter.es[d].key.user == skip)
    }

    /** A usable value is hidden by the skip key if and only if the scan is not looking for it. */
    lemma HiddenMeansNotTarget(from: nat, skipping0: bool, skip0: UserKey, p: nat, skipping: bool, skip: UserKey)
      requires Sorted(iter.es) && from <= p < |iter.es|
      requires CleanStart(from, skipping0, skip0) && Scanned(from, skipping0, skip0, p, skipping, skip)
      requires Usable(iter.es[p], sequence) && iter.es[p].key.kind == TYPE_VALUE
      ensures (skipping && iter.es[p].key.user <= skip) <==> !Target(from, skipping0, skip0, p)
    {
      var u := iter.es[p].key.user;
      if skipping && u <= skip && !(skipping0 && skip == skip0) {
        var d :| from <= d < p && Usable(iter.es[d], sequence)
                 && iter.es[d].key.kind == TYPE_DELETION && iter.es[d].key.user == skip;
        assert Less(iter.es[d].key, iter.es[p].key);
        assert !IsShown(p);
      }
    }

    lemma ScanStep(from: nat, skipping0: bool, skip0: UserKey, p: nat, skipping: bool, skip: UserKey)
      requires Sorted(iter.es) && from <= p < |iter.es|
      requires CleanStart(from, skipping0, skip0) && Scanned(from, skipping0, skip0, p, skipping, skip)
      requires !(Usable(iter.es[p], sequence) && iter.es[p].key.kind == TYPE_DELETION)
      requires Usable(iter.es[p], sequence) ==> skipping && iter.es[p].key.user <= skip
      ensures Scanned(from, skipping0, skip0, p + 1, skipping, skip)
    {
      if Usable(iter.es[p], sequence) {
        HiddenMeansNotTarget(from, skipping0, skip0, p, skipping, skip);
      }
      assert !Target(from, skipping0, skip0, p);
    }

    lemma ScanDeletion(from: nat, skipping0: bool, skip0: UserKey, p: nat, skipping: bool, skip: UserKey)
      requires Sorted(iter.es) && from <= p < |iter.es|
      requires CleanStart(from, skipping0, skip0) && Scanned(from, skipping0, skip0, p, skipping, skip)
      requires Usable(iter.es[p], sequence) && iter.es[p].key.kind == TYPE_DELETION
      ensures Scanned(from, skipping0, skip0, p + 1, true, iter.es[p].key.user)
    {
      forall q | from <= q < p && Usable(iter.es[q], sequence)
        ensures iter.es[q].key.user <= iter.es[p].key.user
      {
        assert Less(iter.es[q].key, iter.es[p].key);
      }
      assert !Target(from, skipping0, skip0, p);
    }

    method FindNextUserEntry(skipping0: bool, skip0: UserKey)
      requires Sorted(iter.es) && iter.Valid() && direction == Forward
      requires CleanStart(iter.index, skipping0, skip0)
      modifies this, iter
      ensures direction == Forward
      ensures valid ==> Target(old(iter.index), skipping0, skip0, iter.index)
                        && forall q :: old(iter.index) <= q < iter.index ==>
                             !Target(old(iter.index), skipping0, skip0, q)
      ensures !valid ==> forall q :: old(iter.index) <= q ==> !Target(old(iter.index), skipping0, skip0, q)
    {
      ghost var from := iter.index;
      var skipping, skip := skipping0, skip0;
      while iter.Valid()
        invariant from <= iter.index <= |iter.es|
        invariant direction == Forward
        invariant Scanned(from, skipping0, skip0, iter.index, skipping, skip)
        decreases |iter.es| - iter.index
      {
        var ikey := iter.Key();
        if ikey.Parses() && ikey.sequence <= sequence {
          if ikey.kind == TYPE_DELETION {
            // What follows under this user key is deleted
            ScanDeletion(from, skipping0, skip0, iter.index, skipping, skip);
            skip := ikey.user;
            skipping := true;
          } else {
            HiddenMeansNotTarget(from, skipping0, skip0, iter.index, skipping, skip);
            if skipping && ikey.user <= skip {
              // Under a user key that is passed over
              ScanStep(from, skipping0, skip0, iter.index, skipping, skip);
            } else {
              valid := true;
              return;
            }
          }
        } else {
          ScanStep(from, skipping0, skip0, iter.index, skipping, skip);
        }
        iter.Next();
      }
      valid := false;
    }

    // ---------------------------------------------------------------- scanning backward

    /** Having gone back from `end` to n: either nothing shown was passed, or the newest usable
        entry passed so far is a value, saved, and nothing after it is shown. */
    ghost predicate ScannedBack(end: nat, n: nat, found: bool, key: UserKey, value: seq<Byte>) {
      if found then exists i: nat :: Candidate(end, n, key, value, i)
      else forall k :: n <= k < end ==> !IsShown(k)
    }

    ghost predicate Candidate(end: nat, n: nat, key: UserKey, value: seq<Byte>, i: nat) {
      && n <= i < end && i < |iter.es|
      && Usable(iter.es[i], sequence) && iter.es[i].key.kind == TYPE_VALUE
      && iter.es[i].key.user == key && iter.es[i].value == value
      && NoneUsable(n, i)
      && (forall k :: i < k < end ==> !IsShown(k))
    }

    lemma BackUnusable(end: nat, n: nat, found: bool, key: UserKey, value: seq<Byte>)
      requires 0 < n <= end && n <= |iter.es| && ScannedBack(end, n, found, key, value)
      requires !Usable(iter.es[n - 1], sequence)
      ensures ScannedBack(end, n - 1, found, key, value)
    {
      if found {
        var i: nat :| Candidate(end, n, key, value, i);
        assert Candidate(end, n - 1, key, value, i);
      }
    }

    /** A usable entry of the same user key further back is newer and replaces what was found. */
    lemma BackUsable(end: nat, n: nat, found: bool, key: UserKey, value: seq<Byte>)
      requires Sorted(iter.es)
      requires 0 < n <= end && n <= |iter.es| && ScannedBack(end, n, found, key, value)
      requires Usable(iter.es[n - 1], sequence) && !(found && iter.es[n - 1].key.user < key)
      ensures iter.es[n - 1].key.kind == TYPE_DELETION ==> ScannedBack(end, n - 1, false, 0, [])
      ensures iter.es[n - 1].key.kind == TYPE_VALUE ==>
                ScannedBack(end, n - 1, true, iter.es[n - 1].key.user, iter.es[n - 1].value)
    {
      assert forall k :: n <= k < end ==> !IsShown(k) by {
        if found {
          var i: nat :| Candidate(end, n, key, value, i);
          assert Less(iter.es[n - 1].key, iter.es[i].key);
          assert !IsShown(i);
          forall k | n <= k < i
            ensures !IsShown(k)
          {
          }
        }
      }
      assert iter.es[n - 1].key.kind == TYPE_VALUE
             ==> Candidate(end, n - 1, iter.es[n - 1].key.user, iter.es[n - 1].value, n - 1);
    }

    /** Once an earlier user key, or the front, is reached, what was found is shown. */
    lemma BackDone(end: nat, n: nat, key: UserKey, value: seq<Byte>, i: nat)
      requires Sorted(iter.es) && Candidate(end, n, key, value, i)
      requires n > 0 ==> n <= |iter.es| && iter.es[n - 1].key.user < key
      ensures IsShown(i)
    {
      forall j | 0 <= j < n
        ensures iter.es[j].key.user < key
      {
        if j < n - 1 {
          assert Less(iter.es[j].key, iter.es[n - 1].key);
        }
      }
    }

    method FindPrevUserEntry(ghost end: nat)
      requires Sorted(iter.es) && direction == Reverse
      requires iter.Valid() ==> end == iter.index + 1
      requires !iter.Valid() ==> forall k :: 0 <= k < end ==> !IsShown(k)
      modifies this, iter
      ensures valid ==> exists i: nat :: i < end && ReverseAt(i) && forall k :: i < k < end ==> !IsShown(k)
      ensures !valid ==> direction == Forward && forall k :: 0 <= k < end ==> !IsShown(k)
    {
      var valueType := TYPE_DELETION;
      ghost var n := if iter.Valid() then end else 0;
      while iter.Valid()
        invariant direction == Reverse
        invariant n <= end
        invariant if iter.Valid() then n == iter.index + 1 else n == 0
        invariant valueType == TYPE_DELETION || valueType == TYPE_VALUE
        invariant ScannedBack(end, n, valueType == TYPE_VALUE, savedKey, savedValue)
        decreases n
      {
        var ikey := iter.Key();
        if ikey.Parses() && ikey.sequence <= sequence {
          if valueType != TYPE_DELETION && ikey.user < savedKey {
            // The value saved belongs to an earlier user key and is live
            break;
          }
          BackUsable(end, n, valueType == TYPE_VALUE, savedKey, savedValue);
          valueType := ikey.kind;
          if valueType == TYPE_DELETION {
            savedKey, savedValue := 0, [];
          } else {
            savedKey, savedValue := ikey.user, iter.Value();
          }
        } else {
          BackUnusable(end, n, valueType == TYPE_VALUE, savedKey, savedValue);
        }
        iter.Prev();
        n := n - 1;
      }
      if valueType == TYPE_DELETION {
        // Nothing live was met
        valid := false;
        savedKey, savedValue := 0, [];
        direction := Forward;
      } else {
        valid := true;
        ghost var i: nat :| Candidate(end, n, savedKey, savedValue, i);
        BackDone(end, n, savedKey, savedValue, i);
        assert ReverseAt(i);
      }
    }

    // ---------------------------------------------------------------- the operations

    ghost predicate NextShown(i: nat, q: nat) {
      i < q && IsShown(i) && IsShown(q) && forall k :: i < k < q ==> !IsShown(k)
    }

    lemma NextShownRank(i: nat, q: nat)
      requires NextShown(i, q)
      ensures |ViewOf(iter.es, sequence, q)| == |ViewOf(iter.es, sequence, i)| + 1 < |Pairs()| + 1
      ensures |ViewOf(iter.es, sequence, q)| < |Pairs()|
    {
      NoneShownBetween(i + 1, q);
      ShownRank(iter.es, sequence, q, |iter.es|);
    }

    lemma LastShownRank(i: nat)
      requires IsShown(i) && forall k :: i < k < |iter.es| ==> !IsShown(k)
      ensures |Pairs()| == |ViewOf(iter.es, sequence, i)| + 1
    {
      NoneShownBetween(i + 1, |iter.es|);
    }

    /** Beyond a shown entry, the forward scan looks for exactly the shown entries after it. */
    lemma TargetsAfter(i: nat, from: nat)
      requires Sorted(iter.es) && IsShown(i) && from <= i + 1
      requires NoneUsable(from, i)
      requires from <= i && from > 0 ==> iter.es[from - 1].key.user < iter.es[i].key.user
      ensures CleanStart(from, true, iter.es[i].key.user)
      ensures forall q: nat :: Target(from, true, iter.es[i].key.user, q) <==> i < q && IsShown(q)
    {
      var u := iter.es[i].key.user;
      forall j | 0 <= j < from
        ensures iter.es[j].key.user <= u
      {
        if j < i {
          assert Less(iter.es[j].key, iter.es[i].key);
        }
      }
      forall q | i < q < |iter.es|
        ensures u <= iter.es[q].key.user
        ensures iter.es[q].key.user == u ==> !IsShown(q)
      {
        assert Less(iter.es[i].key, iter.es[q].key);
      }
    }

    method Next(ghost c: Cursor)
      requires valid && Holds(c) && c.index < |Pairs()|
      modifies this, iter
      ensures Holds(After(Pairs(), c))
    {
      ghost var i :| (ForwardAt(i) || ReverseAt(i)) && |ViewOf(iter.es, sequence, i)| == c.index;
      if direction == Reverse {
        // Turning round: the inner iterator stands one before the entries of this key
        direction := Forward;
        if !iter.Valid() {
          iter.SeekToFirst();
        } else {
          iter.Next();
        }
        // The key to pass is the saved one
      } else {
        // The key shown is the one to pass
        savedKey := iter.Key().user;
        iter.Next();
        if !iter.Valid() {
          valid := false;
          savedKey := 0;
          LastShownRank(i);
          return;
        }
      }
      ghost var from := iter.index;
      TargetsAfter(i, from);
      FindNextUserEntry(true, savedKey);
      if valid {
        assert NextShown(i, iter.index);
        NextShownRank(i, iter.index);
        assert ForwardAt(iter.index);
      } else {
        LastShownRank(i);
      }
    }

    method Prev(ghost c: Cursor)
      requires valid && Holds(c) && c.index < |Pairs()|
      modifies this, iter
      ensures Holds(Before(Pairs(), c))
    {
      ghost var i :| (ForwardAt(i) || ReverseAt(i)) && |ViewOf(iter.es, sequence, i)| == c.index;
      if direction == Forward {
        // Turning round: back to the nearest entry of an earlier key
        savedKey := iter.Key().user;
        var earlier := BackToEarlierKey(i);
        if !earlier {
          valid := false;
          savedKey, savedValue := 0, [];
          NoneShownBetween(0, i);
          return;
        }
        direction := Reverse;
      }
      ghost var end := if iter.Valid() then iter.index + 1 else i;
      FindPrevUserEntry(end);
      if valid {
        ghost var j: nat :| j < end && ReverseAt(j) && forall k :: j < k < end ==> !IsShown(k);
        assert NextShown(j, i);
        NextShownRank(j, i);
      } else {
        NoneShownBetween(0, i);
      }
    }

    method BackToEarlierKey(ghost i: nat) returns (earlier: bool)
      requires Sorted(iter.es) && IsShown(i) && iter.index == i && savedKey == iter.es[i].key.user
      modifies iter
      ensures earlier <==> iter.Valid()
      ensures earlier ==> iter.index < i && iter.es[iter.index].key.user < savedKey
      ensures forall k :: (if earlier then iter.index < k < i else 0 <= k < i) ==> !IsShown(k)
    {
      while true
        invariant iter.Valid() && iter.index <= i
        invariant forall k :: iter.index <= k < i ==> iter.es[k].key.user == savedKey
        decreases iter.index
      {
        ghost var at := iter.index;
        iter.Prev();
        if !iter.Valid() {
          return false;
        }
        if iter.Key().user < savedKey {
          return true;
        }
        assert Less(iter.es[iter.index].key, iter.es[i].key);
      }
    }

    method Seek(target: UserKey) returns (ghost c: Cursor)
      requires Sorted(iter.es)
      modifies this, iter
      ensures IsSeek(Pairs(), target, c) && Holds(c)
    {
      direction := Forward;
      savedKey, savedValue := 0, [];
      iter.Seek(SeekKey(target, sequence));
      ghost var from := iter.index;
      SeekStart(target, from);
      if iter.Valid() {
        FindNextUserEntry(false, savedKey);
      } else {
        valid := false;
      }
      if valid {
        c := At(|ViewOf(iter.es, sequence, iter.index)|);
        assert ForwardAt(iter.index);
        SeekRank(target, from, iter.index);
      } else {
        c := Nowhere;
        SeekNone(target);
      }
    }

    /** From the lower bound of the seek key, the shown entries ahead are those at or after the
        target. */
    lemma SeekStart(target: UserKey, from: nat)
      requires Sorted(iter.es) && IsLowerBound(iter.es, SeekKey(target, sequence), from)
      ensures CleanStart(from, false, 0)
      ensures forall q: nat :: Target(from, false, 0, q) <==> IsShown(q) && target <= iter.es[q].key.user
    {
      forall j | 0 <= j < from
        ensures iter.es[j].key.user < target || !Usable(iter.es[j], sequence)
      {
        assert Less(iter.es[j].key, SeekKey(target, sequence));
      }
      forall j | from <= j < |iter.es|
        ensures target <= iter.es[j].key.user
      {
        assert !Less(iter.es[j].key, SeekKey(target, sequence));
      }
    }

    lemma SeekRank(target: UserKey, from: nat, q: nat)
      requires Sorted(iter.es) && IsShown(q) && target <= iter.es[q].key.user
      requires forall k :: 0 <= k < q && IsShown(k) ==> iter.es[k].key.user < target
      ensures IsSeek(Pairs(), target, At(|ViewOf(iter.es, sequence, q)|))
    {
      ShownRank(iter.es, sequence, q, |iter.es|);
      var rank := |ViewOf(iter.es, sequence, q)|;
      forall k | 0 <= k < rank
        ensures Pairs()[k].key < target
      {
        var i := ViewMembers(iter.es, sequence, |iter.es|, k);
        RankOrder(iter.es, sequence, i, q);
      }
    }

    lemma SeekNone(target: UserKey)
      requires forall k :: 0 <= k < |iter.es| && IsShown(k) ==> iter.es[k].key.user < target
      ensures IsSeek(Pairs(), target, Nowhere)
    {
      forall k | 0 <= k < |Pairs()|
        ensures Pairs()[k].key < target
      {
        var i := ViewMembers(iter.es, sequence, |iter.es|, k);
      }
    }

    method SeekToFirst()
      requires Sorted(iter.es)
      modifies this, iter
      ensures Holds(First(Pairs()))
    {
      direction := Forward;
      savedValue := [];
      iter.SeekToFirst();
      assert forall k: nat :: IsShown(k) ==> k < |iter.es|;
      if iter.Valid() {
        assert forall q: nat :: Target(0, false, savedKey, q) <==> IsShown(q);
        FindNextUserEntry(false, savedKey);
      } else {
        valid := false;
      }
      if valid {
        assert ForwardAt(iter.index);
        NoneShownBetween(0, iter.index);
        ShownRank(iter.es, sequence, iter.index, |iter.es|);
      } else {
        NoneShownBetween(0, |iter.es|);
      }
    }

    method SeekToLast()
      requires Sorted(iter.es)
      modifies this, iter
      ensures Holds(Last(Pairs()))
    {
      direction := Reverse;
      savedValue := [];
      iter.SeekToLast();
      FindPrevUserEntry(|iter.es|);
      if valid {
        ghost var i: nat :| i < |iter.es| && ReverseAt(i) && forall k :: i < k < |iter.es| ==> !IsShown(k);
        LastShownRank(i);
      } else {
        NoneShownBetween(0, |iter.es|);
      }
    }
  }

  // ------------------------------------------------------------------ any sequence of calls

  /** Where a place in the view is, for a cursor. */
  ghost function Where(view: seq<Pair>, p: nat): Cursor {
    if p < |view| then At(p) else Nowhere
  }

  const PAIR_BEFORE: (Pair, UserKey) -> bool := (e: Pair, target: UserKey) => e.key < target

  method Make(it: DBIter, move: Move<UserKey>, ghost p: nat) returns (shown: Option<Pair>)
    requires p <= |it.Pairs()| && it.Holds(Where(it.Pairs(), p))
    modifies it, it.iter
    ensures var p' := Moved(it.Pairs(), PAIR_BEFORE, p, move);
            it.Holds(Where(it.Pairs(), p')) && shown == ElementAt(it.Pairs(), p')
  {
    ghost var view := it.Pairs();
    ghost var c := Where(view, p);
    ghost var p' := Moved(view, PAIR_BEFORE, p, move);
    match move {
      case ToFirst => it.SeekToFirst();
      case ToLast => it.SeekToLast();
      case SeekTo(target) =>
        ghost var found;
        found := it.Seek(target);
        PlaceIsUnique(view, PAIR_BEFORE, target, if found.At? then found.index else |view|);
      case ToNext =>
        if it.valid {
          it.Next(c);
        }
      case ToPrev =>
        if it.valid {
          it.Prev(c);
        }
    }
    if it.valid {
      it.ShowsPair(Where(view, p'));
      shown := Some(Pair(it.Key(), it.Value()));
    } else {
      shown := None;
    }
  }

  /** Whatever calls are made, in whatever order and across changes of direction, the pairs shown
      are those a plain cursor over the view would show. */
  method Drive(it: DBIter, moves: seq<Move<UserKey>>) returns (shown: seq<Option<Pair>>)
    requires it.Holds(Nowhere)
    modifies it, it.iter
    ensures shown == Trace(it.Pairs(), PAIR_BEFORE, |it.Pairs()|, moves)
  {
    shown := [];
    ghost var view := it.Pairs();
    ghost var p: nat := |view|;
    for i := 0 to |moves|
      invariant p <= |view| && it.Pairs() == view && it.Holds(Where(view, p))
      invariant shown + Trace(view, PAIR_BEFORE, p, moves[i..]) == Trace(view, PAIR_BEFORE, |view|, moves)
    {
      assert moves[i..][0] == moves[i] && moves[i..][1..] == moves[i + 1..];
      var next := Make(it, moves[i], p);
      p := Moved(view, PAIR_BEFORE, p, moves[i]);
      shown := shown + [next];
    }
  }
}
