/** The block iterator: over any finished block it is a cursor over the block's entries. */
module BlockIters {
  import opened Options
  import opened Coding
  import opened BlockFormat
  import opened BlockBuilding
  import opened Cursors

  /** The first entry at or after the target. */
  ghost predicate IsLowerBound(less: Comparator, es: seq<Pair>, target: Bytes, n: nat) {
    && n <= |es|
    && (forall i :: 0 <= i < n ==> less(es[i].key, target))
    && (forall i :: n <= i < |es| ==> !less(es[i].key, target))
  }

  // ------------------------------------------------------------------ entries in place

  /** An entry lies between a and b: its lengths, then the rest of its key, then its value. */
  ghost predicate PartsAt(data: Bytes, a: nat, b: nat, shared: nat, e: Pair) {
    && a < b <= |data| && shared <= |e.key|
    && DecodeEntry(data[a..]).Some?
    && var d := DecodeEntry(data[a..]).value;
    && d.shared == shared && d.nonShared == |e.key| - shared && d.valueLength == |e.value|
    && a + d.size + d.nonShared + d.valueLength == b
    && data[a + d.size..a + d.size + d.nonShared] == e.key[shared..]
    && data[a + d.size + d.nonShared..b] == e.value
  }

  /** Where the parts of entry i lie. */
  lemma EntryParts(data: Bytes, l: Layout, i: nat)
    requires LaidOut(data, l) && i < |l.entries|
    ensures Shares(l, i) && l.starts[i] < l.starts[i + 1] <= |data|
    ensures PartsAt(data, l.starts[i], l.starts[i + 1], l.shared[i], l.entries[i])
  {
    assert EntryAt(data, l, i);
    StartsBelow(data, l, i);
    hide Header, DecodeEntry, LaidOut, EntryAt, Shares;
    PartsOf(data, l.starts[i], l.starts[i + 1], l.shared[i], l.entries[i]);
  }

  lemma PartsOf(data: Bytes, a: nat, b: nat, shared: nat, e: Pair)
    requires shared <= |e.key| && shared < TWO_32 && |e.key| - shared + |e.value| < TWO_32
    requires a < b <= |data| && data[a..b] == EncodedEntry(shared, e)
    ensures PartsAt(data, a, b, shared, e)
  {
    hide Header, DecodeEntry, EncodedEntry, PartsAt;
    var header, key, value := Header(shared, |e.key| - shared, |e.value|), e.key[shared..], e.value;
    assert EncodedEntry(shared, e) == header + key + value by {
      EntryIs(shared, e);
    }
    SliceLength(data, a, b);
    CutPoints(data, a, header, key, value);
    DecodeAt(data, a, shared, |key|, |value|);
    PartsTogether(data, a, b, shared, e, |header|);
  }

  lemma EntryIs(shared: nat, e: Pair)
    requires shared <= |e.key|
    ensures EncodedEntry(shared, e) == Header(shared, |e.key| - shared, |e.value|) + e.key[shared..] + e.value
  {
  }

  lemma SliceLength(data: Bytes, a: nat, b: nat)
    requires a <= b <= |data|
    ensures |data[a..b]| == b - a
  {
  }

  lemma PartsTogether(data: Bytes, a: nat, b: nat, shared: nat, e: Pair, size: nat)
    requires a < b <= |data| && shared <= |e.key| && a + size + (|e.key| - shared) + |e.value| == b
    requires DecodeEntry(data[a..]) == Some(Decoded(shared, |e.key| - shared, |e.value|, size))
    requires data[a + size..a + size + (|e.key| - shared)] == e.key[shared..]
    requires data[a + size + (|e.key| - shared)..b] == e.value
    ensures PartsAt(data, a, b, shared, e)
  {
    hide DecodeEntry;
  }

  lemma DecodeAt(data: Bytes, a: nat, shared: nat, nonShared: nat, valueLength: nat)
    requires shared < TWO_32 && nonShared + valueLength < TWO_32
    requires var n := |Header(shared, nonShared, valueLength)|;
             a + n + nonShared + valueLength <= |data| && data[a..a + n] == Header(shared, nonShared, valueLength)
    ensures DecodeEntry(data[a..])
            == Some(Decoded(shared, nonShared, valueLength, |Header(shared, nonShared, valueLength)|))
  {
    hide Header, DecodeEntry;
    var header := Header(shared, nonShared, valueLength);
    var rest := data[a + |header|..];
    assert data[a..] == data[a..a + |header|] + rest;
    DecodeHeader(shared, nonShared, valueLength, rest);
  }

  lemma StartsBelow(data: Bytes, l: Layout, i: nat)
    requires LaidOut(data, l) && i < |l.entries|
    ensures |data| < TWO_32 && |l.entries[i].key| - l.shared[i] + |l.entries[i].value| < TWO_32 && l.shared[i] < TWO_32
  {
    SharedBelow(data, l, i);
    assert EntryAt(data, l, i);
    assert |EncodedEntry(l.shared[i], l.entries[i])| == l.starts[i + 1] - l.starts[i];
  }

  /** What an entry shares was spelled out in the entries before it. */
  lemma {:induction false} SharedBelow(data: Bytes, l: Layout, i: nat)
    requires LaidOut(data, l) && i < |l.entries|
    ensures Shares(l, i) && l.shared[i] <= l.starts[i] && |l.entries[i].key| <= l.starts[i + 1] <= |data|
  {
    assert EntryAt(data, l, i);
    if i > 0 {
      SharedBelow(data, l, i - 1);
    }
    assert |EncodedEntry(l.shared[i], l.entries[i])| == l.starts[i + 1] - l.starts[i];
  }

  lemma CutPoints(data: Bytes, a: nat, x: Bytes, y: Bytes, z: Bytes)
    requires a + |x| + |y| + |z| <= |data| && data[a..a + |x| + |y| + |z|] == x + y + z
    ensures data[a..a + |x|] == x
    ensures data[a + |x|..a + |x| + |y|] == y
    ensures data[a + |x| + |y|..a + |x| + |y| + |z|] == z
  {
    var s := data[a..a + |x| + |y| + |z|];
    assert s[..|x|] == x && s[|x|..|x| + |y|] == y && s[|x| + |y|..] == z;
    forall k | 0 <= k < |y|
      ensures data[a + |x| + k] == y[k]
    {
      assert s[|x| + k] == y[k];
    }
  }

  class BlockIter {
    const less: Comparator
    const block: Bytes
    const restartsAt: nat
    const numRestarts: nat
    var current: nat
    var restartIndex: nat
    var key: Bytes
    var valueStart: nat
    var valueLength: nat
    ghost const data: Bytes
    ghost const restarts: seq<Word>
    ghost const layout: Layout
    /** The entry the iterator stands at; past the end when it is not valid. */
    ghost var position: nat

    ghost predicate WellFormed() {
      && Finished(block, data, restarts) && LaidOut(data, layout) && RestartsHold(restarts, layout)
      && restartsAt == |data| && numRestarts == |restarts|
    }

    /** The restart index is the last restart point before the position, or the one at it. */
    ghost predicate IndexHolds(p: nat)
      reads this
    {
      && |layout.heads| == numRestarts && restartIndex < numRestarts && layout.heads[restartIndex] <= p
    }

    ghost predicate Stands()
      requires WellFormed()
      reads this
    {
      && position <= |layout.entries|
      && if position == |layout.entries| then current == restartsAt && restartIndex == numRestarts
         else
           && current == layout.starts[position]
           && key == layout.entries[position].key
           && valueStart + valueLength == layout.starts[position + 1] <= |block|
           && block[valueStart..valueStart + valueLength] == layout.entries[position].value
           && IndexHolds(position) && NextRestartFollows(position)
    }

    /** No later restart point lies before the entry. */
    ghost predicate NextRestartFollows(p: nat)
      reads this
    {
      restartIndex + 1 < |layout.heads| ==> p <= layout.heads[restartIndex + 1]
    }

    /** The next entry to parse is p, and enough of its key is at hand. */
    ghost predicate AboutTo(p: nat)
      requires WellFormed()
      reads this
    {
      && p <= |layout.entries|
      && valueStart + valueLength == layout.starts[p]
      && IndexHolds(p)
      && (p < |layout.entries| ==> layout.shared[p] <= |key| && layout.shared[p] <= |layout.entries[p].key|
                                   && key[..layout.shared[p]] == layout.entries[p].key[..layout.shared[p]])
    }

    /** Reads the block's trailer. */
    constructor (less: Comparator, block: Bytes, ghost data: Bytes, ghost restarts: seq<Word>, ghost layout: Layout)
      requires Finished(block, data, restarts) && LaidOut(data, layout) && RestartsHold(restarts, layout)
      ensures WellFormed() && Stands() && position == |layout.entries|
      ensures this.layout == layout && this.less == less
    {
      FinishedParts(block, data, restarts);
      this.less, this.block, this.data, this.restarts, this.layout := less, block, data, restarts, layout;
      numRestarts := NumRestarts(block);
      restartsAt := RestartOffset(block);
      current, restartIndex := RestartOffset(block), NumRestarts(block);
      key, valueStart, valueLength := [], 0, 0;
      position := |layout.entries|;
    }

    predicate Valid()
      reads this
    {
      current < restartsAt
    }

    lemma ValidInside()
      requires WellFormed() && Stands()
      ensures Valid() <==> position < |layout.entries|
    {
      if position < |layout.entries| {
        assert EntryAt(data, layout, position);
      }
    }

    function Value(): Bytes
      requires valueStart + valueLength <= |block|
      reads this
    {
      block[valueStart..valueStart + valueLength]
    }

    function NextEntryOffset(): nat
      reads this
    {
      valueStart + valueLength
    }

    function RestartPoint(i: nat): nat
      requires WellFormed() && i < numRestarts
    {
      FinishedParts(block, data, restarts);
      DecodeFixed32(block[restartsAt + 4 * i..restartsAt + 4 * i + 4])
    }

    lemma RestartIs(i: nat)
      requires WellFormed() && i < numRestarts
      ensures RestartPoint(i) == restarts[i] && |layout.heads| == numRestarts
      ensures layout.heads[i] <= |layout.entries| && RestartPoint(i) == layout.starts[layout.heads[i]]
      ensures layout.entries != [] ==> layout.heads[i] < |layout.entries| && layout.shared[layout.heads[i]] == 0
    {
      FinishedParts(block, data, restarts);
    }

    method SeekToRestartPoint(index: nat)
      requires WellFormed() && index < numRestarts
      modifies this
      ensures restartIndex == index && |layout.heads| == numRestarts && AboutTo(layout.heads[index])
    {
      RestartIs(index);
      key := [];
      restartIndex := index;
      valueStart, valueLength := RestartPoint(index), 0;
    }

    /** Parses the entry after the current value; there is none at the end of the data. */
    method ParseNextKey(ghost p: nat) returns (parsed: bool)
      requires WellFormed() && AboutTo(p)
      modifies this
      ensures Stands() && position == p && parsed == (p < |layout.entries|)
    {
      hide Finished, LaidOut, RestartsHold;
      BlockData();
      current := NextEntryOffset();
      if current >= restartsAt {
        StartInside(p);
        current, restartIndex := restartsAt, numRestarts;
        position := p;
        return false;
      }
      StartInside(p);
      assert block[current..restartsAt] == data[current..];
      EntryParts(data, layout, p);
      match DecodeEntry(block[current..restartsAt]) {
        case None =>
          assert false;
        case Some(d) =>
          if |key| < d.shared {
            assert false;
          }
          TakeEntry(d, p);
          return true;
      }
    }

    /** Rebuilds the key from what it shares with the one before, and finds the value. */
    method TakeEntry(d: Decoded, ghost p: nat)
      requires WellFormed() && p < |layout.entries| && current == layout.starts[p] && IndexHolds(p)
      requires PartsAt(data, layout.starts[p], layout.starts[p + 1], layout.shared[p], layout.entries[p])
      requires DecodeEntry(data[layout.starts[p]..]) == Some(d)
      requires d.shared <= |key| && key[..d.shared] == layout.entries[p].key[..d.shared]
      modifies this
      ensures Stands() && position == p
    {
      hide Finished, LaidOut, RestartsHold, DecodeEntry;
      ghost var e := layout.entries[p];
      var at := current + d.size;
      SameBytes(at, at + d.nonShared);
      SameBytes(at + d.nonShared, at + d.nonShared + d.valueLength);
      key := key[..d.shared] + block[at..at + d.nonShared];
      assert key == e.key;
      valueStart, valueLength := at + d.nonShared, d.valueLength;
      position := p;
      AdvanceRestart(p);
    }

    lemma BlockData()
      requires WellFormed()
      ensures |data| <= |block| && restartsAt == |data| && block[..restartsAt] == data
      ensures |layout.starts| == |layout.entries| + 1 && |layout.shared| == |layout.entries|
    {
      FinishedParts(block, data, restarts);
    }

    lemma SameBytes(i: nat, j: nat)
      requires WellFormed() && i <= j <= |data|
      ensures |data| <= |block| && block[i..j] == data[i..j]
    {
      BlockData();
      assert block[i..j] == block[..restartsAt][i..j];
    }

    lemma StartInside(p: nat)
      requires WellFormed() && p <= |layout.entries|
      ensures layout.starts[p] <= |data| && (layout.starts[p] < |data| <==> p < |layout.entries|)
    {
      StartsWithin(data, layout, p);
      if p < |layout.entries| {
        assert EntryAt(data, layout, p);
      }
    }

    method AdvanceRestart(ghost p: nat)
      requires WellFormed() && p < |layout.entries| && current == layout.starts[p] && IndexHolds(p)
      modifies this`restartIndex
      ensures IndexHolds(p) && NextRestartFollows(p)
    {
      hide LaidOut, RestartsHold, Finished;
      while restartIndex + 1 < numRestarts && RestartPoint(restartIndex + 1) < current
        invariant IndexHolds(p)
        decreases numRestarts - restartIndex
      {
        RestartIs(restartIndex + 1);
        BeforeStart(layout.heads[restartIndex + 1], p);
        restartIndex := restartIndex + 1;
      }
      if restartIndex + 1 < numRestarts {
        RestartIs(restartIndex + 1);
        BeforeStart(layout.heads[restartIndex + 1], p);
      }
    }

    lemma BeforeStart(i: nat, p: nat)
      requires WellFormed() && i <= |layout.entries| && p <= |layout.entries|
      ensures layout.starts[i] < layout.starts[p] <==> i < p
    {
      if i <= p {
        StartsAscend(data, layout, i, p);
      } else {
        StartsAscend(data, layout, p, i);
      }
    }

    // ---------------------------------------------------------------- the cursor

    method SeekToFirst()
      requires WellFormed()
      modifies this
      ensures Stands() && position == 0
    {
      RestartIs(0);
      SeekToRestartPoint(0);
      var _ := ParseNextKey(0);
    }

    /** Having parsed entry p, the next one can be parsed. */
    lemma ThenNext()
      requires WellFormed() && Stands() && position < |layout.entries|
      ensures AboutTo(position + 1)
    {
      if position + 1 < |layout.entries| {
        assert EntryAt(data, layout, position + 1);
      }
    }

    method SeekToLast()
      requires WellFormed()
      modifies this
      ensures Stands() && position == if layout.entries == [] then 0 else |layout.entries| - 1
    {
      hide LaidOut, RestartsHold, Finished;
      FirstRestart();
      RestartIs(numRestarts - 1);
      SeekToRestartPoint(numRestarts - 1);
      var parsed := ParseNextKey(layout.heads[numRestarts - 1]);
      while parsed && NextEntryOffset() < restartsAt
        invariant Stands() && parsed == (position < |layout.entries|)
        invariant position == |layout.entries| ==> layout.entries == []
        decreases |layout.entries| - position, parsed
      {
        ThenNext();
        StartInside(position + 1);
        parsed := ParseNextKey(position + 1);
      }
      if parsed {
        StartInside(position + 1);
      }
    }

    method Next()
      requires WellFormed() && Stands() && Valid()
      modifies this
      ensures Stands() && position == old(position) + 1
    {
      ValidInside();
      ThenNext();
      var _ := ParseNextKey(position + 1);
    }

    /** Goes back to the last restart point before the current entry and parses forward to the entry
        that ends where the current one starts. */
    method Prev()
      requires WellFormed() && Stands() && Valid()
      modifies this
      ensures Stands() && position == if old(position) == 0 then |layout.entries| else old(position) - 1
    {
      hide LaidOut, RestartsHold, Finished;
      ValidInside();
      var original := current;
      ghost var p := position;
      RestartIs(restartIndex);
      BeforeStart(layout.heads[restartIndex], p);
      while RestartPoint(restartIndex) >= original
        invariant IndexHolds(p) && position == p && restartIndex < numRestarts
        invariant RestartPoint(restartIndex) < original <==> layout.heads[restartIndex] < p
        decreases restartIndex
      {
        if restartIndex == 0 {
          FirstRestart();
          current, restartIndex, position := restartsAt, numRestarts, |layout.entries|;
          return;
        }
        EarlierRestart(restartIndex);
        restartIndex := restartIndex - 1;
        RestartIs(restartIndex);
        BeforeStart(layout.heads[restartIndex], p);
      }
      SeekToRestartPoint(restartIndex);
      var parsed := ParseNextKey(layout.heads[restartIndex]);
      while parsed && NextEntryOffset() < original
        invariant Stands() && parsed && position < p
        decreases p - position
      {
        ThenNext();
        BeforeStart(position + 1, p);
        parsed := ParseNextKey(position + 1);
      }
      BeforeStart(position + 1, p);
    }

    lemma FirstRestart()
      requires WellFormed()
      ensures |layout.heads| == numRestarts > 0 && layout.heads[0] == 0
    {
    }

    lemma EarlierRestart(i: nat)
      requires WellFormed() && 0 < i < numRestarts
      ensures |layout.heads| == numRestarts && layout.heads[i - 1] < layout.heads[i]
    {
    }

    /** A binary search over the restart points for the last with a smaller key, then a scan. */
    method Seek(target: Bytes)
      requires WellFormed() && Transitive(less) && Ascending(less, layout.entries)
      modifies this
      ensures Stands() && IsLowerBound(less, layout.entries, target, position)
    {
      hide LaidOut, RestartsHold, Finished, ReachedFrom, NextRestartFollows;
      var left := FindRestart(target);
      SeekToRestartPoint(left);
      var parsed := ParseNextKey(layout.heads[left]);
      while parsed && less(key, target)
        invariant Stands() && parsed == (position < |layout.entries|)
        invariant forall i :: 0 <= i < position ==> less(layout.entries[i].key, target)
        decreases |layout.entries| - position, parsed
      {
        ThenNext();
        parsed := ParseNextKey(position + 1);
      }
      RestAreLater(target);
    }

    lemma RestAreLater(target: Bytes)
      requires Transitive(less) && Ascending(less, layout.entries) && position <= |layout.entries|
      requires position < |layout.entries| ==> !less(layout.entries[position].key, target)
      ensures forall i :: position <= i < |layout.entries| ==> !less(layout.entries[i].key, target)
    {
      forall i | position < i < |layout.entries|
        ensures !less(layout.entries[i].key, target)
      {
        assert less(layout.entries[position].key, layout.entries[i].key);
      }
    }

    /** All entries before the restart point found are before the target, and those at later restart points
        are not. */
    method FindRestart(target: Bytes) returns (left: nat)
      requires WellFormed() && Transitive(less) && Ascending(less, layout.entries)
      ensures left < numRestarts && |layout.heads| == numRestarts && layout.heads[left] <= |layout.entries|
      ensures forall i :: 0 <= i < layout.heads[left] ==> less(layout.entries[i].key, target)
      ensures ReachedFrom(left + 1, target)
    {
      hide LaidOut, RestartsHold, Finished, Ascending, ReachedFrom;
      NoneLeft(target);
      BlockData();
      FirstRestart();
      RestartIs(0);
      left := 0;
      var right := numRestarts - 1;
      while left < right
        invariant 0 <= left <= right < numRestarts && layout.heads[left] <= |layout.entries|
        invariant forall i :: 0 <= i < layout.heads[left] ==> less(layout.entries[i].key, target)
        invariant ReachedFrom(right + 1, target)
        decreases right - left
      {
        var mid := (left + right + 1) / 2;
        RestartIs(mid);
        SomeEntries(mid);
        var region := RestartPoint(mid);
        ghost var m := layout.heads[mid];
        EntryParts(data, layout, m);
        assert block[region..restartsAt] == data[region..];
        match DecodeEntry(block[region..restartsAt]) {
          case None =>
            assert false;
          case Some(d) =>
            if d.shared != 0 {
              assert false;
            }
            var at := region + d.size;
            SameBytes(at, at + d.nonShared);
            var midKey := block[at..at + d.nonShared];
            assert midKey == layout.entries[m].key;
            if less(midKey, target) {
              EarlierAreLess(m, target);
              left := mid;
            } else {
              LaterAreNotLess(mid, target);
              right := mid - 1;
            }
        }
      }
    }

    /** The entries at these restart points are not before the target. */
    ghost predicate ReachedFrom(first: nat, target: Bytes) {
      forall r :: first <= r < |layout.heads| ==>
        layout.heads[r] < |layout.entries| && !less(layout.entries[layout.heads[r]].key, target)
    }

    lemma NoneLeft(target: Bytes)
      requires WellFormed()
      ensures ReachedFrom(numRestarts, target)
    {
    }

    lemma LaterAreNotLess(mid: nat, target: Bytes)
      requires WellFormed() && Transitive(less) && Ascending(less, layout.entries)
               && mid < |layout.heads| == numRestarts
      requires layout.heads[mid] < |layout.entries| && !less(layout.entries[layout.heads[mid]].key, target)
      ensures ReachedFrom(mid, target)
    {
      hide LaidOut, Finished;
      forall r | mid < r < numRestarts
        ensures layout.heads[r] < |layout.entries| && !less(layout.entries[layout.heads[r]].key, target)
      {
        RestartIs(r);
        HeadsAscend(mid, r);
        assert less(layout.entries[layout.heads[mid]].key, layout.entries[layout.heads[r]].key);
      }
    }

    lemma {:induction false} HeadsAscend(i: nat, j: nat)
      requires WellFormed() && i < j < numRestarts
      ensures |layout.heads| == numRestarts && layout.heads[i] < layout.heads[j]
      decreases j
    {
      EarlierRestart(j);
      if i < j - 1 {
        HeadsAscend(i, j - 1);
      }
    }

    lemma SomeEntries(i: nat)
      requires WellFormed() && 0 < i < numRestarts
      ensures layout.entries != []
    {
    }

    lemma EarlierAreLess(m: nat, target: Bytes)
      requires Transitive(less) && Ascending(less, layout.entries) && m < |layout.entries|
               && less(layout.entries[m].key, target)
      ensures forall i :: 0 <= i <= m ==> less(layout.entries[i].key, target)
    {
    }
  }

  // ------------------------------------------------------------------ any sequence of calls

  function KeyBefore(less: Comparator): (Pair, Bytes) -> bool {
    (e: Pair, target: Bytes) => less(e.key, target)
  }

  method Make(it: BlockIter, move: Move<Bytes>) returns (shown: Option<Pair>)
    requires it.WellFormed() && it.Stands() && Transitive(it.less) && Ascending(it.less, it.layout.entries)
    modifies it
    ensures it.Stands() && it.position == Moved(it.layout.entries, KeyBefore(it.less), old(it.position), move)
    ensures shown == ElementAt(it.layout.entries, it.position)
  {
    it.ValidInside();
    match move {
      case ToFirst => it.SeekToFirst();
      case ToLast => it.SeekToLast();
      case SeekTo(target) =>
        it.Seek(target);
        PlaceIsUnique(it.layout.entries, KeyBefore(it.less), target, it.position);
      case ToNext =>
        if it.Valid() {
          it.Next();
        }
      case ToPrev =>
        if it.Valid() {
          it.Prev();
        }
    }
    it.ValidInside();
    shown := if it.Valid() then Some(Pair(it.key, it.Value())) else None;
  }

  /** Whatever calls are made, in whatever order, the pairs shown are those a plain cursor over the
      block's entries would show. */
  method Drive(it: BlockIter, moves: seq<Move<Bytes>>) returns (shown: seq<Option<Pair>>)
    requires it.WellFormed() && it.Stands() && Transitive(it.less) && Ascending(it.less, it.layout.entries)
    requires it.position == |it.layout.entries|
    modifies it
    ensures shown == Trace(it.layout.entries, KeyBefore(it.less), |it.layout.entries|, moves)
  {
    shown := [];
    ghost var es, before := it.layout.entries, KeyBefore(it.less);
    for i := 0 to |moves|
      invariant it.Stands()
      invariant shown + Trace(es, before, it.position, moves[i..]) == Trace(es, before, |es|, moves)
    {
      assert moves[i..][0] == moves[i] && moves[i..][1..] == moves[i + 1..];
      var next := Make(it, moves[i]);
      shown := shown + [next];
    }
  }

  /** The bytes that entries can take in a block. */
  function Room(es: seq<Pair>): nat {
    if es == [] then 0 else Room(es[..|es| - 1]) + |es[|es| - 1].key| + |es[|es| - 1].value| + 15
  }

  /** The whole way of a block: entries with ascending keys are added at any restart interval, the
      block is finished, and an iterator made from its bytes alone shows, over any sequence of calls,
      what a plain cursor over the entries shows. */
  method BuildAndRead(less: Comparator, interval: nat, entries: seq<Pair>, moves: seq<Move<Bytes>>)
      returns (block: Bytes, shown: seq<Option<Pair>>)
    requires interval >= 1 && Transitive(less) && Ascending(less, entries) && Room(entries) < TWO_32
    ensures shown == Trace(entries, KeyBefore(less), |entries|, moves)
  {
    hide Finished, LaidOut, RestartsHold, Ascending, Transitive;
    var builder := BuildAll(less, interval, entries);
    ghost var data := builder.buffer;
    block := builder.Finish();
    var it := new BlockIter(less, block, data, builder.restarts, builder.layout);
    shown := Drive(it, moves);
  }

  /** Walking over a built block shows exactly the entries it was built from, in order, and then
      nothing. */
  method BuildAndWalk(less: Comparator, interval: nat, entries: seq<Pair>)
      returns (block: Bytes, shown: seq<Option<Pair>>)
    requires interval >= 1 && Transitive(less) && Ascending(less, entries) && Room(entries) < TWO_32
    ensures |shown| == |entries| + 1 && shown[|entries|] == None
    ensures forall i :: 0 <= i < |entries| ==> shown[i] == Some(entries[i])
  {
    block, shown := BuildAndRead(less, interval, entries, Walk(|entries|));
    WalkShowsAll(entries, KeyBefore(less), |entries|);
  }

  method BuildAll(less: Comparator, interval: nat, entries: seq<Pair>) returns (builder: BlockBuilder)
    requires interval >= 1 && Ascending(less, entries) && Room(entries) < TWO_32
    ensures fresh(builder) && builder.Valid() && builder.less == less && builder.layout.entries == entries
  {
    hide Finished, LaidOut, RestartsHold, BlockBuilder.Valid;
    builder := new BlockBuilder(interval, less);
    for i := 0 to |entries|
      invariant fresh(builder) && builder.Valid() && builder.less == less
      invariant builder.layout.entries == entries[..i] && |builder.buffer| <= Room(entries[..i])
    {
      assert entries[..i + 1][..i] == entries[..i];
      RoomGrows(entries, i + 1);
      builder.Add(entries[i].key, entries[i].value);
    }
    assert entries[..|entries|] == entries;
  }

  lemma {:induction false} RoomGrows(es: seq<Pair>, i: nat)
    requires i <= |es|
    ensures Room(es[..i]) <= Room(es)
    decreases |es|
  {
    if i < |es| {
      RoomGrows(es[..|es| - 1], i);
      assert es[..|es| - 1][..i] == es[..i];
    } else {
      assert es[..i] == es;
    }
  }
}
