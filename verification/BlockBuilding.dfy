/** The block builder. */
module BlockBuilding {
  import opened Coding
  import opened BlockFormat

  /** The layout with one more entry, a restart point or not. */
  function Extended(l: Layout, shared: nat, e: Pair, end: nat, restart: bool): Layout {
    Layout(l.entries + [e], l.starts + [end], l.shared + [shared], if restart then l.heads + [|l.entries|] else l.heads)
  }

  lemma ExtendedLaidOut(data: Bytes, l: Layout, shared: nat, e: Pair, restart: bool)
    requires LaidOut(data, l) && shared <= |e.key|
    requires if l.entries == [] then shared == 0
             else var k := l.entries[|l.entries| - 1].key; shared <= |k| && k[..shared] == e.key[..shared]
    requires |data + EncodedEntry(shared, e)| < TWO_32
    ensures var longer := data + EncodedEntry(shared, e);
            LaidOut(longer, Extended(l, shared, e, |longer|, restart))
  {
    hide EncodedEntry, Header;
    var bytes := EncodedEntry(shared, e);
    var longer := data + bytes;
    var m := Extended(l, shared, e, |longer|, restart);
    EntryNotEmpty(shared, e);
    forall i | 0 <= i < |m.entries|
      ensures EntryAt(longer, m, i)
    {
      if i < |l.entries| {
        assert EntryAt(data, l, i);
        assert Shares(m, i);
        assert longer[m.starts[i]..m.starts[i + 1]] == data[l.starts[i]..l.starts[i + 1]];
      } else {
        assert Shares(m, i);
        assert longer[|data|..|longer|] == bytes;
      }
    }
  }

  lemma EntryNotEmpty(shared: nat, e: Pair)
    requires shared <= |e.key|
    ensures 3 <= |EncodedEntry(shared, e)|
  {
  }

  lemma ExtendedRestarts(restarts: seq<Word>, data: Bytes, l: Layout, shared: nat, e: Pair, end: nat, restart: bool)
    requires LaidOut(data, l) && RestartsHold(restarts, l)
    requires restart || l.entries == [] ==> shared == 0
    requires restart ==> l.entries != []
    ensures RestartsHold(if restart then restarts + [|data|] else restarts, Extended(l, shared, e, end, restart))
  {
    hide EntryAt;
  }

  lemma ExtendedAscends(less: Comparator, es: seq<Pair>, e: Pair)
    requires Ascending(less, es) && forall x :: x in es ==> less(x.key, e.key)
    ensures Ascending(less, es + [e])
  {
  }

  ghost predicate IsLongestPrefix(a: Bytes, b: Bytes, n: nat) {
    n <= |a| && n <= |b| && a[..n] == b[..n] && (n < |a| && n < |b| ==> a[n] != b[n])
  }

  class BlockBuilder {
    const interval: nat
    const less: Comparator
    var buffer: Bytes
    var restarts: seq<Word>
    var counter: nat
    var finished: bool
    var lastKey: Bytes
    ghost var layout: Layout

    ghost predicate Valid()
      reads this
    {
      && interval >= 1 && counter <= interval && !finished
      && LaidOut(buffer, layout) && RestartsHold(restarts, layout)
      && lastKey == (if layout.entries == [] then [] else layout.entries[|layout.entries| - 1].key)
      && counter == |layout.entries| - layout.heads[|layout.heads| - 1]
      && Ascending(less, layout.entries)
      && 2 * |restarts| <= |buffer| + 2
    }

    constructor (interval: nat, less: Comparator)
      requires interval >= 1
      ensures Valid() && layout.entries == [] && buffer == [] && this.interval == interval && this.less == less
    {
      this.interval, this.less := interval, less;
      buffer, restarts, counter, finished, lastKey := [], [0], 0, false, [];
      layout := Layout([], [0], [], [0]);
    }

    /** How much of the key to leave out: the longest common prefix with the one before. */
    method SharedPrefix(key: Bytes) returns (shared: nat)
      ensures shared <= |lastKey| && shared <= |key| && lastKey[..shared] == key[..shared]
      ensures shared < |lastKey| && shared < |key| ==> lastKey[shared] != key[shared]
    {
      shared := 0;
      while shared < |lastKey| && shared < |key| && lastKey[shared] == key[shared]
        invariant shared <= |lastKey| && shared <= |key| && lastKey[..shared] == key[..shared]
      {
        shared := shared + 1;
      }
    }

    method Add(key: Bytes, value: Bytes)
      requires Valid() && |key| + |value| + |buffer| + 15 < TWO_32
      requires forall e :: e in layout.entries ==> less(e.key, key)
      modifies this
      ensures Valid() && layout.entries == old(layout.entries) + [Pair(key, value)]
      ensures |buffer| <= |old(buffer)| + |key| + |value| + 15
      ensures forall r :: 0 <= r < |old(layout.heads)| ==> r < |layout.heads| && layout.heads[r] == old(layout.heads)[r]
      ensures |layout.heads| > |old(layout.heads)| <==>
                |old(layout.entries)| - old(layout.heads)[|old(layout.heads)| - 1] == interval
      ensures |layout.shared| == |old(layout.shared)| + 1
      ensures var s := layout.shared[|old(layout.shared)|];
              if |layout.heads| > |old(layout.heads)| then s == 0 else IsLongestPrefix(old(lastKey), key, s)
    {
      hide LaidOut, EncodedEntry, Header, Ascending, RestartsHold, Extended;
      ghost var e, before, data, restartsBefore, counterBefore := Pair(key, value), layout, buffer, restarts, counter;
      ghost var restart := counter >= interval;
      DataWithin(buffer, layout);
      var shared := ShareOrRestart(key);
      EntrySize(shared, e);
      AppendEntry(shared, |key| - shared, key, value);
      counter := counter + 1;
      layout := Extended(before, shared, e, |data + EncodedEntry(shared, e)|, restart);
      EntriesAdded(before, shared, e, restart, restartsBefore, data, counterBefore);
    }

    /** With the entry added everything holds again. */
    lemma EntriesAdded(l: Layout, shared: nat, e: Pair, restart: bool, restartsBefore: seq<Word>, data: Bytes,
        counterBefore: nat)
      requires LaidOut(data, l) && RestartsHold(restartsBefore, l) && Ascending(less, l.entries) && shared <= |e.key|
      requires forall x :: x in l.entries ==> less(x.key, e.key)
      requires if l.entries == [] then shared == 0
               else var k := l.entries[|l.entries| - 1].key; shared <= |k| && k[..shared] == e.key[..shared]
      requires buffer == data + EncodedEntry(shared, e) && |buffer| < TWO_32
      requires layout == Extended(l, shared, e, |buffer|, restart) && (restart ==> shared == 0) && lastKey == e.key
      requires 1 <= interval && counterBefore <= interval && counterBefore == |l.entries| - l.heads[|l.heads| - 1]
      requires restart == (counterBefore >= interval) && counter == (if restart then 1 else counterBefore + 1)
               && !finished
      requires restarts == if restart then restartsBefore + [|data|] else restartsBefore
      requires 2 * |restartsBefore| <= |data| + 2
      ensures Valid() && layout.entries == l.entries + [e]
      ensures layout.heads == if restart then l.heads + [|l.entries|] else l.heads
      ensures layout.shared == l.shared + [shared]
    {
      HeadsMatch(restartsBefore, l);
      hide LaidOut, EncodedEntry, Ascending, RestartsHold, Extended, Header;
      LayoutAdded(less, l, shared, e, restart, restartsBefore, data);
      EntryNotEmpty(shared, e);
      ExtendedParts(l, shared, e, |buffer|, restart);
    }

    static lemma LayoutAdded(less: Comparator, l: Layout, shared: nat, e: Pair, restart: bool, restarts: seq<Word>,
        data: Bytes)
      requires LaidOut(data, l) && RestartsHold(restarts, l) && Ascending(less, l.entries) && shared <= |e.key|
      requires forall x :: x in l.entries ==> less(x.key, e.key)
      requires if l.entries == [] then shared == 0
               else var k := l.entries[|l.entries| - 1].key; shared <= |k| && k[..shared] == e.key[..shared]
      requires |data| < |data + EncodedEntry(shared, e)| < TWO_32 && (restart ==> shared == 0 && l.entries != [])
      ensures var longer := data + EncodedEntry(shared, e);
              var r := Extended(l, shared, e, |longer|, restart);
              && LaidOut(longer, r) && Ascending(less, r.entries)
              && RestartsHold(if restart then restarts + [|data|] else restarts, r)
    {
      hide LaidOut, EncodedEntry, Ascending, RestartsHold, Header;
      var longer := data + EncodedEntry(shared, e);
      ExtendedLaidOut(data, l, shared, e, restart);
      ExtendedRestarts(restarts, data, l, shared, e, |longer|, restart);
      ExtendedAscends(less, l.entries, e);
    }

    /** A full interval begins a restart point, whose key is stored whole. */
    method ShareOrRestart(key: Bytes) returns (shared: nat)
      requires |buffer| < TWO_32
      modifies this`restarts, this`counter
      ensures shared <= |lastKey| && shared <= |key| && lastKey[..shared] == key[..shared]
      ensures if old(counter) >= interval then shared == 0 && counter == 0 && restarts == old(restarts) + [|buffer|]
              else counter == old(counter) && restarts == old(restarts) && IsLongestPrefix(lastKey, key, shared)
    {
      shared := 0;
      if counter < interval {
        shared := SharedPrefix(key);
      } else {
        restarts := restarts + [|buffer|];
        counter := 0;
      }
    }

    static lemma ExtendedParts(l: Layout, shared: nat, e: Pair, end: nat, restart: bool)
      ensures var r := Extended(l, shared, e, end, restart);
              && r.entries == l.entries + [e] && r.entries[|r.entries| - 1] == e
              && r.shared == l.shared + [shared]
              && r.heads == if restart then l.heads + [|l.entries|] else l.heads
    {
    }

    static lemma HeadsMatch(restarts: seq<Word>, l: Layout)
      requires RestartsHold(restarts, l)
      ensures |restarts| == |l.heads| > 0 && (l.entries == [] ==> restarts == [0] && l.heads == [0])
      ensures l.entries != [] ==> l.heads[|l.heads| - 1] < |l.entries|
    {
    }

    /** Writes the three lengths, the rest of the key and the value, and rebuilds the last key. */
    method AppendEntry(shared: nat, nonShared: nat, key: Bytes, value: Bytes)
      requires shared <= |key| && |key| + |value| < TWO_32 && nonShared == |key| - shared
      requires shared <= |lastKey| && lastKey[..shared] == key[..shared]
      modifies this`buffer, this`lastKey
      ensures buffer == old(buffer) + EncodedEntry(shared, Pair(key, value)) && lastKey == key
    {
      EntryAppended(buffer, shared, Pair(key, value));
      hide EncodedEntry, EncodeVarint32;
      buffer := buffer + EncodeVarint32(shared);
      buffer := buffer + EncodeVarint32(nonShared);
      buffer := buffer + EncodeVarint32(|value|);
      buffer := buffer + key[shared..] + value;
      lastKey := lastKey[..shared] + key[shared..];
    }

    static lemma DataWithin(data: Bytes, l: Layout)
      requires LaidOut(data, l)
      ensures |data| < TWO_32
    {
    }

    static lemma EntrySize(shared: nat, e: Pair)
      requires shared <= |e.key| && |e.key| + |e.value| < TWO_32
      ensures |EncodedEntry(shared, e)| <= |e.key| + |e.value| + 15
    {
      EncodeVarint32IsVarint(shared);
      EncodeVarint32IsVarint(|e.key| - shared);
      EncodeVarint32IsVarint(|e.value|);
    }

    static lemma EntryAppended(data: Bytes, shared: nat, e: Pair)
      requires shared <= |e.key| && |e.key| + |e.value| < TWO_32
      ensures data + EncodeVarint32(shared) + EncodeVarint32(|e.key| - shared) + EncodeVarint32(|e.value|)
              + e.key[shared..] + e.value
           == data + EncodedEntry(shared, e)
    {
      EncodeVarint32IsVarint(shared);
      EncodeVarint32IsVarint(|e.key| - shared);
      EncodeVarint32IsVarint(|e.value|);
      hide EncodeVarint32, Varint;
    }

    /** How long the block would be if it were finished now. */
    function CurrentSizeEstimate(): nat
      reads this
    {
      |buffer| + |restarts| * 4 + 4
    }

    predicate Empty()
      reads this
    {
      buffer == []
    }

    lemma EmptyMeansNone()
      requires Valid()
      ensures Empty() <==> layout.entries == []
    {
      if layout.entries != [] {
        StartsAscend(buffer, layout, 0, |layout.entries|);
      }
    }

    method Reset()
      requires interval >= 1
      modifies this
      ensures Valid() && layout.entries == [] && buffer == []
    {
      buffer, restarts, counter, finished, lastKey := [], [0], 0, false, [];
      layout := Layout([], [0], [], [0]);
    }

    method Finish() returns (block: Bytes)
      requires Valid()
      modifies this
      ensures Finished(block, old(buffer), restarts) && finished
      ensures |block| == old(CurrentSizeEstimate()) < 4 * TWO_32
      ensures LaidOut(old(buffer), layout) && RestartsHold(restarts, layout) && layout == old(layout)
    {
      hide LaidOut, RestartsHold, Fixed32;
      DataWithin(buffer, layout);
      ghost var data := buffer;
      for i := 0 to |restarts|
        invariant restarts == old(restarts) && layout == old(layout)
        invariant buffer == data + Words(restarts[..i])
      {
        assert restarts[..i + 1][..i] == restarts[..i];
        buffer := buffer + Fixed32(restarts[i]);
      }
      assert restarts[..|restarts|] == restarts;
      buffer := buffer + Fixed32(|restarts|);
      finished := true;
      block := buffer;
    }
  }
}
