/** The merging iterator: several sorted children walked together as one sorted run. */
module Merger {
  import opened Options
  import opened InternalKeys
  import opened Reads
  import opened Iterators
  import opened Cursors

  datatype Direction = Forward | Reverse

  class MergingIterator {
    const children: seq<EntryIterator>
    var current: Option<nat>
    var direction: Direction
    /** The sorted union of the children, and the place in it where the iterator stands; past the
        end when it is not valid. */
    ghost const merged: seq<Entry>
    ghost var position: nat

    constructor (children: seq<EntryIterator>, ghost merged: seq<Entry>)
      requires SortedUnion(children, merged)
      requires forall i, j :: 0 <= i < j < |children| ==> children[i] != children[j]
      ensures this.children == children && this.merged == merged
      ensures WellFormed() && Holds() && position == |merged|
    {
      this.children, this.merged := children, merged;
      current, direction, position := None, Forward, |merged|;
    }

    /** Each key is stored in exactly one child, once. */
    static ghost predicate SortedUnion(children: seq<EntryIterator>, merged: seq<Entry>) {
      && Sorted(merged)
      && (forall i :: 0 <= i < |children| ==> Sorted(children[i].es))
      && (forall i, k :: 0 <= i < |children| && 0 <= k < |children[i].es| ==> children[i].es[k] in merged)
      && (forall n :: 0 <= n < |merged| ==> Stored(children, merged[n]))
      && (forall i, j, k, m :: 0 <= i < j < |children| && 0 <= k < |children[i].es| && 0 <= m < |children[j].es|
            ==> children[i].es[k].key != children[j].es[m].key)
    }

    static ghost predicate Stored(children: seq<EntryIterator>, e: Entry) {
      exists i, k :: 0 <= i < |children| && 0 <= k < |children[i].es| && children[i].es[k] == e
    }

    ghost predicate WellFormed() {
      && SortedUnion(children, merged)
      && (forall i, j :: 0 <= i < j < |children| ==> children[i] != children[j])
    }

    /** The key belongs to the first n merged entries. */
    ghost predicate BeforeCut(k: InternalKey, n: nat)
      requires n <= |merged|
    {
      n == |merged| || Less(k, merged[n].key)
    }

    /** The child stands at its first entry past the cut. */
    ghost predicate AtCut(i: nat, n: nat)
      requires i < |children| && n <= |merged|
      reads children[i]
    {
      var c := children[i];
      && c.index <= |c.es|
      && (c.Valid() ==> !BeforeCut(c.es[c.index].key, n))
      && (forall k :: 0 <= k < c.index ==> BeforeCut(c.es[k].key, n))
      && (forall k :: c.index <= k < |c.es| ==> !BeforeCut(c.es[k].key, n))
    }

    /** The child stands at its last entry before the cut, or nowhere if it has none. */
    ghost predicate BackAtCut(i: nat, n: nat)
      requires i < |children| && n <= |merged|
      reads children[i]
    {
      var c := children[i];
      && c.index <= |c.es|
      && (c.Valid() ==> BeforeCut(c.es[c.index].key, n))
      && (forall k :: 0 <= k < |c.es| ==> (BeforeCut(c.es[k].key, n) <==> (c.Valid() && k <= c.index)))
    }

    ghost predicate Frontier(n: nat)
      requires n <= |merged|
      reads children
    {
      forall i :: 0 <= i < |children| ==> AtCut(i, n)
    }

    ghost predicate BackFrontier(n: nat)
      requires n <= |merged|
      reads children
    {
      forall i :: 0 <= i < |children| ==> BackAtCut(i, n)
    }

    ghost predicate CurrentIs(n: nat)
      reads this, children
    {
      && n < |merged| && current.Some? && current.value < |children|
      && children[current.value].Valid()
      && children[current.value].es[children[current.value].index] == merged[n]
    }

    ghost predicate Holds()
      reads this, children
    {
      && position <= |merged|
      && (position == |merged| <==> current.None?)
      && (position < |merged| ==>
            && CurrentIs(position)
            && (if direction == Forward then Frontier(position) else BackFrontier(position + 1)))
    }

    predicate Valid()
      reads this
    {
      current.Some?
    }

    function Key(): InternalKey
      requires WellFormed() && Holds() && Valid()
      reads this, children
    {
      children[current.value].Key()
    }

    function Value(): seq<Byte>
      requires WellFormed() && Holds() && Valid()
      reads this, children
    {
      children[current.value].Value()
    }

    // ---------------------------------------------------------------- picking a child

    lemma PlaceOf(k: InternalKey, e: Entry, n: nat)
      requires WellFormed() && n < |merged| && e in merged && e.key == k
      ensures !BeforeCut(k, n) && k != merged[n].key ==> !BeforeCut(k, n + 1)
      ensures BeforeCut(k, n + 1) && k != merged[n].key ==> BeforeCut(k, n)
      ensures BeforeCut(k, n) ==> BeforeCut(k, n + 1)
    {
      var m :| 0 <= m < |merged| && merged[m] == e;
      assert m < n ==> Less(merged[m].key, merged[n].key);
      assert n < m ==> Less(merged[n].key, merged[m].key);
      if n + 1 < |merged| {
        assert Less(merged[n].key, merged[n + 1].key);
        assert m < n + 1 ==> Less(merged[m].key, merged[n + 1].key);
        assert n + 1 < m ==> Less(merged[n + 1].key, merged[m].key);
      }
    }

    /** At a cut, some child stands at the first entry past it. */
    lemma FrontierHasNext(n: nat) returns (i: nat)
      requires WellFormed() && n < |merged| && Frontier(n)
      ensures i < |children| && children[i].Valid() && children[i].es[children[i].index] == merged[n]
    {
      assert Stored(children, merged[n]);
      var k;
      i, k :| 0 <= i < |children| && 0 <= k < |children[i].es| && children[i].es[k] == merged[n];
      var c := children[i];
      assert AtCut(i, n);
      assert !BeforeCut(c.es[k].key, n);
      SortedApart(c.es, c.index, k);
    }

    lemma BackFrontierHasPrev(n: nat) returns (i: nat)
      requires WellFormed() && 0 < n <= |merged| && BackFrontier(n)
      ensures i < |children| && children[i].Valid() && children[i].es[children[i].index] == merged[n - 1]
    {
      assert Stored(children, merged[n - 1]);
      var k;
      i, k :| 0 <= i < |children| && 0 <= k < |children[i].es| && children[i].es[k] == merged[n - 1];
      var c := children[i];
      assert BackAtCut(i, n);
      assert n < |merged| ==> Less(merged[n - 1].key, merged[n].key);
      assert BeforeCut(c.es[k].key, n);
      if k < c.index {
        SortedApart(c.es, k, c.index);
        var e := c.es[c.index];
        assert e in merged;
        hide SortedUnion, Sorted;
        PlaceOf(e.key, e, n - 1);
      }
    }

    method FindSmallest(ghost n: nat)
      requires WellFormed() && n <= |merged| && Frontier(n)
      modifies this
      ensures position == n && direction == old(direction)
      ensures current.None? <==> n == |merged|
      ensures n < |merged| ==> CurrentIs(n)
    {
      var smallest: Option<nat> := None;
      for i := 0 to |children|
        invariant smallest.Some? ==> smallest.value < |children| && children[smallest.value].Valid()
        invariant forall k :: 0 <= k < i && children[k].Valid() ==>
                    smallest.Some? && !Less(children[k].Key(), children[smallest.value].Key())
      {
        if children[i].Valid() {
          if smallest.None? {
            smallest := Some(i);
          } else if Less(children[i].Key(), children[smallest.value].Key()) {
            smallest := Some(i);
          }
        }
      }
      if n < |merged| {
        ghost var w := FrontierHasNext(n);
        assert AtCut(smallest.value, n);
        SameKeySameEntry(smallest.value, n);
      } else {
        NothingPastEnd();
      }
      current := smallest;
      position := n;
    }

    lemma NothingPastEnd()
      requires WellFormed() && Frontier(|merged|)
      ensures forall i :: 0 <= i < |children| ==> !children[i].Valid()
    {
      forall i | 0 <= i < |children|
        ensures !children[i].Valid()
      {
        assert AtCut(i, |merged|);
      }
    }

    lemma SameKeySameEntry(i: nat, n: nat)
      requires WellFormed() && n < |merged| && i < |children| && children[i].Valid()
      requires children[i].Key() == merged[n].key
      ensures children[i].es[children[i].index] == merged[n]
    {
      var e := children[i].es[children[i].index];
      var m :| 0 <= m < |merged| && merged[m] == e;
      SortedApart(merged, m, n);
    }

    method FindLargest(ghost n: nat)
      requires WellFormed() && n <= |merged| && BackFrontier(n)
      modifies this
      ensures position == (if n == 0 then |merged| else n - 1) && direction == old(direction)
      ensures current.None? <==> n == 0
      ensures n > 0 ==> CurrentIs(n - 1)
    {
      hide SortedUnion, BackAtCut, BeforeCut;
      var largest: Option<nat> := None;
      var i := |children|;
      while i > 0
        invariant 0 <= i <= |children|
        invariant largest.Some? ==> largest.value < |children| && children[largest.value].Valid()
        invariant forall k :: i <= k < |children| && children[k].Valid() ==>
                    largest.Some? && !Less(children[largest.value].Key(), children[k].Key())
      {
        i := i - 1;
        if children[i].Valid() {
          if largest.None? {
            largest := Some(i);
          } else if Less(children[largest.value].Key(), children[i].Key()) {
            largest := Some(i);
          }
        }
      }
      LargestIsPrev(n, largest);
      current := largest;
      position := if n == 0 then |merged| else n - 1;
    }

    /** The child with the greatest key stands at the last entry before the cut. */
    lemma LargestIsPrev(n: nat, largest: Option<nat>)
      requires WellFormed() && n <= |merged| && BackFrontier(n)
      requires largest.Some? ==> largest.value < |children| && children[largest.value].Valid()
      requires forall k :: 0 <= k < |children| && children[k].Valid() ==>
                 largest.Some? && !Less(children[largest.value].Key(), children[k].Key())
      ensures largest.None? <==> n == 0
      ensures n > 0 ==> children[largest.value].es[children[largest.value].index] == merged[n - 1]
    {
      if n > 0 {
        var w := BackFrontierHasPrev(n);
        assert BackAtCut(largest.value, n);
        var e := children[largest.value].es[children[largest.value].index];
        PlaceOf(e.key, e, n - 1);
        SameKeySameEntry(largest.value, n - 1);
      } else {
        NothingBeforeFirst();
      }
    }

    lemma NothingBeforeFirst()
      requires WellFormed() && BackFrontier(0)
      ensures forall i :: 0 <= i < |children| ==> !children[i].Valid()
    {
      forall i, k | 0 <= i < |children| && 0 <= k < |children[i].es|
        ensures !BeforeCut(children[i].es[k].key, 0)
      {
        var m :| 0 <= m < |merged| && merged[m] == children[i].es[k];
        SortedApart(merged, m, 0);
      }
      forall i | 0 <= i < |children|
        ensures !children[i].Valid()
      {
        assert BackAtCut(i, 0);
      }
    }

    // ---------------------------------------------------------------- moving the cut

    /** The child that holds the merged entry n is the only one with that key. */
    lemma OthersDiffer(i: nat, c: nat, n: nat)
      requires WellFormed() && i < |children| && c < |children| && i != c && CurrentIs(n) && current == Some(c)
      ensures forall k :: 0 <= k < |children[i].es| ==> children[i].es[k].key != merged[n].key
    {
      forall k | 0 <= k < |children[i].es|
        ensures children[i].es[k].key != merged[n].key
      {
        assert merged[n] == children[c].es[children[c].index];
      }
    }

    /** A child that does not hold the merged entry n stands at the cut before it exactly when it
        stands at the cut after it. */
    lemma CutSkips(i: nat, n: nat)
      requires WellFormed() && i < |children| && n < |merged|
      requires forall k :: 0 <= k < |children[i].es| ==> children[i].es[k].key != merged[n].key
      ensures AtCut(i, n) <==> AtCut(i, n + 1)
      ensures BackAtCut(i, n) <==> BackAtCut(i, n + 1)
    {
      forall k | 0 <= k < |children[i].es|
        ensures BeforeCut(children[i].es[k].key, n) <==> BeforeCut(children[i].es[k].key, n + 1)
      {
        PlaceOf(children[i].es[k].key, children[i].es[k], n);
      }
    }

    /** In the child that holds the merged entry n, the entries before it are before the cut, and
        it is the last one before the next cut. */
    lemma CutWithin(c: nat, n: nat, index: nat)
      requires WellFormed() && c < |children| && n < |merged|
      requires index < |children[c].es| && children[c].es[index] == merged[n]
      ensures forall k :: 0 <= k < |children[c].es| ==> (BeforeCut(children[c].es[k].key, n) <==> k < index)
      ensures forall k :: 0 <= k < |children[c].es| ==> (BeforeCut(children[c].es[k].key, n + 1) <==> k <= index)
    {
      forall k | 0 <= k < |children[c].es|
        ensures BeforeCut(children[c].es[k].key, n) <==> k < index
        ensures BeforeCut(children[c].es[k].key, n + 1) <==> k <= index
      {
        SortedApart(children[c].es, k, index);
        PlaceOf(children[c].es[k].key, children[c].es[k], n);
        if n + 1 < |merged| {
          assert Less(merged[n].key, merged[n + 1].key);
        }
      }
    }

    // ---------------------------------------------------------------- the operations

    method SeekToFirst()
      requires WellFormed()
      modifies this, children
      ensures Holds() && position == 0
    {
      for i := 0 to |children|
        invariant forall k :: 0 <= k < i ==> children[k].index == 0
      {
        children[i].SeekToFirst();
      }
      forall i | 0 <= i < |children|
        ensures AtCut(i, 0)
      {
        forall k | 0 <= k < |children[i].es|
          ensures !BeforeCut(children[i].es[k].key, 0)
        {
          var m :| 0 <= m < |merged| && merged[m] == children[i].es[k];
          SortedApart(merged, m, 0);
        }
      }
      FindSmallest(0);
      direction := Forward;
    }

    method SeekToLast()
      requires WellFormed()
      modifies this, children
      ensures Holds() && position == if merged == [] then 0 else |merged| - 1
    {
      for i := 0 to |children|
        invariant forall k :: 0 <= k < i ==> children[k].index == if children[k].es == [] then 0
                                             else |children[k].es| - 1
      {
        children[i].SeekToLast();
      }
      assert forall i :: 0 <= i < |children| ==> BackAtCut(i, |merged|);
      FindLargest(|merged|);
      direction := Reverse;
    }

    method Seek(target: InternalKey)
      requires WellFormed()
      modifies this, children
      ensures Holds() && IsLowerBound(merged, target, position)
    {
      for i := 0 to |children|
        invariant forall k :: 0 <= k < i ==> IsLowerBound(children[k].es, target, children[k].index)
      {
        children[i].Seek(target);
      }
      ghost var n := LowerBoundOf(merged, target);
      forall i | 0 <= i < |children|
        ensures AtCut(i, n)
      {
        assert IsLowerBound(children[i].es, target, children[i].index);
        forall k | 0 <= k < |children[i].es|
          ensures Less(children[i].es[k].key, target) <==> BeforeCut(children[i].es[k].key, n)
        {
          var m :| 0 <= m < |merged| && merged[m] == children[i].es[k];
          if n < |merged| {
            SortedApart(merged, m, n);
          }
        }
      }
      FindSmallest(n);
      direction := Forward;
    }

    /** Puts every other child just past the current key. */
    method TurnForward()
      requires WellFormed() && Holds() && Valid() && direction == Reverse
      modifies this`direction, set i | 0 <= i < |children| && i != current.value :: children[i]
      ensures Holds() && direction == Forward && position == old(position) && current == old(current)
    {
      var c, key := current.value, Key();
      ghost var n := position;
      for i := 0 to |children|
        invariant CurrentIs(n) && current == Some(c)
        invariant forall k :: 0 <= k < i && k != c ==> AtCut(k, n)
      {
        if i != c {
          OthersDiffer(i, c, n);
          children[i].Seek(key);
          if children[i].Valid() && children[i].Key() == key {
            // Two equal keys would be stepped over together, but this one is held once
            assert false;
          }
          LowerBoundIsCut(i, n);
        }
      }
      CutWithin(c, n, children[c].index);
      direction := Forward;
    }

    lemma LowerBoundIsCut(i: nat, n: nat)
      requires WellFormed() && i < |children| && n < |merged|
      requires IsLowerBound(children[i].es, merged[n].key, children[i].index)
      ensures AtCut(i, n)
    {
    }

    /** Puts one child at its last entry before the key. */
    method PlaceBefore(i: nat, key: InternalKey, ghost n: nat)
      requires WellFormed() && i < |children| && n < |merged| && key == merged[n].key
      requires forall k :: 0 <= k < |children[i].es| ==> children[i].es[k].key != merged[n].key
      modifies children[i]
      ensures BackAtCut(i, n + 1)
    {
      children[i].Seek(key);
      if children[i].Valid() {
        // One step back from the first entry at or after the key
        children[i].Prev();
      } else {
        // Every entry of the child lies before the key
        children[i].SeekToLast();
      }
      assert BackAtCut(i, n);
      CutSkips(i, n);
    }

    /** Puts every other child just before the current key. */
    method TurnBackward()
      requires WellFormed() && Holds() && Valid() && direction == Forward
      modifies this`direction, set i | 0 <= i < |children| && i != current.value :: children[i]
      ensures Holds() && direction == Reverse && position == old(position) && current == old(current)
    {
      hide SortedUnion, AtCut, BeforeCut;
      var c, key := current.value, Key();
      ghost var n, next := position, position + 1;
      for i := 0 to |children|
        invariant CurrentIs(n) && current == Some(c)
        invariant forall k :: 0 <= k < i && k != c ==> BackAtCut(k, next)
      {
        if i != c {
          OthersDiffer(i, c, n);
          PlaceBefore(i, key, n);
        }
      }
      CutWithin(c, n, children[c].index);
      direction := Reverse;
    }

    /** Taking the merged entry n across the cut moves only the child that holds it. */
    lemma OthersCross(c: nat, n: nat, next: nat)
      requires WellFormed() && CurrentIs(n) && current == Some(c) && next == n + 1
      ensures forall i :: 0 <= i < |children| && i != c ==> (AtCut(i, n) <==> AtCut(i, next))
      ensures forall i :: 0 <= i < |children| && i != c ==> (BackAtCut(i, n) <==> BackAtCut(i, next))
    {
      forall i | 0 <= i < |children| && i != c
        ensures AtCut(i, n) <==> AtCut(i, next)
        ensures BackAtCut(i, n) <==> BackAtCut(i, next)
      {
        OthersDiffer(i, c, n);
        CutSkips(i, n);
      }
    }

    method Next()
      requires WellFormed() && Holds() && Valid()
      modifies this, children
      ensures Holds() && position == old(position) + 1
    {
      if direction != Forward {
        TurnForward();
      }
      hide SortedUnion;
      var c := current.value;
      ghost var n, next := position, position + 1;
      OthersCross(c, n, next);
      CutWithin(c, n, children[c].index);
      assert forall i :: 0 <= i < |children| && i != c ==> AtCut(i, next);
      children[c].Next();
      assert AtCut(c, next);
      FindSmallest(next);
    }

    /** The child that holds the merged entry n steps back to its last entry before the cut. */
    method StepBack(c: nat, ghost n: nat)
      requires WellFormed() && c < |children| && n < |merged| && children[c].Valid()
      requires children[c].es[children[c].index] == merged[n]
      modifies children[c]
      ensures BackAtCut(c, n)
    {
      CutWithin(c, n, children[c].index);
      children[c].Prev();
    }

    method Prev()
      requires WellFormed() && Holds() && Valid()
      modifies this, children
      ensures Holds() && position == if old(position) == 0 then |merged| else old(position) - 1
    {
      hide SortedUnion, BackAtCut, AtCut, BeforeCut;
      if direction != Reverse {
        TurnBackward();
      }
      var c := current.value;
      ghost var n := position;
      OthersBack(c, n, n + 1);
      StepBackAlone(c, n);
      FindLargest(n);
    }

    lemma OthersBack(c: nat, n: nat, next: nat)
      requires WellFormed() && CurrentIs(n) && current == Some(c) && next == n + 1 && BackFrontier(next)
      ensures forall i :: 0 <= i < |children| && i != c ==> BackAtCut(i, n)
    {
      hide SortedUnion, BackAtCut, AtCut, BeforeCut;
      OthersCross(c, n, next);
    }

    /** The others stand before the cut already, and are not moved. */
    method StepBackAlone(c: nat, ghost n: nat)
      requires WellFormed() && CurrentIs(n) && current == Some(c)
      requires forall i :: 0 <= i < |children| && i != c ==> BackAtCut(i, n)
      modifies children[c]
      ensures BackFrontier(n)
    {
      hide SortedUnion, BackAtCut, AtCut, BeforeCut;
      StepBack(c, n);
    }
  }

  lemma {:induction false} LowerBoundOf(es: seq<Entry>, key: InternalKey) returns (n: nat)
    requires Sorted(es)
    ensures IsLowerBound(es, key, n)
  {
    n := 0;
    while n < |es| && Less(es[n].key, key)
      invariant n <= |es| && forall i :: 0 <= i < n ==> Less(es[i].key, key)
    {
      n := n + 1;
    }
    forall i | n < i < |es|
      ensures !Less(es[i].key, key)
    {
      assert Less(es[n].key, es[i].key);
    }
  }

  // ------------------------------------------------------------------ any sequence of calls

  method Make(it: MergingIterator, move: Move<InternalKey>) returns (shown: Option<Entry>)
    requires it.WellFormed() && it.Holds()
    modifies it, it.children
    ensures it.Holds() && it.position == Moved(it.merged, KEY_BEFORE, old(it.position), move)
    ensures shown == ElementAt(it.merged, it.position)
  {
    match move {
      case ToFirst => it.SeekToFirst();
      case ToLast => it.SeekToLast();
      case SeekTo(target) =>
        it.Seek(target);
        PlaceIsUnique(it.merged, KEY_BEFORE, target, it.position);
      case ToNext =>
        if it.Valid() {
          it.Next();
        }
      case ToPrev =>
        if it.Valid() {
          it.Prev();
        }
    }
    shown := if it.Valid() then Some(Entry(it.Key(), it.Value())) else None;
  }

  /** Whatever calls are made, in whatever order, the entries shown are those a plain cursor over the
      sorted union would show. */
  method Drive(it: MergingIterator, moves: seq<Move<InternalKey>>) returns (shown: seq<Option<Entry>>)
    requires it.WellFormed() && it.Holds() && it.position == |it.merged|
    modifies it, it.children
    ensures shown == Trace(it.merged, KEY_BEFORE, |it.merged|, moves)
  {
    hide MergingIterator.CurrentIs, MergingIterator.Frontier, MergingIterator.BackFrontier,
         MergingIterator.SortedUnion;
    shown := [];
    for i := 0 to |moves|
      invariant it.Holds()
      invariant shown + Trace(it.merged, KEY_BEFORE, it.position, moves[i..])
                == Trace(it.merged, KEY_BEFORE, |it.merged|, moves)
    {
      assert moves[i..][0] == moves[i] && moves[i..][1..] == moves[i + 1..];
      var next := Make(it, moves[i]);
      shown := shown + [next];
    }
  }
}
