/** The two-level iterator: an index over blocks, each block a sorted run, walked as one. */
module TwoLevel {
  import opened Options
  import opened InternalKeys
  import opened Iterators
  import opened Cursors

  function Flat(blocks: seq<seq<Entry>>): seq<Entry> {
    if blocks == [] then [] else Flat(blocks[..|blocks| - 1]) + blocks[|blocks| - 1]
  }

  /** Where block b begins in the concatenation. */
  ghost function Offset(blocks: seq<seq<Entry>>, b: nat): nat
    requires b <= |blocks|
  {
    |Flat(blocks[..b])|
  }

  lemma OffsetStep(blocks: seq<seq<Entry>>, b: nat)
    requires b < |blocks|
    ensures Offset(blocks, b + 1) == Offset(blocks, b) + |blocks[b]|
    ensures Offset(blocks, 0) == 0 && Offset(blocks, |blocks|) == |Flat(blocks)|
  {
    assert blocks[..b + 1][..b] == blocks[..b];
    assert blocks[..|blocks|] == blocks;
  }

  lemma {:induction false} FlatAt(blocks: seq<seq<Entry>>, b: nat, k: nat)
    requires b < |blocks| && k < |blocks[b]|
    ensures Offset(blocks, b) + k < |Flat(blocks)|
    ensures Flat(blocks)[Offset(blocks, b) + k] == blocks[b][k]
  {
    var front := blocks[..|blocks| - 1];
    if b < |front| {
      FlatAt(front, b, k);
      assert front[..b] == blocks[..b];
    } else {
      assert front == blocks[..b];
    }
  }

  lemma {:induction false} FlatSplit(blocks: seq<seq<Entry>>, p: nat) returns (b: nat, k: nat)
    requires p < |Flat(blocks)|
    ensures b < |blocks| && k < |blocks[b]| && p == Offset(blocks, b) + k
    ensures Flat(blocks)[p] == blocks[b][k]
  {
    var front := blocks[..|blocks| - 1];
    if p < |Flat(front)| {
      b, k := FlatSplit(front, p);
      assert front[..b] == blocks[..b];
    } else {
      b, k := |blocks| - 1, p - |Flat(front)|;
    }
  }

  /** Index keys separate the blocks: at or after everything in their block, before everything in
      later blocks. */
  ghost predicate Separates(index: seq<Entry>, blocks: seq<seq<Entry>>) {
    && |index| == |blocks|
    && Sorted(index)
    && (forall b :: 0 <= b < |blocks| ==> Sorted(blocks[b]))
    && (forall b, k :: 0 <= b < |blocks| && 0 <= k < |blocks[b]| ==> !Less(index[b].key, blocks[b][k].key))
    && (forall b, c, k :: 0 <= b < c < |blocks| && 0 <= k < |blocks[c]| ==> Less(index[b].key, blocks[c][k].key))
  }

  lemma FlatIsSorted(index: seq<Entry>, blocks: seq<seq<Entry>>)
    requires Separates(index, blocks)
    ensures Sorted(Flat(blocks))
  {
    forall p, q | 0 <= p < q < |Flat(blocks)|
      ensures Less(Flat(blocks)[p].key, Flat(blocks)[q].key)
    {
      var b, j := FlatSplit(blocks, p);
      var c, k := FlatSplit(blocks, q);
      OffsetOrder(blocks, b, c);
      OffsetOrder(blocks, c, b);
      if b < c {
        assert Less(index[b].key, blocks[c][k].key);
        assert !Less(index[b].key, blocks[b][j].key);
      } else {
        assert b == c && j < k;
      }
    }
  }

  lemma {:induction false} OffsetOrder(blocks: seq<seq<Entry>>, b: nat, c: nat)
    requires b <= |blocks| && c <= |blocks|
    ensures b < c ==> Offset(blocks, b) + |blocks[b]| <= Offset(blocks, c)
    decreases c
  {
    if b < c {
      OffsetStep(blocks, c - 1);
      if b < c - 1 {
        OffsetOrder(blocks, b, c - 1);
      }
    }
  }

  class TwoLevelIterator {
    const index: EntryIterator
    const blocks: seq<seq<Entry>>
    var data: Option<EntryIterator>
    /** The handle that the data iterator was made from. */
    var dataBlock: nat

    constructor (index: EntryIterator, blocks: seq<seq<Entry>>)
      requires Separates(index.es, blocks) && index.index <= |blocks|
      ensures this.index == index && this.blocks == blocks
      ensures Holds(|Flat(blocks)|)
    {
      this.index, this.blocks, this.data, this.dataBlock := index, blocks, None, 0;
    }

    ghost function Frame(): set<object>
      reads this
    {
      {this, index} + if data.Some? then {data.value} else {}
    }

    /** A data iterator, if there is one, walks the block the index stands at. */
    ghost predicate Linked()
      reads this, Frame()
    {
      && Separates(index.es, blocks) && index.index <= |blocks|
      && (data.Some? ==>
            && data.value != index && dataBlock < |blocks| && data.value.es == blocks[dataBlock]
            && data.value.index <= |data.value.es|
            && index.Valid() && index.index == dataBlock)
    }

    predicate Valid()
      reads this, Frame()
    {
      data.Some? && data.value.Valid()
    }

    /** The iterator stands at place p of the concatenation, or nowhere if p is its length. */
    ghost predicate Holds(p: nat)
      reads this, Frame()
    {
      && Linked() && p <= |Flat(blocks)|
      && (Valid() <==> p < |Flat(blocks)|)
      && (Valid() ==> p == Offset(blocks, dataBlock) + data.value.index)
    }

    function Current(): Entry
      requires Valid()
      reads this, Frame()
    {
      data.value.es[data.value.index]
    }

    lemma ShowsEntry(p: nat)
      requires Holds(p) && Valid()
      ensures Current() == Flat(blocks)[p]
    {
      FlatAt(blocks, dataBlock, data.value.index);
    }

    /** Makes the data iterator match the index, unless it already does. */
    method InitDataBlock()
      requires Separates(index.es, blocks) && index.index <= |blocks|
      requires data.Some? ==> data.value != index && dataBlock < |blocks| && data.value.es == blocks[dataBlock]
                              && data.value.index <= |data.value.es|
      modifies this
      ensures Linked() && (data.Some? <==> index.Valid())
      ensures data.Some? ==> data == old(data) || fresh(data.value)
    {
      if !index.Valid() {
        data := None;
      } else {
        var handle := index.index;
        if data.Some? && handle == dataBlock {
          // The data iterator is already made for this block
        } else {
          var iter := new EntryIterator(blocks[handle]);
          dataBlock := handle;
          data := Some(iter);
        }
      }
    }

    /** Skips to the first entry of a later block when the current one is used up. */
    method SkipEmptyDataBlocksForward(ghost p: nat)
      requires Linked() && p <= |Flat(blocks)|
      requires if data.Some? then p == Offset(blocks, dataBlock) + data.value.index
               else !index.Valid() && p == |Flat(blocks)|
      modifies Frame()
      ensures Holds(p) && (data.Some? ==> data == old(data) || fresh(data.value))
    {
      hide Sorted, Flat, Offset;
      if data.Some? {
        EndOfBlock(data.value.index, p);
      }
      while data.None? || !data.value.Valid()
        invariant Linked() && p <= |Flat(blocks)|
        invariant if data.Some? then p == Offset(blocks, dataBlock) + data.value.index
                  && (data.value.Valid() ==> p < |Flat(blocks)|)
                  else !index.Valid() && p == |Flat(blocks)|
        invariant data.Some? ==> data == old(data) || fresh(data.value)
        decreases |blocks| - index.index, data.Some?
      {
        if !index.Valid() {
          data := None;
          return;
        }
        OffsetStep(blocks, index.index);
        index.Next();
        InitDataBlock();
        if data.Some? {
          data.value.SeekToFirst();
          EndOfBlock(0, p);
        }
      }
    }

    lemma EndOfBlock(k: nat, p: nat)
      requires Linked() && data.Some? && p == Offset(blocks, dataBlock) + k
      ensures k < |data.value.es| ==> p < |Flat(blocks)|
    {
      if k < |data.value.es| {
        FlatAt(blocks, dataBlock, k);
      }
    }

    /** Skips back to the last entry of an earlier block; p counts the entries before the place the
        iterator has left. */
    method SkipEmptyDataBlocksBackward(ghost p: nat)
      requires Linked() && p <= |Flat(blocks)|
      requires if data.Some?
               then if data.value.Valid() then p == Offset(blocks, dataBlock) + data.value.index + 1
                 else p == Offset(blocks, dataBlock)
               else !index.Valid() && p == 0
      modifies Frame()
      ensures Holds(if p == 0 then |Flat(blocks)| else p - 1)
      ensures data.Some? ==> data == old(data) || fresh(data.value)
    {
      hide Sorted, Flat, Offset;
      if data.Some? && data.value.Valid() {
        EndOfBlock(data.value.index, p - 1);
      }
      while data.None? || !data.value.Valid()
        invariant Linked() && p <= |Flat(blocks)|
        invariant if data.Some?
                  then if data.value.Valid() then p == Offset(blocks, dataBlock) + data.value.index + 1
                    else p == Offset(blocks, dataBlock)
                  else !index.Valid() && p == 0
        invariant data.Some? ==> data == old(data) || fresh(data.value)
        decreases if index.Valid() then index.index + 1 else 0, data.Some?
      {
        if !index.Valid() {
          data := None;
          return;
        }
        OffsetStep(blocks, if index.index > 0 then index.index - 1 else 0);
        index.Prev();
        InitDataBlock();
        if data.Some? {
          data.value.SeekToLast();
        }
      }
      FlatAt(blocks, dataBlock, data.value.index);
    }

    method Seek(target: InternalKey) returns (ghost p: nat)
      requires Linked()
      modifies Frame()
      ensures IsLowerBound(Flat(blocks), target, p) && Holds(p)
      ensures data.Some? ==> data == old(data) || fresh(data.value)
    {
      index.Seek(target);
      InitDataBlock();
      if data.Some? {
        data.value.Seek(target);
        p := Offset(blocks, dataBlock) + data.value.index;
        OffsetStep(blocks, dataBlock);
        OffsetOrder(blocks, dataBlock + 1, |blocks|);
        LowerBoundInBlock(dataBlock, data.value.index, target);
      } else {
        p := |Flat(blocks)|;
        LowerBoundPastEnd(target);
      }
      SkipEmptyDataBlocksForward(p);
    }

    lemma LowerBoundInBlock(b: nat, k: nat, target: InternalKey)
      requires Separates(index.es, blocks) && b < |blocks| && k <= |blocks[b]|
      requires IsLowerBound(index.es, target, b) && IsLowerBound(blocks[b], target, k)
      requires Offset(blocks, b) + k <= |Flat(blocks)|
      ensures IsLowerBound(Flat(blocks), target, Offset(blocks, b) + k)
    {
      forall q | 0 <= q < |Flat(blocks)|
        ensures q < Offset(blocks, b) + k <==> Less(Flat(blocks)[q].key, target)
      {
        var c, j := FlatSplit(blocks, q);
        OffsetOrder(blocks, c, b);
        OffsetOrder(blocks, b, c);
        if c < b {
          assert Less(index.es[c].key, target);
          assert !Less(index.es[c].key, blocks[c][j].key);
        } else if b < c {
          assert !Less(index.es[b].key, target);
          assert Less(index.es[b].key, blocks[c][j].key);
        }
      }
    }

    lemma LowerBoundPastEnd(target: InternalKey)
      requires Separates(index.es, blocks) && IsLowerBound(index.es, target, |blocks|)
      ensures IsLowerBound(Flat(blocks), target, |Flat(blocks)|)
    {
      forall q | 0 <= q < |Flat(blocks)|
        ensures Less(Flat(blocks)[q].key, target)
      {
        var c, j := FlatSplit(blocks, q);
        assert Less(index.es[c].key, target);
        assert !Less(index.es[c].key, blocks[c][j].key);
      }
    }

    method SeekToFirst()
      requires Linked()
      modifies Frame()
      ensures Holds(0) && (data.Some? ==> data == old(data) || fresh(data.value))
    {
      index.SeekToFirst();
      InitDataBlock();
      if data.Some? {
        data.value.SeekToFirst();
        OffsetStep(blocks, 0);
      }
      SkipEmptyDataBlocksForward(0);
    }

    method SeekToLast()
      requires Linked()
      modifies Frame()
      ensures Holds(if |Flat(blocks)| == 0 then 0 else |Flat(blocks)| - 1)
      ensures data.Some? ==> data == old(data) || fresh(data.value)
    {
      index.SeekToLast();
      InitDataBlock();
      if data.Some? {
        data.value.SeekToLast();
        OffsetStep(blocks, |blocks| - 1);
      }
      SkipEmptyDataBlocksBackward(|Flat(blocks)|);
    }

    method Next(ghost p: nat)
      requires Holds(p) && Valid()
      modifies Frame()
      ensures Holds(p + 1) && (data.Some? ==> data == old(data) || fresh(data.value))
    {
      data.value.Next();
      SkipEmptyDataBlocksForward(p + 1);
    }

    method Prev(ghost p: nat)
      requires Holds(p) && Valid()
      modifies Frame()
      ensures Holds(if p == 0 then |Flat(blocks)| else p - 1)
      ensures data.Some? ==> data == old(data) || fresh(data.value)
    {
      data.value.Prev();
      SkipEmptyDataBlocksBackward(p);
    }
  }

  /** From the first entry to the last. */
  method WalkAll(index: seq<Entry>, blocks: seq<seq<Entry>>) returns (run: seq<Entry>)
    requires Separates(index, blocks)
    ensures run == Flat(blocks)
  {
    hide Separates, Flat, Offset, TwoLevelIterator.Linked;
    var it := NewTwoLevel(index, blocks);
    ghost var all, p := Flat(blocks), 0;
    it.SeekToFirst();
    run := [];
    while it.Valid()
      invariant it.Holds(p) && it.blocks == blocks && run == all[..p] && fresh(it.Frame())
      decreases |all| - p
    {
      it.ShowsEntry(p);
      run := run + [it.Current()];
      it.Next(p);
      p := p + 1;
    }
    assert all[..|all|] == all;
  }

  method NewTwoLevel(index: seq<Entry>, blocks: seq<seq<Entry>>) returns (it: TwoLevelIterator)
    requires Separates(index, blocks)
    ensures fresh(it.Frame()) && it.blocks == blocks && it.Holds(|Flat(blocks)|)
  {
    hide Flat;
    var inner := new EntryIterator(index);
    it := new TwoLevelIterator(inner, blocks);
  }

  // ------------------------------------------------------------------ any sequence of calls

  method Make(it: TwoLevelIterator, move: Move<InternalKey>, ghost p: nat) returns (shown: Option<Entry>)
    requires it.Holds(p)
    modifies it.Frame()
    ensures fresh(it.Frame() - old(it.Frame()))
    ensures var p' := Moved(Flat(it.blocks), KEY_BEFORE, p, move);
            it.Holds(p') && shown == ElementAt(Flat(it.blocks), p')
  {
    ghost var p' := Moved(Flat(it.blocks), KEY_BEFORE, p, move);
    match move {
      case ToFirst => it.SeekToFirst();
      case ToLast => it.SeekToLast();
      case SeekTo(target) =>
        ghost var found;
        found := it.Seek(target);
        PlaceIsUnique(Flat(it.blocks), KEY_BEFORE, target, found);
      case ToNext =>
        if it.Valid() {
          it.Next(p);
        }
      case ToPrev =>
        if it.Valid() {
          it.Prev(p);
        }
    }
    if it.Valid() {
      it.ShowsEntry(p');
      shown := Some(it.Current());
    } else {
      shown := None;
    }
  }

  /** Whatever calls are made, in whatever order, the entries shown are those a plain cursor over the
      concatenation of the blocks would show. */
  method Drive(it: TwoLevelIterator, moves: seq<Move<InternalKey>>) returns (shown: seq<Option<Entry>>)
    requires it.Holds(|Flat(it.blocks)|)
    modifies it.Frame()
    ensures shown == Trace(Flat(it.blocks), KEY_BEFORE, |Flat(it.blocks)|, moves)
  {
    shown := [];
    ghost var p: nat := |Flat(it.blocks)|;
    for i := 0 to |moves|
      invariant it.Holds(p) && fresh(it.Frame() - old(it.Frame()))
      invariant shown + Trace(Flat(it.blocks), KEY_BEFORE, p, moves[i..])
                == Trace(Flat(it.blocks), KEY_BEFORE, |Flat(it.blocks)|, moves)
    {
      assert moves[i..][0] == moves[i] && moves[i..][1..] == moves[i + 1..];
      var next := Make(it, moves[i], p);
      p := Moved(Flat(it.blocks), KEY_BEFORE, p, moves[i]);
      shown := shown + [next];
    }
  }
}
