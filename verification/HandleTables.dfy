/** The cache's chained hash table.  A bucket's chain is a sequence of slots; a chain pointer is a
    position in it. */
module HandleTables {
  import opened Options

  type Key = seq<int>

  /** Entries are found by key and hash together; the hash may be any function of the key. */
  datatype Name = Name(key: Key, hash: nat)

  datatype Slot = Slot(name: Name, handle: nat)

  type Bucket = seq<Slot>

  ghost predicate Has(bucket: Bucket, name: Name) {
    exists k :: 0 <= k < |bucket| && bucket[k].name == name
  }

  /** The chain at bucket b of n holds exactly the entries whose hash falls there, each once. */
  ghost predicate BucketHolds(bucket: Bucket, b: nat, n: nat, contents: map<Name, nat>)
    requires n > 0
  {
    && (forall k :: 0 <= k < |bucket| ==>
          bucket[k].name.hash % n == b && bucket[k].name in contents && contents[bucket[k].name] == bucket[k].handle)
    && (forall j, k :: 0 <= j < k < |bucket| ==> bucket[j].name != bucket[k].name)
    && (forall name :: name in contents && name.hash % n == b ==> Has(bucket, name))
  }

  ghost predicate Filed(buckets: seq<Bucket>, contents: map<Name, nat>) {
    && |buckets| > 0
    && forall b :: 0 <= b < |buckets| ==> BucketHolds(buckets[b], b, |buckets|, contents)
  }

  /** Changing one chain, and the contents only where they fall in it. */
  lemma Refile(buckets: seq<Bucket>, contents: map<Name, nat>, b: nat, bucket: Bucket, contents': map<Name, nat>)
    requires Filed(buckets, contents) && b < |buckets| && BucketHolds(bucket, b, |buckets|, contents')
    requires forall name: Name :: name.hash % |buckets| != b ==>
               (name in contents' <==> name in contents) && (name in contents ==> contents'[name] == contents[name])
    ensures Filed(buckets[b := bucket], contents')
  {
    forall c | 0 <= c < |buckets| && c != b
      ensures BucketHolds(buckets[c], c, |buckets|, contents')
    {
      assert BucketHolds(buckets[c], c, |buckets|, contents);
    }
  }

  lemma PutFront(bucket: Bucket, b: nat, n: nat, contents: map<Name, nat>, slot: Slot)
    requires n > 0 && BucketHolds(bucket, b, n, contents) && slot.name !in contents && slot.name.hash % n == b
    ensures BucketHolds([slot] + bucket, b, n, contents[slot.name := slot.handle])
  {
    var longer := [slot] + bucket;
    forall name | name in contents[slot.name := slot.handle] && name.hash % n == b
      ensures Has(longer, name)
    {
      if name == slot.name {
        assert longer[0].name == name;
      } else {
        var k :| 0 <= k < |bucket| && bucket[k].name == name;
        assert longer[k + 1].name == name;
      }
    }
  }

  lemma PutBack(bucket: Bucket, b: nat, n: nat, contents: map<Name, nat>, slot: Slot)
    requires n > 0 && BucketHolds(bucket, b, n, contents) && slot.name !in contents && slot.name.hash % n == b
    ensures BucketHolds(bucket + [slot], b, n, contents[slot.name := slot.handle])
  {
    var longer := bucket + [slot];
    forall name | name in contents[slot.name := slot.handle] && name.hash % n == b
      ensures Has(longer, name)
    {
      if name == slot.name {
        assert longer[|bucket|].name == name;
      } else {
        var k :| 0 <= k < |bucket| && bucket[k].name == name;
        assert longer[k].name == name;
      }
    }
  }

  lemma PutOver(bucket: Bucket, b: nat, n: nat, contents: map<Name, nat>, p: nat, slot: Slot)
    requires n > 0 && BucketHolds(bucket, b, n, contents) && p < |bucket| && bucket[p].name == slot.name
    ensures BucketHolds(bucket[p := slot], b, n, contents[slot.name := slot.handle])
  {
    var changed := bucket[p := slot];
    forall name | name in contents[slot.name := slot.handle] && name.hash % n == b
      ensures Has(changed, name)
    {
      if name == slot.name {
        assert changed[p].name == name;
      } else {
        assert Has(bucket, name);
        var k :| 0 <= k < |bucket| && bucket[k].name == name;
        assert changed[k].name == name;
      }
    }
  }

  lemma TakeOut(bucket: Bucket, b: nat, n: nat, contents: map<Name, nat>, p: nat)
    requires n > 0 && BucketHolds(bucket, b, n, contents) && p < |bucket|
    ensures BucketHolds(bucket[..p] + bucket[p + 1..], b, n, contents - {bucket[p].name})
  {
    var shorter := bucket[..p] + bucket[p + 1..];
    assert forall k :: 0 <= k < |shorter| ==> shorter[k] == bucket[if k < p then k else k + 1];
    forall name | name in contents - {bucket[p].name} && name.hash % n == b
      ensures Has(shorter, name)
    {
      var k :| 0 <= k < |bucket| && bucket[k].name == name;
      assert shorter[if k < p then k else k - 1].name == name;
    }
  }

  class HandleTable {
    var elems: nat
    var list: seq<Bucket>
    /** What the table stores. */
    ghost var contents: map<Name, nat>

    ghost predicate Stored()
      reads this
    {
      Filed(list, contents) && elems == |contents|
    }

    /** There is at least a bucket an entry. */
    ghost predicate Valid()
      reads this
    {
      Stored() && elems <= |list|
    }

    constructor ()
      ensures Valid() && contents == map[]
    {
      elems, list, contents := 0, [[], [], [], []], map[];
    }

    /** The position in its chain of the entry with this name, or the end of the chain. */
    method FindPointer(name: Name) returns (b: nat, p: nat)
      requires Valid()
      ensures b < |list| && b == name.hash % |list| && p <= |list[b]|
      ensures p < |list[b]| <==> name in contents
      ensures p < |list[b]| ==> list[b][p] == Slot(name, contents[name])
    {
      b, p := name.hash % |list|, 0;
      assert BucketHolds(list[b], b, |list|, contents);
      while p < |list[b]| && list[b][p].name != name
        invariant p <= |list[b]| && forall k :: 0 <= k < p ==> list[b][k].name != name
      {
        p := p + 1;
      }
      assert name in contents ==> Has(list[b], name);
    }

    method Lookup(name: Name) returns (found: Option<nat>)
      requires Valid()
      ensures found == if name in contents then Some(contents[name]) else None
    {
      var b, p := FindPointer(name);
      found := if p < |list[b]| then Some(list[b][p].handle) else None;
    }

    /** Replaces an entry of the same name in place, and hands it back. */
    method Insert(slot: Slot) returns (old_: Option<nat>)
      requires Valid()
      modifies this
      ensures Valid() && contents == old(contents)[slot.name := slot.handle]
      ensures old_ == if slot.name in old(contents) then Some(old(contents)[slot.name]) else None
    {
      var b, p := FindPointer(slot.name);
      assert BucketHolds(list[b], b, |list|, contents);
      ghost var contents' := contents[slot.name := slot.handle];
      if p < |list[b]| {
        old_ := Some(list[b][p].handle);
        PutOver(list[b], b, |list|, contents, p, slot);
        Refile(list, contents, b, list[b][p := slot], contents');
        list := list[b := list[b][p := slot]];
        assert contents'.Keys == contents.Keys;
        assert |contents'| == |contents'.Keys| && |contents| == |contents.Keys|;
        contents := contents';
      } else {
        old_ := None;
        PutBack(list[b], b, |list|, contents, slot);
        Refile(list, contents, b, list[b] + [slot], contents');
        list := list[b := list[b] + [slot]];
        contents := contents';
        elems := elems + 1;
        if elems > |list| {
          Resize();
        }
      }
    }

    method Remove(name: Name) returns (removed: Option<nat>)
      requires Valid()
      modifies this
      ensures Valid() && contents == old(contents) - {name}
      ensures removed == if name in old(contents) then Some(old(contents)[name]) else None
    {
      var b, p := FindPointer(name);
      assert BucketHolds(list[b], b, |list|, contents);
      removed := None;
      if p < |list[b]| {
        removed := Some(list[b][p].handle);
        TakeOut(list[b], b, |list|, contents, p);
        Refile(list, contents, b, list[b][..p] + list[b][p + 1..], contents - {name});
        list := list[b := list[b][..p] + list[b][p + 1..]];
        assert contents.Keys == (contents - {name}).Keys + {name};
        assert |contents.Keys| == |(contents - {name}).Keys| + 1;
        contents := contents - {name};
        elems := elems - 1;
      } else {
        assert contents - {name} == contents;
      }
    }

    /** Everything up to position j of bucket i has been moved, and nothing after. */
    ghost predicate Moved(i: nat, j: nat, moved: map<Name, nat>)
      reads this
    {
      && (forall name :: name in moved ==> name in contents && moved[name] == contents[name])
      && (forall b, k :: 0 <= b < |list| && 0 <= k < |list[b]| ==>
           (list[b][k].name in moved <==> b < i || (b == i && k < j)))
    }

    lemma MoveOne(i: nat, j: nat, moved: map<Name, nat>)
      requires Stored() && i < |list| && j < |list[i]| && Moved(i, j, moved)
      ensures list[i][j].name !in moved
      ensures Moved(i, j + 1, moved[list[i][j].name := list[i][j].handle])
    {
      forall b, k | 0 <= b < |list| && 0 <= k < |list[b]|
        ensures list[b][k].name == list[i][j].name <==> b == i && k == j
      {
        assert BucketHolds(list[b], b, |list|, contents) && BucketHolds(list[i], i, |list|, contents);
      }
      assert BucketHolds(list[i], i, |list|, contents);
    }

    lemma MovedAll(moved: map<Name, nat>)
      requires Stored() && Moved(|list|, 0, moved)
      ensures moved == contents
    {
      forall name | name in contents
        ensures name in moved
      {
        var b := name.hash % |list|;
        assert BucketHolds(list[b], b, |list|, contents);
        var k :| 0 <= k < |list[b]| && list[b][k].name == name;
      }
    }

    /** Chains every entry anew, each at the front of its chain; nothing is lost or doubled. */
    method Rechain(newLength: nat) returns (newList: seq<Bucket>, count: nat)
      requires Stored() && newLength > 0
      ensures |newList| == newLength && Filed(newList, contents) && count == elems
    {
      hide Filed;
      newList, count := EmptyChains(newLength), 0;
      ghost var moved: map<Name, nat> := map[];
      for i := 0 to |list|
        invariant |newList| == newLength && Filed(newList, moved) && Moved(i, 0, moved) && count == |moved|
      {
        for j := 0 to |list[i]|
          invariant |newList| == newLength && Filed(newList, moved) && Moved(i, j, moved) && count == |moved|
        {
          MoveOne(i, j, moved);
          newList, moved := Push(newList, moved, list[i][j]);
          count := count + 1;
        }
        NextBucket(i, moved);
      }
      MovedAll(moved);
    }

    lemma NextBucket(i: nat, moved: map<Name, nat>)
      requires i < |list| && Moved(i, |list[i]|, moved)
      ensures Moved(i + 1, 0, moved)
    {
    }

    method Resize()
      requires Stored()
      modifies this
      ensures Valid() && contents == old(contents) && elems == old(elems)
      ensures |list| >= 4 && elems <= |list| && (|list| > 4 ==> |list| < 2 * elems)
    {
      var newLength := 4;
      while newLength < elems
        invariant newLength >= 4 && (newLength > 4 ==> newLength < 2 * elems)
        decreases elems - newLength
      {
        newLength := newLength * 2;
      }
      var newList, count := Rechain(newLength);
      list := newList;
    }
  }

  function EmptyChains(n: nat): (list: seq<Bucket>)
    requires n > 0
    ensures |list| == n && Filed(list, map[])
  {
    seq(n, _ => [])
  }

  method Push(list: seq<Bucket>, ghost moved: map<Name, nat>, h: Slot)
      returns (longer: seq<Bucket>, ghost moved': map<Name, nat>)
    requires Filed(list, moved) && h.name !in moved
    ensures |longer| == |list| && Filed(longer, moved') && moved' == moved[h.name := h.handle]
            && |moved'| == |moved| + 1
  {
    var b := h.name.hash % |list|;
    assert BucketHolds(list[b], b, |list|, moved);
    PutFront(list[b], b, |list|, moved, h);
    Refile(list, moved, b, [h] + list[b], moved[h.name := h.handle]);
    longer := list[b := [h] + list[b]];
    moved' := moved[h.name := h.handle];
  }
}
