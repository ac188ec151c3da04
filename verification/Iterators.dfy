/** The iterator interface over internal entries: a position in a sorted sequence, or none. */
module Iterators {
  import opened InternalKeys

  /** Where a key falls in a sorted sequence. */
  predicate IsLowerBound(es: seq<Entry>, key: InternalKey, index: nat) {
    && index <= |es|
    && (forall i :: 0 <= i < index ==> Less(es[i].key, key))
    && (forall i :: index <= i < |es| ==> !Less(es[i].key, key))
  }

  const KEY_BEFORE: (Entry, InternalKey) -> bool := (e: Entry, key: InternalKey) => Less(e.key, key)

  /** An iterator over a sorted run of entries.  It is invalid when `index` is past the end, which
      is also where stepping back from the first entry leads. */
  class EntryIterator {
    const es: seq<Entry>
    var index: nat

    constructor (es: seq<Entry>)
      ensures this.es == es && index == |es|
    {
      this.es := es;
      index := |es|;
    }

    predicate Valid()
      reads this
    {
      index < |es|
    }

    function Key(): InternalKey
      requires Valid()
      reads this
    {
      es[index].key
    }

    function Value(): seq<Byte>
      requires Valid()
      reads this
    {
      es[index].value
    }

    method SeekToFirst()
      modifies this
      ensures index == 0
    {
      index := 0;
    }

    method SeekToLast()
      modifies this
      ensures index == if es == [] then 0 else |es| - 1
    {
      index := if es == [] then 0 else |es| - 1;
    }

    method Seek(key: InternalKey)
      requires Sorted(es)
      modifies this
      ensures IsLowerBound(es, key, index)
    {
      index := 0;
      while index < |es| && Less(es[index].key, key)
        invariant index <= |es|
        invariant forall i :: 0 <= i < index ==> Less(es[i].key, key)
      {
        index := index + 1;
      }
      forall i | index < i < |es|
        ensures !Less(es[i].key, key)
      {
        assert Less(es[index].key, es[i].key);
      }
    }

    method Next()
      requires Valid()
      modifies this
      ensures index == old(index) + 1
    {
      index := index + 1;
    }

    method Prev()
      requires Valid()
      modifies this
      ensures index == if old(index) == 0 then |es| else old(index) - 1
    {
      index := if index == 0 then |es| else index - 1;
    }
  }
}
