/** What the LRU cache's operations do to its contents, its two lists and its reference counts. */
module CacheStates {
  import opened Options
  import opened HandleTables

  /** The part of a handle that never changes. */
  datatype Item = Item(name: Name, value: int, charge: nat)

  /** Handles are numbered as they are allocated; the first two numbers are the list heads.
      `clients` counts the references clients hold; `deleted` lists the handles whose deleter has
      run, in that order. */
  datatype Cache = Cache(
    capacity: nat, usage: nat,
    items: seq<Item>, refs: seq<nat>, cached: seq<bool>, clients: seq<nat>,
    lru: seq<nat>, inUse: seq<nat>,
    contents: map<Name, nat>,
    deleted: seq<nat>)

  const FIRST: nat := 2

  // ------------------------------------------------------------------ lists of handles

  ghost predicate Distinct(s: seq<nat>) {
    forall i, j :: 0 <= i < j < |s| ==> s[i] != s[j]
  }

  function Without(s: seq<nat>, e: nat): seq<nat> {
    if s == [] then [] else if s[0] == e then s[1..] else [s[0]] + Without(s[1..], e)
  }

  function Charges(items: seq<Item>, s: seq<nat>): nat {
    if s == [] then 0 else Charges(items, s[1..]) + if s[0] < |items| then items[s[0]].charge else 0
  }

  lemma {:induction false} WithoutMembers(s: seq<nat>, e: nat)
    requires Distinct(s)
    ensures forall h :: h in Without(s, e) <==> h in s && h != e
    ensures Distinct(Without(s, e))
    ensures |Without(s, e)| == |s| - if e in s then 1 else 0
  {
    if s != [] {
      WithoutMembers(s[1..], e);
      assert s == [s[0]] + s[1..];
      assert forall h :: h in s[1..] ==> h != s[0];
      DistinctCons(s[0], Without(s[1..], e));
    }
  }

  lemma DistinctAppend(s: seq<nat>, e: nat)
    requires Distinct(s) && e !in s
    ensures Distinct(s + [e])
  {
    assert forall i :: 0 <= i < |s| ==> s[i] in s;
  }

  lemma DistinctCons(a: nat, s: seq<nat>)
    requires Distinct(s) && a !in s
    ensures Distinct([a] + s)
  {
  }

  lemma {:induction false} WithoutCharges(items: seq<Item>, s: seq<nat>, e: nat)
    ensures Charges(items, s) == Charges(items, Without(s, e)) + if e in s && e < |items| then items[e].charge else 0
  {
    if s != [] && s[0] != e {
      WithoutCharges(items, s[1..], e);
      assert Without(s, e)[1..] == Without(s[1..], e);
    }
  }

  lemma {:induction false} AppendCharges(items: seq<Item>, s: seq<nat>, e: nat)
    ensures Charges(items, s + [e]) == Charges(items, s) + if e < |items| then items[e].charge else 0
  {
    if s == [] {
      assert s + [e] == [e];
    } else {
      AppendCharges(items, s[1..], e);
      assert (s + [e])[1..] == s[1..] + [e];
    }
  }

  lemma {:induction false} MoreItemsSameCharges(items: seq<Item>, more: Item, s: seq<nat>)
    requires forall h :: h in s ==> h < |items|
    ensures Charges(items + [more], s) == Charges(items, s)
  {
    if s != [] {
      assert s[0] in s && forall h :: h in s[1..] ==> h in s;
      MoreItemsSameCharges(items, more, s[1..]);
    }
  }

  lemma NotInWithout(s: seq<nat>, e: nat)
    requires e !in s
    ensures Without(s, e) == s
  {
  }

  // ------------------------------------------------------------------ what always holds

  predicate Sized(c: Cache) {
    FIRST <= |c.items| == |c.refs| == |c.cached| == |c.clients|
  }

  ghost predicate InTable(c: Cache, h: nat)
    requires h < |c.items|
  {
    c.items[h].name in c.contents && c.contents[c.items[h].name] == h
  }

  /** A handle's references are its clients' and the cache's own.  The cache holds it while the table
      does, except a handle just taken out of the table.  A cached handle is on the LRU list when
      only the cache refers to it and on the in-use list otherwise, and its deleter has run exactly
      when no reference is left. */
  ghost predicate HandleHolds(c: Cache, h: nat, removed: Option<nat>)
    requires Sized(c) && h < |c.items|
  {
    && c.refs[h] == c.clients[h] + (if c.cached[h] then 1 else 0)
    && (h in c.lru <==> c.cached[h] && c.refs[h] == 1)
    && (h in c.inUse <==> c.cached[h] && c.refs[h] >= 2)
    && (c.cached[h] <==> InTable(c, h) || removed == Some(h))
    && (InTable(c, h) ==> removed != Some(h))
    && (h in c.deleted <==> c.refs[h] == 0)
  }

  ghost predicate InRange(s: seq<nat>, n: nat) {
    forall h :: h in s ==> FIRST <= h < n
  }

  ghost predicate Holds(c: Cache, removed: Option<nat>) {
    && Sized(c)
    && InRange(c.lru, |c.items|) && InRange(c.inUse, |c.items|) && InRange(c.deleted, |c.items|)
    && Distinct(c.lru) && Distinct(c.inUse) && Distinct(c.deleted)
    && (removed.Some? ==> FIRST <= removed.value < |c.items|)
    && (forall h :: FIRST <= h < |c.items| ==> HandleHolds(c, h, removed))
    && (forall name :: name in c.contents ==> FIRST <= c.contents[name] < |c.items|
                                              && c.items[c.contents[name]].name == name)
    && c.usage == Charges(c.items, c.lru) + Charges(c.items, c.inUse)
  }

  // ------------------------------------------------------------------ the operations

  predicate Known(c: Cache, e: nat) {
    Sized(c) && FIRST <= e < |c.items|
  }

  /** A client takes a reference. */
  function Ref(c: Cache, e: nat): Cache
    requires Known(c, e)
  {
    var moves := c.cached[e] && c.refs[e] == 1;
    c.(refs := c.refs[e := c.refs[e] + 1], clients := c.clients[e := c.clients[e] + 1],
       lru := if moves then Without(c.lru, e) else c.lru,
       inUse := if moves then c.inUse + [e] else c.inUse)
  }

  /** A reference goes; with the last one the deleter runs. */
  function Unref(c: Cache, e: nat): Cache
    requires Known(c, e) && c.refs[e] > 0
  {
    var n := c.refs[e] - 1;
    var less := c.(refs := c.refs[e := n]);
    if n == 0 then less.(deleted := c.deleted + [e])
    else if c.cached[e] && n == 1 then less.(lru := c.lru + [e], inUse := Without(c.inUse, e))
    else less
  }

  function Release(c: Cache, e: nat): Cache
    requires Known(c, e) && c.refs[e] > 0 && c.clients[e] > 0
  {
    Unref(c.(clients := c.clients[e := c.clients[e] - 1]), e)
  }

  /** A handle taken out of the table leaves its list and loses the cache's reference. */
  function FinishErase(c: Cache, e: nat): Cache
    requires Known(c, e) && c.refs[e] > 0 && c.usage >= c.items[e].charge
  {
    Unref(c.(lru := Without(c.lru, e), inUse := Without(c.inUse, e), cached := c.cached[e := false],
      usage := c.usage - c.items[e].charge), e)
  }

  lemma RefHolds(c: Cache, e: nat)
    requires Holds(c, None) && Known(c, e) && c.refs[e] > 0
    ensures Holds(Ref(c, e), None)
  {
    hide Charges;
    var c' := Ref(c, e);
    assert HandleHolds(c, e, None);
    WithoutMembers(c.lru, e);
    WithoutCharges(c.items, c.lru, e);
    AppendCharges(c.items, c.inUse, e);
    hide Without;
    forall h | FIRST <= h < |c.items|
      ensures HandleHolds(c', h, None)
    {
      assert HandleHolds(c, h, None);
    }
  }

  lemma ReleaseHolds(c: Cache, e: nat)
    requires Holds(c, None) && Known(c, e) && c.clients[e] > 0
    ensures c.refs[e] > 0 && Holds(Release(c, e), None)
  {
    hide Charges;
    assert HandleHolds(c, e, None);
    var c' := Release(c, e);
    WithoutMembers(c.inUse, e);
    WithoutCharges(c.items, c.inUse, e);
    AppendCharges(c.items, c.lru, e);
    hide Without;
    forall h | FIRST <= h < |c.items|
      ensures HandleHolds(c', h, None)
    {
      assert HandleHolds(c, h, None);
    }
  }

  lemma FinishEraseHolds(c: Cache, e: nat)
    requires Holds(c, Some(e))
    ensures Known(c, e) && c.refs[e] > 0 && c.usage >= c.items[e].charge
    ensures Holds(FinishErase(c, e), None)
  {
    hide Charges;
    assert HandleHolds(c, e, Some(e));
    WithoutMembers(c.lru, e);
    WithoutMembers(c.inUse, e);
    WithoutCharges(c.items, c.lru, e);
    WithoutCharges(c.items, c.inUse, e);
    hide Without;
    var c' := FinishErase(c, e);
    forall h | FIRST <= h < |c.items|
      ensures HandleHolds(c', h, None)
    {
      assert HandleHolds(c, h, Some(e));
    }
  }

  /** A cached handle is on exactly one list. */
  lemma WhichList(c: Cache, e: nat, removed: Option<nat>)
    requires Holds(c, removed) && Known(c, e)
    ensures Distinct(c.lru) && Distinct(c.inUse)
    ensures c.cached[e] && c.refs[e] == 1 ==> e in c.lru && e !in c.inUse
    ensures c.cached[e] && c.refs[e] >= 2 ==> e in c.inUse && e !in c.lru
    ensures c.cached[e] ==> c.refs[e] >= 1
    ensures removed == Some(e) ==> c.cached[e]
  {
    assert HandleHolds(c, e, removed);
  }

  lemma WithoutDistinct(c: Cache, e: nat)
    requires Distinct(c.lru) && Distinct(c.inUse)
    ensures Distinct(Without(c.lru, e)) && Distinct(Without(c.inUse, e))
  {
    WithoutMembers(c.lru, e);
    WithoutMembers(c.inUse, e);
  }

  lemma NewHandle(c: Cache)
    requires Holds(c, None)
    ensures |c.items| !in c.lru && |c.items| !in c.inUse && |c.items| >= FIRST
  {
  }

  /** Out of the table, and out of the cache. */
  function Erase(c: Cache, name: Name): Cache
    requires name in c.contents ==> Known(c, c.contents[name]) && c.refs[c.contents[name]] > 0
                                    && c.usage >= c.items[c.contents[name]].charge
  {
    if name in c.contents then FinishErase(c.(contents := c.contents - {name}), c.contents[name]) else c
  }

  lemma RemovedHolds(c: Cache, name: Name)
    requires Holds(c, None) && name in c.contents
    ensures Holds(c.(contents := c.contents - {name}), Some(c.contents[name]))
  {
    hide Charges;
    var c' := c.(contents := c.contents - {name});
    var e := c.contents[name];
    forall h | FIRST <= h < |c.items|
      ensures HandleHolds(c', h, Some(e))
    {
      assert HandleHolds(c, h, None);
    }
  }

  lemma EraseReady(c: Cache, name: Name)
    requires Holds(c, None)
    ensures name in c.contents ==> Known(c, c.contents[name]) && c.refs[c.contents[name]] > 0
                                   && c.usage >= c.items[c.contents[name]].charge
  {
    if name in c.contents {
      RemovedHolds(c, name);
      FinishEraseHolds(c.(contents := c.contents - {name}), c.contents[name]);
    }
  }

  lemma EraseHolds(c: Cache, name: Name)
    requires Holds(c, None)
    ensures name in c.contents ==> Known(c, c.contents[name]) && c.refs[c.contents[name]] > 0
                                   && c.usage >= c.items[c.contents[name]].charge
    ensures Holds(Erase(c, name), None)
  {
    if name in c.contents {
      RemovedHolds(c, name);
      FinishEraseHolds(c.(contents := c.contents - {name}), c.contents[name]);
    }
  }

  // ------------------------------------------------------------------ eviction

  /** The oldest unreferenced handle goes. */
  function EvictOldest(c: Cache): Cache
    requires c.lru != [] && Known(c, c.lru[0]) && c.refs[c.lru[0]] > 0 && c.usage >= c.items[c.lru[0]].charge
  {
    FinishErase(c.(contents := c.contents - {c.items[c.lru[0]].name}), c.lru[0])
  }

  lemma OldestHolds(c: Cache)
    requires Holds(c, None) && c.lru != []
    ensures Known(c, c.lru[0]) && c.refs[c.lru[0]] == 1 && c.usage >= c.items[c.lru[0]].charge
    ensures c.items[c.lru[0]].name in c.contents && c.contents[c.items[c.lru[0]].name] == c.lru[0]
    ensures EvictOldest(c) == Erase(c, c.items[c.lru[0]].name)
    ensures Holds(EvictOldest(c), None)
    ensures var c' := EvictOldest(c);
            && c'.lru == c.lru[1..] && c'.inUse == c.inUse && c'.deleted == c.deleted + [c.lru[0]]
            && c'.usage == c.usage - c.items[c.lru[0]].charge
            && c'.items == c.items && c'.clients == c.clients && c'.capacity == c.capacity
            && c'.contents == c.contents - {c.items[c.lru[0]].name}
  {
    var e := c.lru[0];
    assert e in c.lru;
    assert HandleHolds(c, e, None);
    EraseHolds(c, c.items[e].name);
    NotInWithout(c.inUse, e);
  }

  /** Evicts from the oldest on until the usage is within the limit, or nothing is left to evict. */
  function Evict(c: Cache, limit: int): (r: Cache)
    requires Holds(c, None)
    decreases |c.lru|
  {
    if c.usage <= limit || c.lru == [] then c
    else
      OldestHolds(c);
      Evict(EvictOldest(c), limit)
  }

  ghost predicate Evicted(c: Cache, c': Cache, limit: int, n: nat)
    requires n <= |c.lru|
  {
    && c'.items == c.items && c'.inUse == c.inUse && c'.capacity == c.capacity && c'.clients == c.clients
    && (forall name :: name in c'.contents ==> name in c.contents && c'.contents[name] == c.contents[name])
    && c'.lru == c.lru[n..] && c'.deleted == c.deleted + c.lru[..n]
    && (c'.usage <= limit || c'.lru == [])
    && c'.usage + Charges(c.items, c.lru[..n]) == c.usage
    && (n > 0 ==> c.usage - Charges(c.items, c.lru[..n - 1]) > limit)
  }

  /** Eviction takes the oldest handles, no more of them than needed, and runs their deleters in that
      order; handles in use stay. */
  lemma {:induction false} EvictOldestFirst(c: Cache, limit: int) returns (n: nat)
    requires Holds(c, None)
    ensures n <= |c.lru| && Holds(Evict(c, limit), None) && Evicted(c, Evict(c, limit), limit, n)
    decreases |c.lru|
  {
    if c.usage <= limit || c.lru == [] {
      n := 0;
      assert c.lru[..0] == [];
    } else {
      OldestHolds(c);
      hide Holds, EvictOldest;
      var next := EvictOldest(c);
      var m := EvictOldestFirst(next, limit);
      n := m + 1;
      OneMoreEvicted(c, next, Evict(next, limit), limit, m);
    }
  }

  lemma OneMoreEvicted(c: Cache, next: Cache, c': Cache, limit: int, m: nat)
    requires c.lru != [] && next.lru == c.lru[1..] && m <= |next.lru| && Evicted(next, c', limit, m)
    requires next.items == c.items && next.inUse == c.inUse && next.capacity == c.capacity
             && next.deleted == c.deleted + [c.lru[0]]
    requires next.clients == c.clients && c.lru[0] < |c.items| && next.contents == c.contents - {c.items[c.lru[0]].name}
    requires Known(c, c.lru[0]) && next.usage + c.items[c.lru[0]].charge == c.usage && c.usage > limit
    ensures Evicted(c, c', limit, m + 1)
  {
    assert c.lru[..m + 1] == [c.lru[0]] + next.lru[..m];
    assert c.lru[..m + 1][1..] == next.lru[..m];
    assert c.lru[m + 1..] == next.lru[m..];
    if m > 0 {
      assert c.lru[..m] == [c.lru[0]] + next.lru[..m - 1];
      assert c.lru[..m][1..] == next.lru[..m - 1];
    }
  }

  // ------------------------------------------------------------------ insertion

  /** A new handle, referred to by the client alone. */
  function Allocate(c: Cache, item: Item): Cache {
    c.(items := c.items + [item], refs := c.refs + [1], cached := c.cached + [false], clients := c.clients + [1])
  }

  /** A new handle, referred to by the client and the cache, and the table's entry for its name. */
  function Enter(c: Cache, item: Item): Cache {
    c.(items := c.items + [item], refs := c.refs + [2], cached := c.cached + [true], clients := c.clients + [1],
       inUse := c.inUse + [|c.items|], usage := c.usage + item.charge,
       contents := c.contents[item.name := |c.items|])
  }

  lemma AllocateHolds(c: Cache, item: Item)
    requires Holds(c, None)
    ensures Holds(Allocate(c, item), None)
  {
    hide Charges;
    MoreItemsSameCharges(c.items, item, c.lru);
    MoreItemsSameCharges(c.items, item, c.inUse);
    var c' := Allocate(c, item);
    forall h | FIRST <= h < |c'.items|
      ensures HandleHolds(c', h, None)
    {
      if h < |c.items| {
        assert HandleHolds(c, h, None);
      }
    }
  }

  lemma EnterHolds(c: Cache, item: Item)
    requires Holds(c, None)
    ensures Holds(Enter(c, item), if item.name in c.contents then Some(c.contents[item.name]) else None)
  {
    hide Charges;
    MoreItemsSameCharges(c.items, item, c.lru);
    MoreItemsSameCharges(c.items, item, c.inUse);
    AppendCharges(c.items + [item], c.inUse, |c.items|);
    DistinctAppend(c.inUse, |c.items|);
    var c' := Enter(c, item);
    var replaced: Option<nat> := if item.name in c.contents then Some(c.contents[item.name]) else None;
    forall h: nat | FIRST <= h < |c'.items|
      ensures HandleHolds(c', h, replaced)
    {
      if h < |c.items| {
        assert HandleHolds(c, h, None);
      }
    }
  }

  /** The entry an insertion replaces, if any, loses its place. */
  ghost function Replace(c: Cache, item: Item): (r: Cache)
    requires Holds(c, None)
    ensures Holds(r, None)
  {
    EnterHolds(c, item);
    if item.name in c.contents then
      FinishEraseHolds(Enter(c, item), c.contents[item.name]);
      FinishErase(Enter(c, item), c.contents[item.name])
    else Enter(c, item)
  }

  ghost function Insert(c: Cache, item: Item): (r: Cache)
    requires Holds(c, None)
  {
    if c.capacity > 0 then Evict(Replace(c, item), c.capacity)
    else
      AllocateHolds(c, item);
      Evict(Allocate(c, item), c.capacity)
  }

  /** After an insertion the usage is within the capacity, or every cached entry is in use. */
  lemma InsertFits(c: Cache, item: Item)
    requires Holds(c, None)
    ensures var c' := Insert(c, item); Holds(c', None) && (c'.usage <= c.capacity || c'.lru == [])
  {
    AllocateHolds(c, item);
    var n := EvictOldestFirst(if c.capacity > 0 then Replace(c, item) else Allocate(c, item), c.capacity);
  }

  /** The new entry is in use, so it is found under its name until it is erased or replaced; with no
      capacity nothing is ever cached. */
  lemma InsertedIsFound(c: Cache, item: Item)
    requires Holds(c, None)
    ensures var c', e := Insert(c, item), |c.items|;
            && c'.items == c.items + [item] && c'.clients == c.clients + [1]
            && (c.capacity > 0 ==> e in c'.inUse && item.name in c'.contents && c'.contents[item.name] == e)
            && (c.capacity == 0 ==> e !in c'.inUse && e !in c'.lru && forall name :: name in c'.contents ==>
                 c'.contents[name] != e)
  {
    AllocateHolds(c, item);
    var before := if c.capacity > 0 then Replace(c, item) else Allocate(c, item);
    var n := EvictOldestFirst(before, c.capacity);
    var c' := Insert(c, item);
    var e := |c.items|;
    if c.capacity > 0 {
      ReplaceKeeps(c, item);
      assert HandleHolds(c', e, None);
    } else {
      assert forall h :: h in c.lru[n..] ==> h in c.lru;
    }
    hide Evict;
  }

  lemma ReplaceKeeps(c: Cache, item: Item)
    requires Holds(c, None)
    ensures var r := Replace(c, item); r.items == c.items + [item] && r.clients == c.clients + [1]
                                       && r.capacity == c.capacity && |c.items| in r.inUse
  {
    hide Charges;
    EnterHolds(c, item);
    if item.name in c.contents {
      WithoutMembers(Enter(c, item).inUse, c.contents[item.name]);
    }
  }

  /** A handle's deleter has run, once, exactly when no client refers to it and the table does not. */
  lemma DeletedWhenUnreferenced(c: Cache, h: nat)
    requires Holds(c, None) && Known(c, h)
    ensures h in c.deleted <==> c.clients[h] == 0 && !InTable(c, h)
    ensures multiset(c.deleted)[h] <= 1
    ensures c.clients[h] > 0 && InTable(c, h) ==> h in c.inUse && h !in c.lru
    ensures c.clients[h] == 0 && InTable(c, h) ==> h in c.lru && h !in c.inUse
    ensures !InTable(c, h) ==> h !in c.lru && h !in c.inUse
  {
    assert HandleHolds(c, h, None);
    DistinctCounts(c.deleted, h);
  }

  lemma {:induction false} DistinctCounts(s: seq<nat>, h: nat)
    requires Distinct(s)
    ensures multiset(s)[h] <= 1 && (h !in s ==> multiset(s)[h] == 0)
  {
    if s != [] {
      assert s == [s[0]] + s[1..];
      DistinctCounts(s[1..], h);
      assert h == s[0] ==> h !in s[1..];
    }
  }
}
