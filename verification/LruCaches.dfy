/** One shard of the LRU cache: circular lists linked in place, reference counts and the hash table.
    Every method does to the state what CacheStates says it should. */
module LruCaches {
  import opened Options
  import opened HandleTables
  import CacheStates

  const LRU: nat := 0
  const IN_USE: nat := 1

  // ------------------------------------------------------------------ circular lists

  /** The node at place p of a ring, the head being at place 0 and again after the last. */
  function Node(head: nat, s: seq<nat>, p: nat): nat
    requires p <= |s| + 1
  {
    if p == 0 || p == |s| + 1 then head else s[p - 1]
  }

  ghost predicate Joined(next: seq<nat>, prev: seq<nat>, a: nat, b: nat) {
    a < |next| && b < |prev| && next[a] == b && prev[b] == a
  }

  /** From the head the links lead through exactly these nodes, and back. */
  ghost predicate Ring(next: seq<nat>, prev: seq<nat>, head: nat, s: seq<nat>) {
    && head !in s && CacheStates.Distinct(s)
    && forall p, q :: 0 <= p <= |s| && q == p + 1 ==> Joined(next, prev, Node(head, s, p), Node(head, s, q))
  }

  ghost predicate Rings(next: seq<nat>, prev: seq<nat>, lru: seq<nat>, inUse: seq<nat>) {
    && |next| == |prev|
    && Ring(next, prev, LRU, lru) && Ring(next, prev, IN_USE, inUse)
    && LRU !in inUse && IN_USE !in lru
    && forall h :: h in lru ==> h !in inUse
  }

  function NextUnlinked(next: seq<nat>, prev: seq<nat>, e: nat): seq<nat>
    requires e < |next| && e < |prev| && prev[e] < |next|
  {
    next[prev[e] := next[e]]
  }

  function PrevUnlinked(next: seq<nat>, prev: seq<nat>, e: nat): seq<nat>
    requires e < |next| && e < |prev| && next[e] < |prev|
  {
    prev[next[e] := prev[e]]
  }

  lemma {:induction false} WithoutAt(s: seq<nat>, k: nat)
    requires k < |s| && CacheStates.Distinct(s)
    ensures CacheStates.Without(s, s[k]) == s[..k] + s[k + 1..]
  {
    if k > 0 {
      WithoutAt(s[1..], k - 1);
    }
  }

  /** Unlinking a node closes its ring around it. */
  lemma Unlinked(next: seq<nat>, prev: seq<nat>, head: nat, s: seq<nat>, e: nat)
    requires |next| == |prev| && Ring(next, prev, head, s) && e in s
    ensures e < |next| && prev[e] < |next| && next[e] < |prev|
    ensures next[e] == head || next[e] in s
    ensures prev[e] == head || prev[e] in s
    ensures Ring(NextUnlinked(next, prev, e), PrevUnlinked(next, prev, e), head, CacheStates.Without(s, e))
  {
    var k :| 0 <= k < |s| && s[k] == e;
    hide Ring, CacheStates.Distinct;
    Neighbours(next, prev, head, s, k);
    ClosedAround(next, prev, head, s, k);
  }

  lemma ClosedAround(next: seq<nat>, prev: seq<nat>, head: nat, s: seq<nat>, k: nat)
    requires |next| == |prev| && Ring(next, prev, head, s) && k < |s|
    requires s[k] < |next| && prev[s[k]] < |next| && next[s[k]] < |prev|
    ensures Ring(NextUnlinked(next, prev, s[k]), PrevUnlinked(next, prev, s[k]), head, CacheStates.Without(s, s[k]))
  {
    WithoutAt(s, k);
    CacheStates.WithoutMembers(s, s[k]);
    hide CacheStates.Distinct, CacheStates.Without, Joined, Node, NextUnlinked, PrevUnlinked;
    var rest := s[..k] + s[k + 1..];
    forall p, q | 0 <= p <= |rest| && q == p + 1
      ensures Joined(NextUnlinked(next, prev, s[k]), PrevUnlinked(next, prev, s[k]), Node(head, rest, p),
              Node(head, rest, q))
    {
      UnlinkedAt(next, prev, head, s, k, p);
    }
  }

  lemma Neighbours(next: seq<nat>, prev: seq<nat>, head: nat, s: seq<nat>, k: nat)
    requires |next| == |prev| && Ring(next, prev, head, s) && k < |s|
    ensures s[k] < |next| && prev[s[k]] < |next| && next[s[k]] < |prev|
    ensures next[s[k]] == head || next[s[k]] in s
    ensures prev[s[k]] == head || prev[s[k]] in s
  {
    ghost var a, b := k + 1, k + 2;
    assert Joined(next, prev, Node(head, s, k), Node(head, s, a));
    assert Joined(next, prev, Node(head, s, a), Node(head, s, b));
  }

  lemma UnlinkedAt(next: seq<nat>, prev: seq<nat>, head: nat, s: seq<nat>, k: nat, p: nat)
    requires |next| == |prev| && Ring(next, prev, head, s) && k < |s| && p < |s|
    requires s[k] < |next| && prev[s[k]] < |next| && next[s[k]] < |prev|
    ensures var rest := s[..k] + s[k + 1..];
            Joined(NextUnlinked(next, prev, s[k]), PrevUnlinked(next, prev, s[k]), Node(head, rest, p),
              Node(head, rest, p + 1))
  {
    ghost var a, b := k + 1, k + 2;
    assert Joined(next, prev, Node(head, s, k), Node(head, s, a));
    assert Joined(next, prev, Node(head, s, a), Node(head, s, b));
    var rest := s[..k] + s[k + 1..];
    var i := if p <= k then p else p + 1;
    ghost var j := i + 1;
    assert Joined(next, prev, Node(head, s, i), Node(head, s, j));
    NodesWithout(head, s, k, p);
    if p != k {
      PlacesApart(head, s, i, k);
      PlacesApart(head, s, j, b);
    }
    hide Node, CacheStates.Distinct, Ring;
  }

  lemma NodesWithout(head: nat, s: seq<nat>, k: nat, p: nat)
    requires k < |s| && p < |s|
    ensures var rest := s[..k] + s[k + 1..];
            && Node(head, rest, p) == Node(head, s, if p <= k then p else p + 1)
            && Node(head, rest, p + 1) == Node(head, s, if p < k then p + 1 else p + 2)
  {
  }

  lemma PlacesApart(head: nat, s: seq<nat>, p: nat, q: nat)
    requires head !in s && CacheStates.Distinct(s) && p <= |s| + 1 && q <= |s| + 1
    ensures Node(head, s, p) == Node(head, s, q) <==> p == q || (p in {0, |s| + 1} && q in {0, |s| + 1})
  {
  }

  /** Linking a node in just before the head makes it the newest. */
  lemma Linked(next: seq<nat>, prev: seq<nat>, head: nat, s: seq<nat>, e: nat)
    requires |next| == |prev| && Ring(next, prev, head, s) && e !in s && e != head && e < |next|
    ensures head < |prev| && prev[head] < |next| && (prev[head] == head || prev[head] in s)
    ensures Ring(next[e := head][prev[head] := e], prev[e := prev[head]][head := e], head, s + [e])
  {
    var n := |s|;
    ghost var end := n + 1;
    assert Joined(next, prev, Node(head, s, n), Node(head, s, end));
    var longer := s + [e];
    var next', prev' := next[e := head][prev[head] := e], prev[e := prev[head]][head := e];
    forall p, q | 0 <= p <= |longer| && q == p + 1
      ensures Joined(next', prev', Node(head, longer, p), Node(head, longer, q))
    {
      if p < n {
        assert Joined(next, prev, Node(head, s, p), Node(head, s, q));
        assert Node(head, longer, p) == Node(head, s, p) && Node(head, longer, q) == Node(head, s, q);
        PlacesApart(head, s, p, n);
      }
    }
    CacheStates.DistinctAppend(s, e);
  }

  /** Changes outside a ring leave it be. */
  lemma Elsewhere(next: seq<nat>, prev: seq<nat>, next': seq<nat>, prev': seq<nat>, head: nat, s: seq<nat>)
    requires Ring(next, prev, head, s) && |next| <= |next'| && |prev| <= |prev'|
    requires forall h :: h == head || h in s ==> (h < |next| ==> next'[h] == next[h])
                                                 && (h < |prev| ==> prev'[h] == prev[h])
    ensures Ring(next', prev', head, s)
  {
    forall p, q | 0 <= p <= |s| && q == p + 1
      ensures Joined(next', prev', Node(head, s, p), Node(head, s, q))
    {
      assert Joined(next, prev, Node(head, s, p), Node(head, s, q));
      InRing(head, s, p);
      InRing(head, s, q);
    }
  }

  lemma InRing(head: nat, s: seq<nat>, p: nat)
    requires p <= |s| + 1
    ensures Node(head, s, p) == head || Node(head, s, p) in s
  {
  }

  /** The first node of a ring, or the head if it is empty. */
  lemma FirstOf(next: seq<nat>, prev: seq<nat>, head: nat, s: seq<nat>)
    requires Ring(next, prev, head, s)
    ensures head < |next| && (s == [] <==> next[head] == head) && (s != [] ==> next[head] == s[0])
  {
    ghost var one := 1;
    assert Joined(next, prev, Node(head, s, 0), Node(head, s, one));
  }

  // ------------------------------------------------------------------ the cache

  class LRUCache {
    var capacity: nat
    var usage: nat
    var items: seq<CacheStates.Item>
    var refs: seq<nat>
    var cached: seq<bool>
    var next: seq<nat>
    var prev: seq<nat>
    const table: HandleTable
    var deleted: seq<nat>
    ghost var lru: seq<nat>
    ghost var inUse: seq<nat>
    ghost var clients: seq<nat>

    ghost function State(): CacheStates.Cache
      reads this, table
    {
      CacheStates.Cache(capacity, usage, items, refs, cached, clients, lru, inUse, table.contents, deleted)
    }

    /** Everything but the reference-count invariants. */
    ghost predicate Shaped()
      reads this, table
    {
      && table.Valid() && CacheStates.Sized(State())
      && |next| == |items| && Rings(next, prev, lru, inUse)
    }

    ghost predicate Valid()
      reads this, table
    {
      Shaped() && CacheStates.Holds(State(), None)
    }

    constructor (capacity: nat)
      ensures Valid() && this.capacity == capacity && table.contents == map[] && items == State().items
      ensures lru == [] && inUse == [] && deleted == [] && fresh(table)
    {
      this.capacity, usage := capacity, 0;
      var head := CacheStates.Item(Name([], 0), 0, 0);
      items, refs, cached, clients := [head, head], [0, 0], [false, false], [0, 0];
      next, prev, lru, inUse, deleted := [LRU, IN_USE], [LRU, IN_USE], [], [], [];
      table := new HandleTable();
    }

    method LRURemove(e: nat)
      requires Shaped() && (e in lru || e in inUse)
      modifies this`next, this`prev, this`lru, this`inUse
      ensures Shaped() && State() == old(State()).(lru := CacheStates.Without(old(lru), e),
              inUse := CacheStates.Without(old(inUse), e))
    {
      hide CacheStates.Distinct;
      var next', prev';
      if e in lru {
        Unlinked(next, prev, LRU, lru, e);
        Elsewhere(next, prev, NextUnlinked(next, prev, e), PrevUnlinked(next, prev, e), IN_USE, inUse);
        CacheStates.NotInWithout(inUse, e);
        RemovedStays(lru, e);
      } else {
        Unlinked(next, prev, IN_USE, inUse, e);
        Elsewhere(next, prev, NextUnlinked(next, prev, e), PrevUnlinked(next, prev, e), LRU, lru);
        CacheStates.NotInWithout(lru, e);
        RemovedStays(inUse, e);
      }
      hide Ring;
      next', prev' := NextUnlinked(next, prev, e), PrevUnlinked(next, prev, e);
      next, prev := next', prev';
      lru, inUse := CacheStates.Without(lru, e), CacheStates.Without(inUse, e);
    }

    static lemma RemovedStays(s: seq<nat>, e: nat)
      ensures forall h :: h in CacheStates.Without(s, e) ==> h in s
    {
    }

    method LRUAppend(list: nat, e: nat)
      requires Shaped() && list in {LRU, IN_USE} && CacheStates.FIRST <= e < |items| && e !in lru && e !in inUse
      modifies this`next, this`prev, this`lru, this`inUse
      ensures Shaped()
      ensures State() == if list == LRU then old(State()).(lru := old(lru) + [e])
              else old(State()).(inUse := old(inUse) + [e])
    {
      hide CacheStates.Distinct;
      Linked(next, prev, list, if list == LRU then lru else inUse, e);
      var last := prev[list];
      var next', prev' := next[e := list][last := e], prev[e := last][list := e];
      Elsewhere(next, prev, next', prev', if list == LRU then IN_USE else LRU, if list == LRU then inUse else lru);
      hide Ring;
      next, prev := next', prev';
      if list == LRU {
        lru := lru + [e];
      } else {
        inUse := inUse + [e];
      }
    }

    /** A node taken off the list that held it is on neither. */
    lemma GoneAfter(l: seq<nat>, u: seq<nat>, e: nat)
      requires lru == CacheStates.Without(l, e) && inUse == CacheStates.Without(u, e)
      requires CacheStates.Distinct(l) && CacheStates.Distinct(u)
      ensures e !in lru && e !in inUse
    {
      CacheStates.WithoutMembers(l, e);
      CacheStates.WithoutMembers(u, e);
    }

    method Ref(e: nat)
      requires Valid() && CacheStates.Known(State(), e) && refs[e] > 0
      modifies this
      ensures Valid() && State() == CacheStates.Ref(old(State()), e)
    {
      hide CacheStates.Holds, Rings, CacheStates.Distinct, CacheStates.Without;
      ghost var start := State();
      CacheStates.RefHolds(start, e);
      CacheStates.WhichList(start, e, None);
      if refs[e] == 1 && cached[e] {
        LRURemove(e);
        CacheStates.NotInWithout(start.inUse, e);
        GoneAfter(start.lru, start.inUse, e);
        LRUAppend(IN_USE, e);
      }
      refs := refs[e := refs[e] + 1];
      clients := clients[e := clients[e] + 1];
      assert State() == CacheStates.Ref(start, e);
    }

    /** Runs the deleter when the last reference goes; a cached handle nobody uses any more becomes the
        newest on the LRU list. */
    method Unref(e: nat)
      requires Shaped() && CacheStates.Known(State(), e) && refs[e] > 0
      requires CacheStates.Distinct(lru) && CacheStates.Distinct(inUse)
      requires cached[e] && refs[e] == 2 ==> e in inUse && e !in lru
      modifies this
      ensures Shaped() && State() == CacheStates.Unref(old(State()), e)
    {
      hide Rings, CacheStates.Distinct, CacheStates.Without;
      ghost var start := State();
      refs := refs[e := refs[e] - 1];
      if refs[e] == 0 {
        deleted := deleted + [e];
      } else if cached[e] && refs[e] == 1 {
        LRURemove(e);
        CacheStates.NotInWithout(start.lru, e);
        GoneAfter(start.lru, start.inUse, e);
        LRUAppend(LRU, e);
      }
      assert State() == CacheStates.Unref(start, e);
    }

    method FinishErase(e: nat)
      requires Shaped() && CacheStates.Holds(State(), Some(e))
      modifies this
      ensures Valid()
      ensures CacheStates.Known(old(State()), e) && old(refs)[e] > 0 && old(usage) >= old(items)[e].charge
      ensures State() == CacheStates.FinishErase(old(State()), e)
    {
      hide CacheStates.Holds, Rings, CacheStates.Distinct, CacheStates.Without;
      ghost var start := State();
      CacheStates.FinishEraseHolds(start, e);
      CacheStates.WhichList(start, e, Some(e));
      LRURemove(e);
      CacheStates.WithoutDistinct(start, e);
      cached := cached[e := false];
      usage := usage - items[e].charge;
      Unref(e);
      assert State() == CacheStates.FinishErase(start, e);
    }

    method Lookup(name: Name) returns (found: Option<nat>)
      requires Valid()
      modifies this
      ensures Valid()
      ensures found == if name in old(table.contents) then Some(old(table.contents)[name]) else None
      ensures found.Some? ==> CacheStates.Known(old(State()), found.value)
                              && State() == CacheStates.Ref(old(State()), found.value)
      ensures found.None? ==> State() == old(State())
    {
      found := table.Lookup(name);
      if found.Some? {
        CacheStates.EraseReady(State(), name);
        Ref(found.value);
      }
    }

    method Release(e: nat)
      requires Valid() && CacheStates.Known(State(), e) && clients[e] > 0
      modifies this
      ensures Valid() && old(refs)[e] > 0 && State() == CacheStates.Release(old(State()), e)
    {
      hide CacheStates.Holds, Rings, CacheStates.Distinct, CacheStates.Without;
      ghost var start := State();
      CacheStates.ReleaseHolds(start, e);
      CacheStates.WhichList(start, e, None);
      clients := clients[e := clients[e] - 1];
      Unref(e);
      assert State() == CacheStates.Release(start, e);
    }

    method Erase(name: Name)
      requires Valid()
      modifies this, table
      ensures Valid()
      ensures name in old(table.contents) ==>
                var e := old(table.contents)[name];
                CacheStates.Known(old(State()), e) && old(refs)[e] > 0 && old(usage) >= old(items)[e].charge
      ensures State() == CacheStates.Erase(old(State()), name)
    {
      hide CacheStates.Holds, Rings, CacheStates.Distinct, CacheStates.Without;
      ghost var start := State();
      CacheStates.EraseReady(start, name);
      var e := table.Remove(name);
      if e.Some? {
        CacheStates.RemovedHolds(start, name);
        FinishErase(e.value);
      } else {
        assert State() == start;
      }
    }

    /** The eviction loop. */
    method EvictWhile(limit: int)
      requires Valid()
      modifies this, table
      ensures Valid() && State() == CacheStates.Evict(old(State()), limit)
    {
      hide CacheStates.Holds, Rings, CacheStates.Distinct, CacheStates.Without;
      FirstUnreferenced();
      while usage > limit && next[LRU] != LRU
        invariant Valid() && CacheStates.Evict(State(), limit) == CacheStates.Evict(old(State()), limit)
        invariant LRU < |next| && (lru == [] <==> next[LRU] == LRU) && (lru != [] ==> next[LRU] == lru[0])
        decreases |lru|
      {
        var oldest := next[LRU];
        CacheStates.OldestHolds(State());
        Erase(items[oldest].name);
        FirstUnreferenced();
      }
    }

    lemma FirstUnreferenced()
      requires Shaped()
      ensures LRU < |next| && (lru == [] <==> next[LRU] == LRU) && (lru != [] ==> next[LRU] == lru[0])
    {
      FirstOf(next, prev, LRU, lru);
    }

    /** Drops every entry that is not in use. */
    method Prune()
      requires Valid()
      modifies this, table
      ensures Valid() && State() == CacheStates.Evict(old(State()), -1)
    {
      EvictWhile(-1);
    }

    method Insert(name: Name, value: int, charge: nat) returns (e: nat)
      requires Valid()
      modifies this, table
      ensures Valid() && e == old(|items|)
      ensures State() == CacheStates.Insert(old(State()), CacheStates.Item(name, value, charge))
    {
      hide CacheStates.Holds, Rings;
      ghost var start, item := State(), CacheStates.Item(name, value, charge);
      e := |items|;
      if capacity > 0 {
        Enter(name, value, charge);
      } else {
        CacheStates.AllocateHolds(start, item);
        MoreNodes(e);
        items, clients := items + [CacheStates.Item(name, value, charge)], clients + [1];
        next, prev := next + [e], prev + [e];
        refs, cached := refs + [1], cached + [false];
        assert State() == CacheStates.Allocate(start, item);
      }
      EvictWhile(capacity);
    }

    /** A new handle in use, held by its client and by the cache. */
    method Append(item: CacheStates.Item)
      requires Shaped() && |items| !in lru && |items| !in inUse && |items| >= CacheStates.FIRST
      modifies this`items, this`clients, this`next, this`prev, this`refs, this`cached, this`lru, this`inUse
      ensures Shaped() && State() == old(State()).(items := old(items) + [item], refs := old(refs) + [2],
              cached := old(cached) + [true], clients := old(clients) + [1], inUse := old(inUse) + [|old(items)|])
    {
      hide Rings, CacheStates.Distinct;
      var e := |items|;
      MoreNodes(e);
      items, clients := items + [item], clients + [1];
      next, prev := next + [e], prev + [e];
      refs, cached := refs + [2], cached + [true];
      LRUAppend(IN_USE, e);
    }

    method Enter(name: Name, value: int, charge: nat)
      requires Valid()
      modifies this, table
      ensures Valid() && capacity == old(capacity)
      ensures State() == CacheStates.Replace(old(State()), CacheStates.Item(name, value, charge))
    {
      hide CacheStates.Holds, Rings, CacheStates.Distinct, CacheStates.Without;
      ghost var start, item := State(), CacheStates.Item(name, value, charge);
      var e := |items|;
      CacheStates.EnterHolds(start, item);
      CacheStates.NewHandle(start);
      Append(CacheStates.Item(name, value, charge));
      usage := usage + charge;
      var replaced := table.Insert(Slot(name, e));
      assert State() == CacheStates.Enter(start, item);
      if replaced.Some? {
        FinishErase(replaced.value);
      }
      assert State() == CacheStates.Replace(start, item);
    }

    lemma MoreNodes(e: nat)
      requires Shaped() && e == |items|
      ensures Rings(next + [e], prev + [e], lru, inUse)
    {
      Elsewhere(next, prev, next + [e], prev + [e], LRU, lru);
      Elsewhere(next, prev, next + [e], prev + [e], IN_USE, inUse);
    }
  }
}
