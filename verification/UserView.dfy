/** What a database iterator shows: for each user key, its newest usable entry if that is a value.
    The view is the reference that the iterator is proved against. */
module UserView {
  import opened InternalKeys
  import opened Reads

  datatype Pair = Pair(key: UserKey, value: seq<Byte>)

  /** Entries the iterator takes into account: well formed and no newer than its snapshot. */
  predicate Usable(e: Entry, snapshot: nat) {
    e.key.Parses() && e.key.sequence <= snapshot
  }

  /** The entry is the newest usable one for its user key, and a value. */
  ghost predicate Shown(es: seq<Entry>, snapshot: nat, i: nat)
    requires i < |es|
  {
    && Usable(es[i], snapshot)
    && es[i].key.kind == TYPE_VALUE
    && forall j :: 0 <= j < i && es[j].key.user == es[i].key.user ==> !Usable(es[j], snapshot)
  }

  /** The pairs shown by the first n entries, in key order. */
  ghost function ViewOf(es: seq<Entry>, snapshot: nat, n: nat): seq<Pair>
    requires n <= |es|
  {
    if n == 0 then []
    else ViewOf(es, snapshot, n - 1)
         + (if Shown(es, snapshot, n - 1) then [Pair(es[n - 1].key.user, es[n - 1].value)] else [])
  }

  ghost function View(es: seq<Entry>, snapshot: nat): seq<Pair> {
    ViewOf(es, snapshot, |es|)
  }

  /** A plain cursor over a sorted list of pairs. */
  datatype Cursor = Nowhere | At(index: nat)

  ghost function First(view: seq<Pair>): Cursor {
    if view == [] then Nowhere else At(0)
  }

  ghost function Last(view: seq<Pair>): Cursor {
    if view == [] then Nowhere else At(|view| - 1)
  }

  ghost function After(view: seq<Pair>, c: Cursor): Cursor
    requires c.At? && c.index < |view|
  {
    if c.index + 1 < |view| then At(c.index + 1) else Nowhere
  }

  ghost function Before(view: seq<Pair>, c: Cursor): Cursor
    requires c.At? && c.index < |view|
  {
    if c.index > 0 then At(c.index - 1) else Nowhere
  }

  /** The first pair whose key is at or after the target. */
  ghost predicate IsSeek(view: seq<Pair>, target: UserKey, c: Cursor) {
    match c
    case Nowhere => forall k :: 0 <= k < |view| ==> view[k].key < target
    case At(i) => i < |view| && target <= view[i].key && forall k :: 0 <= k < i ==> view[k].key < target
  }

  /** The entry that shows a pair stands at the pair's place in the view. */
  lemma {:induction false} ShownRank(es: seq<Entry>, snapshot: nat, i: nat, n: nat)
    requires i < n <= |es| && Shown(es, snapshot, i)
    ensures |ViewOf(es, snapshot, i)| < |ViewOf(es, snapshot, n)|
    ensures ViewOf(es, snapshot, n)[|ViewOf(es, snapshot, i)|] == Pair(es[i].key.user, es[i].value)
    ensures ViewOf(es, snapshot, i) <= ViewOf(es, snapshot, n)
    decreases n
  {
    if n > i + 1 {
      ShownRank(es, snapshot, i, n - 1);
    }
  }

  lemma {:induction false} NoneShown(es: seq<Entry>, snapshot: nat, a: nat, b: nat)
    requires a <= b <= |es| && forall k :: a <= k < b ==> !Shown(es, snapshot, k)
    ensures ViewOf(es, snapshot, b) == ViewOf(es, snapshot, a)
    decreases b
  {
    if a < b {
      NoneShown(es, snapshot, a, b - 1);
    }
  }

  lemma {:induction false} ViewMembers(es: seq<Entry>, snapshot: nat, n: nat, k: nat) returns (i: nat)
    requires n <= |es| && k < |ViewOf(es, snapshot, n)|
    ensures i < n && Shown(es, snapshot, i) && |ViewOf(es, snapshot, i)| == k
    ensures ViewOf(es, snapshot, n)[k] == Pair(es[i].key.user, es[i].value)
    decreases n
  {
    if k < |ViewOf(es, snapshot, n - 1)| {
      i := ViewMembers(es, snapshot, n - 1, k);
    } else {
      i := n - 1;
    }
  }

  /** The view lists user keys in strictly ascending order. */
  lemma ViewAscends(es: seq<Entry>, snapshot: nat, a: nat, b: nat)
    requires Sorted(es) && a < b < |View(es, snapshot)|
    ensures View(es, snapshot)[a].key < View(es, snapshot)[b].key
  {
    var i := ViewMembers(es, snapshot, |es|, a);
    var j := ViewMembers(es, snapshot, |es|, b);
    RankOrder(es, snapshot, i, j);
    assert Less(es[i].key, es[j].key);
  }

  lemma RankOrder(es: seq<Entry>, snapshot: nat, i: nat, j: nat)
    requires i < |es| && j < |es| && Shown(es, snapshot, i) && Shown(es, snapshot, j)
    ensures |ViewOf(es, snapshot, i)| < |ViewOf(es, snapshot, j)| <==> i < j
  {
    if i < j {
      ShownRank(es, snapshot, i, j);
    } else if j < i {
      ShownRank(es, snapshot, j, i);
    }
  }

  /** The view is exactly what point reads find: a pair is listed if and only if reading its key at
      the snapshot finds its value. */
  lemma ViewMatchesReads(es: seq<Entry>, snapshot: nat, u: UserKey, value: seq<Byte>)
    requires Sorted(es) && forall i :: 0 <= i < |es| ==> es[i].key.Parses()
    ensures Pair(u, value) in View(es, snapshot) <==> ReadAt(Elements(es), u, snapshot) == Found(value)
  {
    SortedIsUnique(es);
    if Pair(u, value) in View(es, snapshot) {
      var k :| 0 <= k < |View(es, snapshot)| && View(es, snapshot)[k] == Pair(u, value);
      var i := ViewMembers(es, snapshot, |es|, k);
      NewestIsFirstUsable(es, snapshot, i);
      ReadAtNewest(Elements(es), u, snapshot, es[i]);
    }
    if ReadAt(Elements(es), u, snapshot) == Found(value) {
      var e := ReadAtNames(Elements(es), u, snapshot);
      var i :| 0 <= i < |es| && es[i] == e;
      forall j | 0 <= j < i && es[j].key.user == u
        ensures !Usable(es[j], snapshot)
      {
        assert Less(es[j].key, es[i].key);
        assert es[j] in Elements(es);
      }
      assert Shown(es, snapshot, i);
      ShownRank(es, snapshot, i, |es|);
    }
  }

  lemma SortedIsUnique(es: seq<Entry>)
    requires Sorted(es)
    ensures UniqueKeys(Elements(es))
  {
  }

  lemma NewestIsFirstUsable(es: seq<Entry>, snapshot: nat, i: nat)
    requires Sorted(es) && (forall k :: 0 <= k < |es| ==> es[k].key.Parses())
    requires i < |es| && Shown(es, snapshot, i)
    ensures IsNewest(Elements(es), es[i].key.user, snapshot, es[i])
  {
    assert es[i] in Elements(es);
    forall x | x in Elements(es) && Visible(x.key, es[i].key.user, snapshot)
      ensures !Less(x.key, es[i].key)
    {
      var j :| 0 <= j < |es| && es[j] == x;
      if i < j {
        assert Less(es[i].key, es[j].key);
      }
    }
  }
}
