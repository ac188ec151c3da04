/** The specification of the store: a history of writes, and what a read at a snapshot returns. */
module History {
  import opened InternalKeys
  import opened Reads

  /** One write: a value put under a key, or a deletion of it. */
  datatype Op = Put(user: UserKey, value: seq<Byte>) | Delete(user: UserKey)

  /** The i-th write of a history gets sequence number i + 1. */
  function EntryOf(h: seq<Op>, i: nat): Entry
    requires i < |h|
  {
    match h[i]
    case Put(u, value) => Entry(InternalKey(u, i + 1, TYPE_VALUE), value)
    case Delete(u) => Entry(InternalKey(u, i + 1, TYPE_DELETION), [])
  }

  /** The last of the first n writes to a key decides. */
  function Meaning(h: seq<Op>, n: nat, u: UserKey): ReadResult
    requires n <= |h|
  {
    if n == 0 then Missing
    else if h[n - 1].user == u then
      match h[n - 1]
      case Put(_, value) => Found(value)
      case Delete(_) => Missing
    else Meaning(h, n - 1, u)
  }

  function Min(a: nat, b: nat): nat {
    if a <= b then a else b
  }

  /** Later writes do not change what a snapshot means. */
  lemma {:induction false} MeaningOfPrefix(h: seq<Op>, more: seq<Op>, n: nat, u: UserKey)
    requires n <= |h|
    ensures Meaning(h + more, n, u) == Meaning(h, n, u)
  {
    if n > 0 {
      MeaningOfPrefix(h, more, n - 1, u);
    }
  }

  /** The entries written by positions [a, b) of the history. */
  ghost function Written(h: seq<Op>, a: nat, b: nat): set<Entry>
    requires a <= b <= |h|
  {
    if a == b then {} else Written(h, a, b - 1) + {EntryOf(h, b - 1)}
  }

  lemma {:induction false} WrittenMembers(h: seq<Op>, a: nat, b: nat, e: Entry)
    requires a <= b <= |h|
    ensures e in Written(h, a, b) <==> a < e.key.sequence <= b && e == EntryOf(h, e.key.sequence - 1)
  {
    if a < b {
      WrittenMembers(h, a, b - 1, e);
    }
  }

  ghost predicate FromHistory(es: set<Entry>, h: seq<Op>, n: nat)
    requires n <= |h|
  {
    forall e :: e in es ==> 1 <= e.key.sequence <= n && e == EntryOf(h, e.key.sequence - 1)
  }

  lemma FromHistoryUnique(es: set<Entry>, h: seq<Op>, n: nat)
    requires n <= |h| && FromHistory(es, h, n)
    ensures UniqueKeys(es)
  {
  }

  lemma MeaningStep(h: seq<Op>, n: nat, u: UserKey)
    requires n < |h|
    ensures Meaning(h, n + 1, u) == if h[n].user == u then Outcome(EntryOf(h, n)) else Meaning(h, n, u)
  {
  }

  /** One more write on top of a set of entries that reads like the writes so far. */
  lemma ReadAfterOneMore(es: set<Entry>, h: seq<Op>, n: nat, u: UserKey, s: nat)
    requires n < |h| && FromHistory(es, h, n)
    requires ReadAt(es, u, s) == Meaning(h, Min(s, n), u)
    ensures ReadAt(es + {EntryOf(h, n)}, u, s) == Meaning(h, Min(s, n + 1), u)
  {
    hide Meaning;
    var e := EntryOf(h, n);
    var all := es + {e};
    assert Meaning(h, Min(s, n + 1), u) == (if Visible(e.key, u, s) then Outcome(e) else Meaning(h, Min(s, n), u)) by {
      MeaningStep(h, n, u);
    }
    FromHistoryUnique(all, h, n + 1);
    FromHistoryUnique(es, h, n);
    if Visible(e.key, u, s) {
      assert IsNewest(all, u, s, e);
      ReadAtNewest(all, u, s, e);
    } else {
      SameVisibleSameRead(es, all, u, s);
    }
  }

  /** A read depends only on the visible entries. */
  lemma SameVisibleSameRead(a: set<Entry>, b: set<Entry>, u: UserKey, s: nat)
    requires UniqueKeys(a) && UniqueKeys(b)
    requires forall e: Entry :: Visible(e.key, u, s) ==> (e in a <==> e in b)
    ensures ReadAt(a, u, s) == ReadAt(b, u, s)
  {
    if w :| w in a && Visible(w.key, u, s) {
      var e := NewestExists(a, u, s, w);
      ReadAtNewest(a, u, s, e);
      ReadAtNewest(b, u, s, e);
    } else {
      ReadAtInvisible(a, u, s);
      ReadAtInvisible(b, u, s);
    }
  }

  lemma FromHistoryMore(es: set<Entry>, h: seq<Op>, a: nat, b: nat)
    requires a <= b <= |h| && FromHistory(es, h, a)
    ensures FromHistory(es + Written(h, a, b), h, b)
  {
    forall e | e in Written(h, a, b)
      ensures a < e.key.sequence <= b && e == EntryOf(h, e.key.sequence - 1)
    {
      WrittenMembers(h, a, b, e);
    }
  }

  /** A run of writes on top of a set of entries that reads like the writes before it. */
  lemma {:induction false} ReadAfterMore(es: set<Entry>, h: seq<Op>, a: nat, b: nat, u: UserKey, s: nat)
    requires a <= b <= |h| && FromHistory(es, h, a)
    requires ReadAt(es, u, s) == Meaning(h, Min(s, a), u)
    ensures ReadAt(es + Written(h, a, b), u, s) == Meaning(h, Min(s, b), u)
    decreases b
  {
    hide Meaning, ReadAt, FromHistory;
    if a == b {
      assert es + Written(h, a, b) == es;
    } else {
      var before := es + Written(h, a, b - 1);
      ReadAfterMore(es, h, a, b - 1, u, s);
      FromHistoryMore(es, h, a, b - 1);
      ReadAfterOneMore(before, h, b - 1, u, s);
      assert es + Written(h, a, b) == before + {EntryOf(h, b - 1)};
    }
  }
}
