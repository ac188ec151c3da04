/** Facts about the reading rule: the newest visible entry exists, is unique, and depends only on
    which visible entries there are. */
module Reads {
  import opened InternalKeys

  ghost function Elements(es: seq<Entry>): set<Entry> {
    set e | e in es
  }

  /** Positions in a sorted run follow the order of the keys. */
  lemma SortedApart(es: seq<Entry>, k: nat, i: nat)
    requires Sorted(es) && k < |es| && i < |es|
    ensures k < i <==> Less(es[k].key, es[i].key)
    ensures k == i <==> es[k].key == es[i].key
  {
    if k < i {
      assert Less(es[k].key, es[i].key);
    } else if i < k {
      assert Less(es[i].key, es[k].key);
    }
  }

  lemma {:induction false} NewestExists(es: set<Entry>, u: UserKey, snapshot: nat, w: Entry) returns (e: Entry)
    requires w in es && Visible(w.key, u, snapshot)
    ensures IsNewest(es, u, snapshot, e)
    decreases es
  {
    if exists x :: x in es && Visible(x.key, u, snapshot) && Less(x.key, w.key) {
      var x :| x in es && Visible(x.key, u, snapshot) && Less(x.key, w.key);
      e := NewestExists(es - {w}, u, snapshot, x);
    } else {
      e := w;
    }
  }

  /** A read reports the outcome of the newest visible entry, whichever one is named. */
  lemma ReadAtNewest(es: set<Entry>, u: UserKey, snapshot: nat, e: Entry)
    requires UniqueKeys(es) && IsNewest(es, u, snapshot, e)
    ensures ReadAt(es, u, snapshot) == Outcome(e)
  {
    forall x | IsNewest(es, u, snapshot, x)
      ensures x == e
    {
      LessIsStrictTotalOrder(x.key, e.key, x.key);
    }
  }

  /** The reading rule in relational form: a result other than Missing names its entry. */
  lemma ReadAtNames(es: set<Entry>, u: UserKey, snapshot: nat) returns (e: Entry)
    requires ReadAt(es, u, snapshot) != Missing
    ensures IsNewest(es, u, snapshot, e) && Outcome(e) == ReadAt(es, u, snapshot)
  {
    e :| IsNewest(es, u, snapshot, e) && Outcome(e) == ReadAt(es, u, snapshot);
  }

  lemma ReadAtInvisible(es: set<Entry>, u: UserKey, snapshot: nat)
    requires forall x :: x in es ==> !Visible(x.key, u, snapshot)
    ensures ReadAt(es, u, snapshot) == Missing
  {
  }
}
