/** The default comparator: byte strings in lexicographic order, and the short keys that table
    indexes use in place of long ones.  Elsewhere user keys are ranks in such an order; any finite
    set of keys embeds into the integers that way. */
module Bytewise {
  import opened InternalKeys

  type Bytes = seq<Byte>

  predicate BytesLess(a: Bytes, b: Bytes) {
    b != [] && (a == [] || a[0] < b[0] || (a[0] == b[0] && BytesLess(a[1..], b[1..])))
  }

  lemma {:induction false} Irreflexive(a: Bytes)
    ensures !BytesLess(a, a)
  {
    if a != [] {
      Irreflexive(a[1..]);
    }
  }

  lemma {:induction false} Transitive(a: Bytes, b: Bytes, c: Bytes)
    requires BytesLess(a, b) && BytesLess(b, c)
    ensures BytesLess(a, c)
  {
    if a != [] && a[0] == b[0] == c[0] {
      Transitive(a[1..], b[1..], c[1..]);
    }
  }

  lemma {:induction false} Total(a: Bytes, b: Bytes)
    ensures BytesLess(a, b) || BytesLess(b, a) || a == b
  {
    if a != [] && b != [] && a[0] == b[0] {
      Total(a[1..], b[1..]);
      assert a == [a[0]] + a[1..] && b == [b[0]] + b[1..];
    }
  }

  /** A string comes before those it begins. */
  lemma {:induction false} PrefixFirst(a: Bytes, b: Bytes)
    requires b != []
    ensures BytesLess(a, a + b)
  {
    if a != [] {
      assert (a + b)[1..] == a[1..] + b;
      PrefixFirst(a[1..], b);
    }
  }

  // ------------------------------------------------------------------ keys as ranks

  ghost function Rank(keys: set<Bytes>, k: Bytes): nat {
    |set x | x in keys && BytesLess(x, k)|
  }

  /** The order of any finite set of byte strings is that of their ranks. */
  lemma RankEmbeds(keys: set<Bytes>, a: Bytes, b: Bytes)
    requires a in keys && b in keys
    ensures BytesLess(a, b) <==> Rank(keys, a) < Rank(keys, b)
    ensures a == b <==> Rank(keys, a) == Rank(keys, b)
  {
    Total(a, b);
    if BytesLess(a, b) {
      RankGrows(keys, a, b);
      Transitivity(a, b);
    } else if BytesLess(b, a) {
      RankGrows(keys, b, a);
      Transitivity(b, a);
    }
    Irreflexive(a);
  }

  lemma Transitivity(a: Bytes, b: Bytes)
    requires BytesLess(a, b)
    ensures !BytesLess(b, a)
  {
    if BytesLess(b, a) {
      Transitive(a, b, a);
      Irreflexive(a);
    }
  }

  lemma RankGrows(keys: set<Bytes>, a: Bytes, b: Bytes)
    requires a in keys && BytesLess(a, b)
    ensures Rank(keys, a) < Rank(keys, b)
  {
    var below, above := set x | x in keys && BytesLess(x, a), set x | x in keys && BytesLess(x, b);
    Irreflexive(a);
    forall x | x in below
      ensures x in above
    {
      Transitive(x, a, b);
    }
    assert below + {a} <= above;
    assert above == (below + {a}) + (above - (below + {a}));
    assert |below + {a}| == |below| + 1;
  }

  // ------------------------------------------------------------------ short separators

  /** The first byte in which two strings differ decides. */
  lemma {:induction false} FirstDifference(a: Bytes, b: Bytes, i: nat)
    requires i < |a| && i < |b| && a[..i] == b[..i] && a[i] < b[i]
    ensures BytesLess(a, b)
  {
    if i > 0 {
      assert a[0] == a[..i][0] && b[0] == b[..i][0];
      assert a[1..][..i - 1] == a[..i][1..] && b[1..][..i - 1] == b[..i][1..];
      FirstDifference(a[1..], b[1..], i - 1);
    }
  }

  /** Where the two first differ, there is room for a byte in between. */
  ghost predicate RoomAt(start: Bytes, limit: Bytes, d: nat) {
    d < |start| && d < |limit| && start[..d] == limit[..d] && (var byte: int := start[d]; byte + 1 < limit[d])
  }

  /** The first byte that can grow. */
  ghost predicate GrowsAt(key: Bytes, n: nat) {
    n < |key| && key[n] != 0xff && forall i :: 0 <= i < n ==> key[i] == 0xff
  }

  /** Shortens the first key to one still before the limit, if the first byte in which they differ
      leaves room for one in between; otherwise leaves it alone. */
  method FindShortestSeparator(start: Bytes, limit: Bytes) returns (r: Bytes)
    ensures r == start || (BytesLess(start, r) && BytesLess(r, limit) && |r| <= |start|)
    ensures forall d: nat :: RoomAt(start, limit, d) ==> r == start[..d] + [start[d] + 1]
    ensures (forall d: nat :: !RoomAt(start, limit, d)) ==> r == start
  {
    var minLength := if |start| < |limit| then |start| else |limit|;
    var diff := 0;
    while diff < minLength && start[diff] == limit[diff]
      invariant diff <= minLength && start[..diff] == limit[..diff]
    {
      diff := diff + 1;
    }
    r := start;
    forall d: nat | RoomAt(start, limit, d)
      ensures d == diff
    {
    }
    if diff < minLength {
      var byte := start[diff];
      if byte < 0xff && byte + 1 < limit[diff] {
        r := start[..diff] + [byte + 1];
        assert RoomAt(start, limit, diff);
        FirstDifference(start, r, diff);
        FirstDifference(r, limit, diff);
      }
    }
  }

  /** A short key at or after the given one: its first byte that can grow, grown. */
  method FindShortSuccessor(key: Bytes) returns (r: Bytes)
    ensures r == key || (BytesLess(key, r) && |r| <= |key|)
    ensures r == key <==> forall i :: 0 <= i < |key| ==> key[i] == 0xff
    ensures forall n: nat :: GrowsAt(key, n) ==> r == key[..n] + [key[n] + 1]
  {
    for i := 0 to |key|
      invariant forall k :: 0 <= k < i ==> key[k] == 0xff
    {
      if key[i] != 0xff {
        r := key[..i] + [key[i] + 1];
        FirstDifference(key, r, i);
        Irreflexive(key);
        return;
      }
    }
    r := key;
  }

  // ------------------------------------------------------------------ internal keys over byte strings

  /** A stored key: the user key's bytes and the packed sequence number and type. */
  datatype StoredKey = StoredKey(user: Bytes, packed: nat)

  predicate StoredLess(a: StoredKey, b: StoredKey) {
    BytesLess(a.user, b.user) || (a.user == b.user && a.packed > b.packed)
  }

  const FIRST_PACKED: nat := MAX_SEQUENCE * 256 + TYPE_FOR_SEEK

  lemma StoredOrder(a: StoredKey, b: StoredKey, c: StoredKey)
    ensures !StoredLess(a, a)
    ensures StoredLess(a, b) && StoredLess(b, c) ==> StoredLess(a, c)
    ensures StoredLess(a, b) || StoredLess(b, a) || a == b
    ensures StoredLess(a, b) ==> !StoredLess(b, a)
  {
    Irreflexive(a.user);
    if BytesLess(a.user, b.user) && BytesLess(b.user, c.user) {
      Transitive(a.user, b.user, c.user);
    }
    Total(a.user, b.user);
    if BytesLess(a.user, b.user) {
      Transitivity(a.user, b.user);
    }
  }

  /** An index key for a block: at or after its last key and before the next block's first; either
      the last key itself, or one whose user key lies strictly between theirs. */
  method FindStoredSeparator(start: StoredKey, limit: StoredKey) returns (r: StoredKey)
    ensures r == start || (BytesLess(start.user, r.user) && BytesLess(r.user, limit.user))
    ensures !StoredLess(r, start)
    ensures StoredLess(start, limit) ==> StoredLess(r, limit)
    ensures r == start || (|r.user| < |start.user| && r.packed == FIRST_PACKED)
    ensures forall d: nat :: RoomAt(start.user, limit.user, d) && d + 1 < |start.user| ==> |r.user| == d + 1
  {
    var tmp := FindShortestSeparator(start.user, limit.user);
    r := start;
    StoredOrder(start, start, start);
    if |tmp| < |start.user| && BytesLess(start.user, tmp) {
      r := StoredKey(tmp, FIRST_PACKED);
      StoredOrder(start, r, limit);
      Irreflexive(start.user);
    }
  }

  method FindStoredSuccessor(key: StoredKey) returns (r: StoredKey)
    ensures r == key || BytesLess(key.user, r.user)
    ensures !StoredLess(r, key)
    ensures r == key || (|r.user| < |key.user| && r.packed == FIRST_PACKED)
    ensures forall n: nat :: GrowsAt(key.user, n) && n + 1 < |key.user| ==> |r.user| == n + 1
  {
    var tmp := FindShortSuccessor(key.user);
    r := key;
    StoredOrder(key, key, key);
    if |tmp| < |key.user| && BytesLess(key.user, tmp) {
      r := StoredKey(tmp, FIRST_PACKED);
      StoredOrder(key, r, key);
    }
  }
}
