/** The skip list under the memtable: its links, the searches, and insertion.

    Nodes live in an arena and are named by their place in it; the head is the first.  A node's
    links are set one level at a time, so a new node's links are at first unset. */
module SkipLists {

  /** Keys are compared only, so their ranks will do. */
  type Key = int

  const MAX_HEIGHT: nat := 12
  const HEAD: nat := 0

  datatype Link = Unset | End | To(node: nat)

  type Links = seq<seq<Link>>

  // ------------------------------------------------------------------ chains

  function LinkAt(chain: seq<nat>, p: nat): Link
    requires p <= |chain|
  {
    if p < |chain| then To(chain[p]) else End
  }

  /** The node at place p of a chain, the head being at place 0. */
  function NodeAt(chain: seq<nat>, p: nat): nat
    requires p <= |chain|
  {
    if p == 0 then HEAD else chain[p - 1]
  }

  /** The links at a level lead from the head through exactly these nodes, in key order. */
  ghost predicate Chained(keys: seq<Key>, next: Links, chain: seq<nat>, level: nat) {
    && |keys| == |next|
    && (forall i :: 0 <= i < |chain| ==> 0 < chain[i] < |keys|)
    && (forall p :: 0 <= p <= |chain| ==> LinksOn(next, chain, p, level))
    && (forall i, j :: 0 <= i < j < |chain| ==> keys[chain[i]] < keys[chain[j]])
  }

  ghost predicate LinksOn(next: Links, chain: seq<nat>, p: nat, level: nat)
    requires p <= |chain|
  {
    var n := NodeAt(chain, p);
    n < |next| && level < |next[n]| && next[n][level] == LinkAt(chain, p)
  }

  /** Every level's nodes are on the level below. */
  ghost predicate Nested(chains: seq<seq<nat>>, level: nat)
    requires level < |chains|
  {
    level > 0 ==> forall n :: n in chains[level] ==> n in chains[level - 1]
  }

  ghost predicate Levels(keys: seq<Key>, next: Links, chains: seq<seq<nat>>) {
    && |chains| == MAX_HEIGHT
    && (forall l :: 0 <= l < MAX_HEIGHT ==> Chained(keys, next, chains[l], l))
    && (forall l :: 0 <= l < MAX_HEIGHT ==> Nested(chains, l))
  }

  /** How many of a chain's nodes have smaller keys. */
  function Rank(keys: seq<Key>, chain: seq<nat>, key: Key): (r: nat)
    requires forall i :: 0 <= i < |chain| ==> chain[i] < |keys|
    ensures r <= |chain|
    ensures forall i :: 0 <= i < r ==> keys[chain[i]] < key
    ensures r < |chain| ==> keys[chain[r]] >= key
  {
    if chain == [] || keys[chain[0]] >= key then 0 else 1 + Rank(keys, chain[1..], key)
  }

  lemma PrevIs(keys: seq<Key>, next: Links, chain: seq<nat>, level: nat, key: Key, p: nat)
    requires Chained(keys, next, chain, level) && p <= |chain|
    requires p > 0 ==> keys[chain[p - 1]] < key
    requires p < |chain| ==> keys[chain[p]] >= key
    ensures p == Rank(keys, chain, key) && IsPrev(keys, chain, key, NodeAt(chain, p))
  {
    RankIs(keys, next, chain, level, key, p);
  }

  lemma RankIs(keys: seq<Key>, next: Links, chain: seq<nat>, level: nat, key: Key, p: nat)
    requires Chained(keys, next, chain, level) && p <= |chain|
    requires p > 0 ==> keys[chain[p - 1]] < key
    requires p < |chain| ==> keys[chain[p]] >= key
    ensures p == Rank(keys, chain, key)
  {
    assert forall i :: 0 <= i < p - 1 ==> keys[chain[i]] < keys[chain[p - 1]];
    assert forall i :: 0 <= i < p ==> keys[chain[i]] < key;
  }

  /** A node found at one level has a place on the level below. */
  lemma PlaceBelow(keys: seq<Key>, next: Links, chains: seq<seq<nat>>, level: nat, p: nat) returns (q: nat)
    requires Levels(keys, next, chains) && 0 < level < MAX_HEIGHT && p <= |chains[level]|
    ensures q <= |chains[level - 1]| && NodeAt(chains[level - 1], q) == NodeAt(chains[level], p)
    ensures q == 0 <==> p == 0
  {
    if p == 0 {
      q := 0;
    } else {
      assert Nested(chains, level);
      assert Chained(keys, next, chains[level], level);
      assert chains[level][p - 1] in chains[level];
      var i :| 0 <= i < |chains[level - 1]| && chains[level - 1][i] == chains[level][p - 1];
      q := i + 1;
    }
  }

  // ------------------------------------------------------------------ storing links

  function SetNext(next: Links, n: nat, level: nat, link: Link): Links
    requires n < |next| && level < |next[n]|
  {
    next[n := next[n][level := link]]
  }

  function InsertAt(s: seq<nat>, p: nat, x: nat): (r: seq<nat>)
    requires p <= |s|
    ensures |r| == |s| + 1
  {
    s[..p] + [x] + s[p..]
  }

  /** Setting a link of a node not yet on that level disturbs nothing. */
  lemma PrivateLink(keys: seq<Key>, next: Links, chains: seq<seq<nat>>, x: nat, level: nat, link: Link)
    requires Levels(keys, next, chains) && 0 < x < |next| && level < |next[x]| && level < MAX_HEIGHT
             && x !in chains[level]
    ensures Levels(keys, SetNext(next, x, level, link), chains)
  {
    var next' := SetNext(next, x, level, link);
    forall l | 0 <= l < MAX_HEIGHT
      ensures Chained(keys, next', chains[l], l)
    {
      assert Chained(keys, next, chains[l], l);
      forall p | 0 <= p <= |chains[l]|
        ensures LinksOn(next', chains[l], p, l)
      {
        assert LinksOn(next, chains[l], p, l);
      }
    }
  }

  /** Publishing a node puts it on the level, at its key's place. */
  lemma Publish(keys: seq<Key>, next: Links, chains: seq<seq<nat>>, x: nat, level: nat, p: nat)
    requires Levels(keys, next, chains) && 0 < x < |keys| && level < MAX_HEIGHT
    requires x !in chains[level] && (level > 0 ==> x in chains[level - 1])
    requires p <= |chains[level]| && Chained(keys, next, chains[level], level)
    requires p > 0 ==> keys[chains[level][p - 1]] < keys[x]
    requires p < |chains[level]| ==> keys[x] < keys[chains[level][p]]
    requires level < |next[x]| && next[x][level] == LinkAt(chains[level], p)
    ensures LinksOn(next, chains[level], p, level)
    ensures Levels(keys, SetNext(next, NodeAt(chains[level], p), level, To(x)),
            chains[level := InsertAt(chains[level], p, x)])
  {
    assert LinksOn(next, chains[level], p, level);
    var prev := NodeAt(chains[level], p);
    var next', chains' := SetNext(next, prev, level, To(x)), chains[level := InsertAt(chains[level], p, x)];
    PublishedChain(keys, next, chains[level], x, level, p);
    forall l | 0 <= l < MAX_HEIGHT
      ensures Chained(keys, next', chains'[l], l)
    {
      if l != level {
        OtherLevel(keys, next, chains[l], prev, level, l, To(x));
      }
    }
    forall l | 0 <= l < MAX_HEIGHT
      ensures Nested(chains', l)
    {
      assert Nested(chains, l);
      InsertKeeps(chains[level], p, x);
    }
  }

  lemma InsertKeeps(s: seq<nat>, p: nat, x: nat)
    requires p <= |s|
    ensures forall n :: n in InsertAt(s, p, x) <==> n == x || n in s
  {
    assert s == s[..p] + s[p..];
  }

  lemma OtherLevel(keys: seq<Key>, next: Links, chain: seq<nat>, n: nat, level: nat, l: nat, link: Link)
    requires Chained(keys, next, chain, l) && n < |next| && level < |next[n]| && l != level
    ensures Chained(keys, SetNext(next, n, level, link), chain, l)
  {
    var next' := SetNext(next, n, level, link);
    forall p | 0 <= p <= |chain|
      ensures LinksOn(next', chain, p, l)
    {
      assert LinksOn(next, chain, p, l);
    }
  }

  lemma PublishedChain(keys: seq<Key>, next: Links, chain: seq<nat>, x: nat, level: nat, p: nat)
    requires Chained(keys, next, chain, level) && 0 < x < |keys| && p <= |chain| && x !in chain
    requires p > 0 ==> keys[chain[p - 1]] < keys[x]
    requires p < |chain| ==> keys[x] < keys[chain[p]]
    requires level < |next[x]| && next[x][level] == LinkAt(chain, p)
    requires LinksOn(next, chain, p, level)
    ensures Chained(keys, SetNext(next, NodeAt(chain, p), level, To(x)), InsertAt(chain, p, x), level)
  {
    var chain', next' := InsertAt(chain, p, x), SetNext(next, NodeAt(chain, p), level, To(x));
    forall q | 0 <= q <= |chain'|
      ensures LinksOn(next', chain', q, level)
    {
      if q <= p {
        assert NodeAt(chain', q) == NodeAt(chain, q);
        assert LinksOn(next, chain, q, level);
        if q < p {
          PlacesDiffer(keys, next, chain, level, q, p);
        }
      } else if q == p + 1 {
        assert NodeAt(chain', q) == x;
      } else {
        assert NodeAt(chain', q) == NodeAt(chain, q - 1);
        assert LinksOn(next, chain, q - 1, level);
        PlacesDiffer(keys, next, chain, level, q - 1, p);
      }
    }
    hide LinksOn;
    PublishedOrder(keys, next, chain, x, level, p);
  }

  lemma PublishedOrder(keys: seq<Key>, next: Links, chain: seq<nat>, x: nat, level: nat, p: nat)
    requires Chained(keys, next, chain, level) && x < |keys| && p <= |chain|
    requires p > 0 ==> keys[chain[p - 1]] < keys[x]
    requires p < |chain| ==> keys[x] < keys[chain[p]]
    ensures var chain' := InsertAt(chain, p, x);
            && (forall i :: 0 <= i < |chain'| ==> chain'[i] < |keys|)
            && (forall i, j :: 0 <= i < j < |chain'| ==> keys[chain'[i]] < keys[chain'[j]])
  {
    var chain' := InsertAt(chain, p, x);
    forall i, j | 0 <= i < j < |chain'|
      ensures keys[chain'[i]] < keys[chain'[j]]
    {
      var a, b := if i <= p then i else i - 1, if j <= p then j else j - 1;
      assert i != p ==> chain'[i] == chain[a];
      assert j != p ==> chain'[j] == chain[b];
      assert i == p && j > p + 1 ==> keys[chain[p]] < keys[chain[b]];
      assert j == p && i < p - 1 ==> keys[chain[a]] < keys[chain[p - 1]];
    }
  }

  lemma PlacesDiffer(keys: seq<Key>, next: Links, chain: seq<nat>, level: nat, p: nat, q: nat)
    requires Chained(keys, next, chain, level) && p <= |chain| && q <= |chain| && p != q
    ensures NodeAt(chain, p) != NodeAt(chain, q)
  {
  }

  /** A new node, on no level yet. */
  lemma NewNode(keys: seq<Key>, next: Links, chains: seq<seq<nat>>, key: Key, height: nat)
    requires Levels(keys, next, chains)
    ensures Levels(keys + [key], next + [seq(height, _ => Unset)], chains)
    ensures forall l :: 0 <= l < MAX_HEIGHT ==> |keys| !in chains[l]
  {
    var keys', next' := keys + [key], next + [seq(height, _ => Unset)];
    forall l | 0 <= l < MAX_HEIGHT
      ensures Chained(keys', next', chains[l], l) && |keys| !in chains[l]
    {
      assert Chained(keys, next, chains[l], l);
      forall p | 0 <= p <= |chains[l]|
        ensures LinksOn(next', chains[l], p, l)
      {
        assert LinksOn(next, chains[l], p, l);
      }
    }
  }

  lemma {:induction false} RankOfMore(keys: seq<Key>, more: seq<Key>, chain: seq<nat>, key: Key)
    requires forall i :: 0 <= i < |chain| ==> chain[i] < |keys|
    ensures Rank(keys + more, chain, key) == Rank(keys, chain, key)
  {
    if chain != [] {
      RankOfMore(keys, more, chain[1..], key);
    }
  }

  function KeysOf(keys: seq<Key>, chain: seq<nat>): (s: seq<Key>)
    requires forall i :: 0 <= i < |chain| ==> chain[i] < |keys|
    ensures |s| == |chain| && forall i :: 0 <= i < |chain| ==> s[i] == keys[chain[i]]
  {
    seq(|chain|, i requires 0 <= i < |chain| => keys[chain[i]])
  }

  /** The last node on a level before the key. */
  ghost predicate IsPrev(keys: seq<Key>, chain: seq<nat>, key: Key, x: nat) {
    (forall i :: 0 <= i < |chain| ==> chain[i] < |keys|) && x == NodeAt(chain, Rank(keys, chain, key))
  }

  function Inserted(s: seq<Key>, key: Key): seq<Key> {
    if s == [] || key <= s[0] then [key] + s else [s[0]] + Inserted(s[1..], key)
  }

  lemma {:induction false} InsertedMembers(s: seq<Key>, key: Key)
    ensures multiset(Inserted(s, key)) == multiset(s) + multiset{key}
    ensures forall k :: k in Inserted(s, key) <==> k == key || k in s
  {
    if s != [] && s[0] < key {
      InsertedMembers(s[1..], key);
      assert s == [s[0]] + s[1..];
    }
  }

  ghost predicate Ascending(s: seq<Key>) {
    forall i, j :: 0 <= i < j < |s| ==> s[i] < s[j]
  }

  /** Insertion adds the one key and keeps the order. */
  lemma {:induction false} InsertedAscends(s: seq<Key>, key: Key)
    requires Ascending(s) && key !in s
    ensures Ascending(Inserted(s, key))
  {
    if s != [] && s[0] < key {
      InsertedAscends(s[1..], key);
      InsertedMembers(s[1..], key);
      assert forall k :: k in s[1..] ==> s[0] < k;
      AscendingCons(s[0], Inserted(s[1..], key));
    }
  }

  lemma AscendingCons(a: Key, s: seq<Key>)
    requires Ascending(s) && forall k :: k in s ==> a < k
    ensures Ascending([a] + s)
  {
    assert forall i :: 0 <= i < |s| ==> s[i] in s;
  }

  ghost predicate Apart(keys: seq<Key>, chain: seq<nat>, key: Key) {
    forall i :: 0 <= i < |chain| ==> chain[i] < |keys| && keys[chain[i]] != key
  }

  lemma {:induction false} DownToBottom(keys: seq<Key>, next: Links, chains: seq<seq<nat>>, level: nat, n: nat)
    requires Levels(keys, next, chains) && level < MAX_HEIGHT && n in chains[level]
    ensures n in chains[0]
  {
    if level > 0 {
      assert Nested(chains, level);
      DownToBottom(keys, next, chains, level - 1, n);
    }
  }

  /** A node of height h is on exactly the lowest h levels. */
  ghost predicate AtFullHeight(next: Links, chains: seq<seq<nat>>) {
    forall n, l :: 0 < n < |next| && 0 <= l < |chains| ==> (n in chains[l] <==> l < |next[n]|)
  }

  ghost predicate PlaceFor(keys: seq<Key>, chain: seq<nat>, key: Key, x: nat) {
    IsPrev(keys, chain, key, x) && Apart(keys, chain, key)
  }

  // ------------------------------------------------------------------ a node linked so far

  ghost predicate Grown(keys: seq<Key>, chain: seq<nat>, before: seq<nat>, x: nat) {
    && (forall i :: 0 <= i < |before| ==> before[i] < |keys|) && x < |keys|
    && chain == InsertAt(before, Rank(keys, before, keys[x]), x)
  }

  /** The last node of the arena is on the levels below i, and the others are where they were. */
  ghost predicate Partial(keys: seq<Key>, next: Links, chains: seq<seq<nat>>, before: seq<seq<nat>>, x: nat, i: nat,
      height: nat) {
    && Levels(keys, next, chains) && |chains| == |before| == MAX_HEIGHT
    && 0 < x && x + 1 == |keys| == |next| && |next[x]| == height && i <= height <= MAX_HEIGHT
    && (forall l :: 0 <= l < i ==> Grown(keys, chains[l], before[l], x))
    && (forall l :: i <= l < MAX_HEIGHT ==> chains[l] == before[l])
    && (forall n, l :: 0 < n < x && 0 <= l < MAX_HEIGHT ==> (n in before[l] <==> l < |next[n]|))
    && (forall l :: 0 <= l < MAX_HEIGHT ==> x !in before[l])
  }

  lemma Places(keys: seq<Key>, chains: seq<seq<nat>>, key: Key, height: nat, prev: seq<nat>)
    requires height <= |chains| && height <= |prev|
    requires forall l :: 0 <= l < height ==> IsPrev(keys, chains[l], key, prev[l]) && Apart(keys, chains[l], key)
    ensures forall l :: 0 <= l < height ==> PlaceFor(keys, chains[l], key, prev[l])
  {
  }

  lemma SameKeys(keys: seq<Key>, more: seq<Key>, chain: seq<nat>)
    requires forall i :: 0 <= i < |chain| ==> chain[i] < |keys|
    ensures KeysOf(keys + more, chain) == KeysOf(keys, chain)
  {
  }

  lemma StartPartial(keys: seq<Key>, next: Links, chains: seq<seq<nat>>, key: Key, height: nat, prev: seq<nat>)
    requires Levels(keys, next, chains) && AtFullHeight(next, chains) && height <= MAX_HEIGHT == |prev|
    requires forall l :: 0 <= l < height ==> PlaceFor(keys, chains[l], key, prev[l])
    ensures Partial(keys + [key], next + [seq(height, _ => Unset)], chains, chains, |keys|, 0, height)
    ensures forall l :: 0 <= l < height ==> PlaceFor(keys + [key], chains[l], key, prev[l])
  {
    NewNode(keys, next, chains, key, height);
    assert Chained(keys, next, chains[0], 0);
    assert LinksOn(next, chains[0], 0, 0);
    hide Levels;
    forall l | 0 <= l < height
      ensures PlaceFor(keys + [key], chains[l], key, prev[l])
    {
      assert PlaceFor(keys, chains[l], key, prev[l]);
      RankOfMore(keys, [key], chains[l], key);
    }
  }

  /** One level of the linking loop: the node's own link, then the link that publishes it. */
  lemma LinkIn(keys: seq<Key>, next: Links, chains: seq<seq<nat>>, before: seq<seq<nat>>, x: nat, i: nat, height: nat,
      prev: nat) returns (p: nat)
    requires Partial(keys, next, chains, before, x, i, height) && i < height
    requires PlaceFor(keys, before[i], keys[x], prev)
    ensures i < |chains| && x < |next| && i < |next[x]|
    ensures p <= |chains[i]| && prev == NodeAt(chains[i], p) && prev < |next| && i < |next[prev]|
    ensures var next1 := SetNext(next, x, i, next[prev][i]);
            Partial(keys, SetNext(next1, prev, i, To(x)), chains[i := InsertAt(chains[i], p, x)], before, x, i + 1,
              height)
  {
    p := Rank(keys, before[i], keys[x]);
    var next1 := SetNext(next, x, i, LinkAt(before[i], p));
    OwnLinkPartial(keys, next, chains, before, x, i, height, prev);
    PublishPartial(keys, next1, chains, before, x, i, height, prev);
    hide Levels, Rank;
  }

  /** The new node's own link at a level changes nothing that can be seen. */
  lemma OwnLinkPartial(keys: seq<Key>, next: Links, chains: seq<seq<nat>>, before: seq<seq<nat>>, x: nat, i: nat,
      height: nat, prev: nat)
    requires Partial(keys, next, chains, before, x, i, height) && i < height
    requires PlaceFor(keys, before[i], keys[x], prev)
    ensures prev < |next| && i < |next[prev]| && prev != x
    ensures next[prev][i] == LinkAt(before[i], Rank(keys, before[i], keys[x]))
    ensures Partial(keys, SetNext(next, x, i, next[prev][i]), chains, before, x, i, height)
  {
    hide Rank;
    assert Chained(keys, next, chains[i], i);
    assert LinksOn(next, chains[i], Rank(keys, before[i], keys[x]), i);
    PrivateLink(keys, next, chains, x, i, next[prev][i]);
    hide Levels, Chained, LinksOn;
  }

  /** The place where the new node is to be published on a level. */
  lemma PublishPlace(keys: seq<Key>, next: Links, chains: seq<seq<nat>>, before: seq<seq<nat>>, x: nat, i: nat,
      height: nat, prev: nat)
    requires Partial(keys, next, chains, before, x, i, height) && i < height
    requires PlaceFor(keys, before[i], keys[x], prev)
    ensures chains[i] == before[i] && x !in chains[i] && (i > 0 ==> x in chains[i - 1])
    ensures Chained(keys, next, chains[i], i)
    ensures var p := Rank(keys, chains[i], keys[x]);
            && prev == NodeAt(chains[i], p)
            && (p > 0 ==> keys[chains[i][p - 1]] < keys[x])
            && (p < |chains[i]| ==> keys[x] < keys[chains[i][p]])
            && LinksOn(next, chains[i], p, i)
  {
    assert Chained(keys, next, chains[i], i);
    if i > 0 {
      assert Grown(keys, chains[i - 1], before[i - 1], x);
      InsertKeeps(before[i - 1], Rank(keys, before[i - 1], keys[x]), x);
    }
    hide Levels, Rank, LinksOn;
    assert LinksOn(next, chains[i], Rank(keys, chains[i], keys[x]), i);
  }

  lemma PublishPartial(keys: seq<Key>, next: Links, chains: seq<seq<nat>>, before: seq<seq<nat>>, x: nat, i: nat,
      height: nat, prev: nat)
    requires Partial(keys, next, chains, before, x, i, height) && i < height
    requires PlaceFor(keys, before[i], keys[x], prev)
    requires i < |next[x]| && next[x][i] == LinkAt(before[i], Rank(keys, before[i], keys[x]))
    ensures prev < |next| && i < |next[prev]| && i < |chains|
    ensures forall k :: 0 <= k < |chains[i]| ==> chains[i][k] < |keys|
    ensures Partial(keys, SetNext(next, prev, i, To(x)),
            chains[i := InsertAt(chains[i], Rank(keys, chains[i], keys[x]), x)], before, x, i + 1, height)
  {
    hide Levels, Rank, PlaceFor, Chained, LinksOn, Partial;
    PublishPlace(keys, next, chains, before, x, i, height, prev);
    PublishedLevels(keys, next, chains, before, x, i, height, prev);
    Advance(keys, next, SetNext(next, prev, i, To(x)), chains, before, x, i, height);
  }

  lemma PublishedLevels(keys: seq<Key>, next: Links, chains: seq<seq<nat>>, before: seq<seq<nat>>, x: nat, i: nat,
      height: nat, prev: nat)
    requires Partial(keys, next, chains, before, x, i, height) && i < height
    requires PlaceFor(keys, before[i], keys[x], prev)
    requires i < |next[x]| && next[x][i] == LinkAt(before[i], Rank(keys, before[i], keys[x]))
    ensures prev < |next| && i < |next[prev]| && i < |chains|
    ensures forall k :: 0 <= k < |chains[i]| ==> chains[i][k] < |keys|
    ensures Levels(keys, SetNext(next, prev, i, To(x)),
            chains[i := InsertAt(chains[i], Rank(keys, chains[i], keys[x]), x)])
  {
    PublishPlace(keys, next, chains, before, x, i, height, prev);
    hide Levels, Rank, PlaceFor;
    Publish(keys, next, chains, x, i, Rank(keys, chains[i], keys[x]));
  }

  lemma Advance(keys: seq<Key>, next: Links, next': Links, chains: seq<seq<nat>>, before: seq<seq<nat>>, x: nat, i: nat,
      height: nat)
    requires Partial(keys, next, chains, before, x, i, height) && i < height
    requires forall k :: 0 <= k < |before[i]| ==> before[i][k] < |keys|
    requires |next'| == |next| && forall n :: 0 <= n < |next| ==> |next'[n]| == |next[n]|
    requires Levels(keys, next', chains[i := InsertAt(chains[i], Rank(keys, chains[i], keys[x]), x)])
    ensures Partial(keys, next', chains[i := InsertAt(chains[i], Rank(keys, chains[i], keys[x]), x)], before, x, i + 1,
            height)
  {
    hide Levels, Rank, InsertAt;
  }

  lemma FinishPartial(keys: seq<Key>, next: Links, chains: seq<seq<nat>>, before: seq<seq<nat>>, x: nat, height: nat)
    requires Partial(keys, next, chains, before, x, height, height) && height > 0
    ensures AtFullHeight(next, chains) && Levels(keys, next, chains) && |chains| == |before| == MAX_HEIGHT
    ensures forall l :: height <= l < MAX_HEIGHT ==> chains[l] == before[l]
    ensures Chained(keys, next, chains[0], 0) && (forall i :: 0 <= i < |before[0]| ==> before[0][i] < |keys|)
    ensures KeysOf(keys, chains[0]) == Inserted(KeysOf(keys, before[0]), keys[x])
  {
    assert Chained(keys, next, chains[0], 0);
    hide Levels, Chained;
    forall n, l | 0 < n < |next| && 0 <= l < |chains|
      ensures n in chains[l] <==> l < |next[n]|
    {
      if l < height {
        assert Grown(keys, chains[l], before[l], x);
        InsertKeeps(before[l], Rank(keys, before[l], keys[x]), x);
      }
    }
    assert Grown(keys, chains[0], before[0], x);
    InsertedKeys(keys, before[0], x);
  }

  lemma {:induction false} InsertedKeys(keys: seq<Key>, chain: seq<nat>, x: nat)
    requires (forall i :: 0 <= i < |chain| ==> chain[i] < |keys|) && x < |keys|
    ensures forall i :: 0 <= i < |chain| + 1 ==> InsertAt(chain, Rank(keys, chain, keys[x]), x)[i] < |keys|
    ensures KeysOf(keys, InsertAt(chain, Rank(keys, chain, keys[x]), x)) == Inserted(KeysOf(keys, chain), keys[x])
  {
    hide KeysOf, InsertAt;
    InsertWithin(keys, chain, Rank(keys, chain, keys[x]), x);
    var grown := InsertAt(chain, Rank(keys, chain, keys[x]), x);
    if chain == [] || keys[chain[0]] >= keys[x] {
      InsertAtStart(chain, x);
      KeysOfCons(keys, x, chain);
    } else {
      InsertWithin(keys, chain[1..], Rank(keys, chain[1..], keys[x]), x);
      var rest := InsertAt(chain[1..], Rank(keys, chain[1..], keys[x]), x);
      InsertedKeys(keys, chain[1..], x);
      InsertAtCons(chain, Rank(keys, chain[1..], keys[x]), x);
      KeysOfCons(keys, chain[0], rest);
      KeysOfCons(keys, chain[0], chain[1..]);
      assert chain == [chain[0]] + chain[1..];
    }
  }

  lemma InsertWithin(keys: seq<Key>, chain: seq<nat>, p: nat, x: nat)
    requires (forall i :: 0 <= i < |chain| ==> chain[i] < |keys|) && x < |keys| && p <= |chain|
    ensures forall i :: 0 <= i < |InsertAt(chain, p, x)| ==> InsertAt(chain, p, x)[i] < |keys|
  {
  }

  lemma InsertAtCons(chain: seq<nat>, p: nat, x: nat)
    requires chain != [] && p < |chain|
    ensures InsertAt(chain, p + 1, x) == [chain[0]] + InsertAt(chain[1..], p, x)
  {
  }

  lemma InsertAtStart(chain: seq<nat>, x: nat)
    ensures InsertAt(chain, 0, x) == [x] + chain
  {
  }

  lemma KeysOfCons(keys: seq<Key>, n: nat, chain: seq<nat>)
    requires n < |keys| && forall i :: 0 <= i < |chain| ==> chain[i] < |keys|
    ensures var longer := [n] + chain; forall i :: 0 <= i < |longer| ==> longer[i] < |keys|
    ensures KeysOf(keys, [n] + chain) == [keys[n]] + KeysOf(keys, chain)
  {
  }

  class SkipList {
    var keys: seq<Key>
    var next: Links
    var maxHeight: nat
    /** The nodes on each level, in order. */
    ghost var chains: seq<seq<nat>>

    ghost predicate Valid()
      reads this
    {
      && |chains| == MAX_HEIGHT && Levels(keys, next, chains) && AtFullHeight(next, chains)
      && 1 <= maxHeight <= MAX_HEIGHT
      && (forall l :: maxHeight <= l < MAX_HEIGHT ==> chains[l] == [])
    }

    /** The keys stored, in order. */
    ghost function Contents(): (s: seq<Key>)
      requires Valid()
      reads this
      ensures |s| == |chains[0]|
    {
      assert Chained(keys, next, chains[0], 0);
      KeysOf(keys, chains[0])
    }

    constructor ()
      ensures Valid() && Contents() == []
    {
      keys, next := [0], [seq(MAX_HEIGHT, _ => End)];
      maxHeight := 1;
      chains := seq(MAX_HEIGHT, _ => []);
    }

    /** The first node at or after the key, and its predecessor on every level in use. */
    method FindGreaterOrEqual(key: Key) returns (found: Link, prev: seq<nat>)
      requires Valid()
      ensures |prev| == MAX_HEIGHT
      ensures forall l :: 0 <= l < maxHeight ==> IsPrev(keys, chains[l], key, prev[l])
      ensures Chained(keys, next, chains[0], 0) && found == LinkAt(chains[0], Rank(keys, chains[0], key))
    {
      hide Levels, AtFullHeight, IsPrev, Rank;
      prev := seq(MAX_HEIGHT, _ => HEAD);
      var x, level := HEAD, maxHeight - 1;
      ghost var p: nat := 0;
      AtLevel(level);
      while true
        invariant 0 <= level < maxHeight && |prev| == MAX_HEIGHT
        invariant Chained(keys, next, chains[level], level)
        invariant p <= |chains[level]| && x == NodeAt(chains[level], p)
        invariant p > 0 ==> keys[x] < key
        invariant forall l :: level < l < maxHeight ==> IsPrev(keys, chains[l], key, prev[l])
        decreases level, |chains[level]| - p
      {
        assert LinksOn(next, chains[level], p, level);
        var following := next[x][level];
        if following.To? && keys[following.node] < key {
          x := following.node;
          p := p + 1;
        } else {
          prev := prev[level := x];
          PrevIs(keys, next, chains[level], level, key, p);
          if level == 0 {
            return following, prev;
          }
          p := PlaceBelow(keys, next, chains, level, p);
          level := level - 1;
          AtLevel(level);
        }
      }
    }

    lemma AtLevel(level: nat)
      requires Valid() && level < MAX_HEIGHT
      ensures |chains| == MAX_HEIGHT && Chained(keys, next, chains[level], level)
    {
    }

    /** The last node before the key; the head if there is none. */
    method FindLessThan(key: Key) returns (x: nat)
      requires Valid()
      ensures Chained(keys, next, chains[0], 0) && x == NodeAt(chains[0], Rank(keys, chains[0], key))
    {
      hide Levels, AtFullHeight;
      var level := maxHeight - 1;
      x := HEAD;
      ghost var p: nat := 0;
      AtLevel(level);
      while true
        invariant 0 <= level < maxHeight
        invariant Chained(keys, next, chains[level], level)
        invariant p <= |chains[level]| && x == NodeAt(chains[level], p)
        invariant p > 0 ==> keys[x] < key
        decreases level, |chains[level]| - p
      {
        assert LinksOn(next, chains[level], p, level);
        var following := next[x][level];
        if following.End? || keys[following.node] >= key {
          RankIs(keys, next, chains[level], level, key, p);
          if level == 0 {
            return;
          }
          p := PlaceBelow(keys, next, chains, level, p);
          level := level - 1;
          AtLevel(level);
        } else {
          x := following.node;
          p := p + 1;
        }
      }
    }

    /** The last node of all; the head if the list is empty. */
    method FindLast() returns (x: nat)
      requires Valid()
      ensures x == NodeAt(chains[0], |chains[0]|)
    {
      hide Levels, AtFullHeight;
      var level := maxHeight - 1;
      x := HEAD;
      ghost var p: nat := 0;
      AtLevel(level);
      while true
        invariant 0 <= level < maxHeight
        invariant Chained(keys, next, chains[level], level)
        invariant p <= |chains[level]| && x == NodeAt(chains[level], p)
        decreases level, |chains[level]| - p
      {
        assert LinksOn(next, chains[level], p, level);
        var following := next[x][level];
        if following.End? {
          if level == 0 {
            return;
          }
          p := PlaceBelow(keys, next, chains, level, p);
          level := level - 1;
          AtLevel(level);
        } else {
          x := following.node;
          p := p + 1;
        }
      }
    }

    method Contains(key: Key) returns (found: bool)
      requires Valid()
      ensures found <==> key in Contents()
    {
      var link, _ := FindGreaterOrEqual(key);
      found := link.To? && keys[link.node] == key;
      ghost var r := Rank(keys, chains[0], key);
      assert found ==> Contents()[r] == key;
      forall i | 0 <= i < |chains[0]| && Contents()[i] == key
        ensures i == r
      {
        RankIs(keys, next, chains[0], 0, key, i);
      }
    }

    lemma NotStored(key: Key)
      requires Valid() && key !in Contents()
      ensures forall l :: 0 <= l < MAX_HEIGHT ==> Apart(keys, chains[l], key)
    {
      forall l | 0 <= l < MAX_HEIGHT
        ensures Apart(keys, chains[l], key)
      {
        AtLevel(l);
        forall i | 0 <= i < |chains[l]|
          ensures keys[chains[l][i]] != key
        {
          DownToBottom(keys, next, chains, l, chains[l][i]);
          var k :| 0 <= k < |chains[0]| && chains[0][k] == chains[l][i];
          assert Contents()[k] == keys[chains[l][i]];
        }
      }
    }

    /** Levels not in use before start out empty, after the head. */
    method RaiseHeight(key: Key, height: nat, prev: seq<nat>) returns (raised: seq<nat>)
      requires Valid() && height <= MAX_HEIGHT && |prev| == MAX_HEIGHT
      requires forall l :: 0 <= l < maxHeight ==> IsPrev(keys, chains[l], key, prev[l])
      modifies this`maxHeight
      ensures Valid() && height <= maxHeight && |raised| == MAX_HEIGHT
      ensures forall l :: 0 <= l < height ==> IsPrev(keys, chains[l], key, raised[l])
    {
      hide Levels, AtFullHeight;
      raised := prev;
      if height > maxHeight {
        for i := maxHeight to height
          invariant |raised| == MAX_HEIGHT
          invariant forall l :: 0 <= l < i && l < MAX_HEIGHT ==> IsPrev(keys, chains[l], key, raised[l])
        {
          raised := raised[i := HEAD];
        }
        maxHeight := height;
      }
    }

    /** A new node is linked in level by level from the bottom, its own link first. */
    method Insert(key: Key, height: nat)
      requires Valid() && key !in Contents()
      requires 1 <= height <= MAX_HEIGHT
      modifies this
      ensures Valid() && Contents() == Inserted(old(Contents()), key)
    {
      hide Levels, AtFullHeight, Partial, PlaceFor, Chained, IsPrev, KeysOf, Inserted, Rank;
      var _, prev := FindGreaterOrEqual(key);
      NotStored(key);
      prev := RaiseHeight(key, height, prev);
      assert forall l :: 0 <= l < height ==> PlaceFor(keys, chains[l], key, prev[l]) by {
        Places(keys, chains, key, height, prev);
      }
      var x := |keys|;
      NewNode(keys, next, chains, key, height);
      StartPartial(keys, next, chains, key, height, prev);
      ghost var keysBefore, chainsBefore, raised := keys, chains, maxHeight;
      keys, next := keys + [key], next + [seq(height, _ => Unset)];
      for i := 0 to height
        invariant Partial(keys, next, chains, chainsBefore, x, i, height)
        invariant keys == keysBefore + [key] && height <= maxHeight == raised
        invariant forall l :: 0 <= l < height ==> PlaceFor(keys, chainsBefore[l], key, prev[l])
      {
        ghost var p := LinkIn(keys, next, chains, chainsBefore, x, i, height, prev[i]);
        next := SetNext(next, x, i, next[prev[i]][i]);
        next := SetNext(next, prev[i], i, To(x));
        chains := chains[i := InsertAt(chains[i], p, x)];
      }
      FinishPartial(keys, next, chains, chainsBefore, x, height);
      SameKeys(keysBefore, [key], chainsBefore[0]);
    }
  }
}
