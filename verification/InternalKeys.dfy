/** Internal keys, their order, and the newest-visible-entry reading rule that every layer of
    the store has to agree on.

    The store only ever compares user keys, through a caller-supplied total order.  A user key is
    modelled by an integer, its rank in that order; module Bytewise shows that any finite set of
    byte strings under the default comparator embeds into the integers this way. */
module InternalKeys {

  type UserKey = int

  type Byte = b: int | 0 <= b < 256

  /** Sequence numbers leave the low eight bits of a 64-bit word free for the type. */
  const MAX_SEQUENCE: nat := 0xFF_FFFF_FFFF_FFFF

  const TYPE_DELETION: Byte := 0
  const TYPE_VALUE: Byte := 1
  const TYPE_FOR_SEEK: Byte := TYPE_VALUE

  /** The last byte of a stored key may hold any value; only two of them are valid types. */
  datatype InternalKey = InternalKey(user: UserKey, sequence: nat, kind: Byte) {
    predicate Parses() {
      kind <= TYPE_VALUE
    }
  }

  datatype Entry = Entry(key: InternalKey, value: seq<Byte>)

  /** The 64-bit word stored after the user key. */
  function Packed(k: InternalKey): nat {
    k.sequence * 256 + k.kind
  }

  /** User key ascending, then packed sequence-and-type descending. */
  predicate Less(a: InternalKey, b: InternalKey) {
    a.user < b.user || (a.user == b.user && Packed(a) > Packed(b))
  }

  lemma LessIsStrictTotalOrder(a: InternalKey, b: InternalKey, c: InternalKey)
    ensures !Less(a, a)
    ensures Less(a, b) && Less(b, c) ==> Less(a, c)
    ensures a != b ==> Less(a, b) || Less(b, a)
  {
  }

  /** The key that a lookup at a snapshot seeks to. */
  function SeekKey(u: UserKey, snapshot: nat): InternalKey {
    InternalKey(u, snapshot, TYPE_FOR_SEEK)
  }

  /** A stored key is visible to a lookup when it is an entry for that user key at or after the
      seek key. */
  predicate Visible(k: InternalKey, u: UserKey, snapshot: nat) {
    k.user == u && !Less(k, SeekKey(u, snapshot))
  }

  predicate Sorted(es: seq<Entry>) {
    forall i, j :: 0 <= i < j < |es| ==> Less(es[i].key, es[j].key)
  }

  /** What a lookup reports to the caller: a deletion marker and no entry at all look alike. */
  datatype ReadResult = Found(value: seq<Byte>) | Missing | Corrupt

  function Outcome(e: Entry): ReadResult {
    if e.key.kind == TYPE_VALUE then Found(e.value)
    else if e.key.kind == TYPE_DELETION then Missing
    else Corrupt
  }

  ghost predicate UniqueKeys(es: set<Entry>) {
    forall a, b :: a in es && b in es && a.key == b.key ==> a == b
  }

  ghost predicate IsNewest(es: set<Entry>, u: UserKey, snapshot: nat, e: Entry) {
    && e in es
    && Visible(e.key, u, snapshot)
    && forall x :: x in es && Visible(x.key, u, snapshot) ==> !Less(x.key, e.key)
  }

  /** The reference meaning of a read over a set of entries, wherever they are stored. */
  ghost function ReadAt(es: set<Entry>, u: UserKey, snapshot: nat): ReadResult {
    if e :| IsNewest(es, u, snapshot, e) then Outcome(e) else Missing
  }
}
