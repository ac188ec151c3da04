/** Internal keys, lookup keys and memtable entries as bytes. */
module KeyFormat {
  import opened Options
  import opened InternalKeys
  import opened Coding
  import opened Bytewise

  // ------------------------------------------------------------------ internal keys

  function EncodedKey(user: Bytes, sequence: nat, kind: Byte): (bytes: Bytes)
    requires sequence <= MAX_SEQUENCE
    ensures |bytes| == |user| + 8
  {
    user + Fixed64(sequence * 256 + kind)
  }

  datatype ParsedKey = ParsedKey(user: Bytes, sequence: nat, kind: Byte)

  /** Keys shorter than their tag, and unknown types, do not parse. */
  function ParseInternalKey(s: Bytes): Option<ParsedKey> {
    if |s| < 8 then None
    else
      var num := DecodeFixed64(s[|s| - 8..]);
      if num % 256 <= TYPE_VALUE then Some(ParsedKey(s[..|s| - 8], num / 256, num % 256)) else None
  }

  lemma KeyParts(user: Bytes, sequence: nat, kind: Byte)
    requires sequence <= MAX_SEQUENCE
    ensures var s := EncodedKey(user, sequence, kind);
            s[..|s| - 8] == user && DecodeFixed64(s[|s| - 8..]) == sequence * 256 + kind
  {
    hide Fixed64, DecodeFixed64;
    Fixed64RoundTrip(sequence * 256 + kind);
    var s := EncodedKey(user, sequence, kind);
    assert s[|s| - 8..] == Fixed64(sequence * 256 + kind);
  }

  /** A key parses back to what it was made from exactly when its type is a known one. */
  lemma ParseRoundTrip(user: Bytes, sequence: nat, kind: Byte)
    requires sequence <= MAX_SEQUENCE
    ensures ParseInternalKey(EncodedKey(user, sequence, kind)) == if kind <= TYPE_VALUE
            then Some(ParsedKey(user, sequence, kind)) else None
  {
    KeyParts(user, sequence, kind);
    hide EncodedKey, DecodeFixed64;
    assert (sequence * 256 + kind) % 256 == kind && (sequence * 256 + kind) / 256 == sequence;
  }

  /** The comparator works on the bytes: user keys first, then the trailing words, greater first. */
  predicate EncodedLess(a: Bytes, b: Bytes)
    requires |a| >= 8 && |b| >= 8
  {
    var ua, ub := a[..|a| - 8], b[..|b| - 8];
    BytesLess(ua, ub) || (ua == ub && DecodeFixed64(a[|a| - 8..]) > DecodeFixed64(b[|b| - 8..]))
  }

  lemma ComparesAsStored(u: Bytes, s: nat, k: Byte, v: Bytes, t: nat, l: Byte)
    requires s <= MAX_SEQUENCE && t <= MAX_SEQUENCE
    ensures EncodedLess(EncodedKey(u, s, k), EncodedKey(v, t, l)) <==>
              StoredLess(StoredKey(u, s * 256 + k), StoredKey(v, t * 256 + l))
    ensures EncodedLess(EncodedKey(u, s, k), EncodedKey(v, t, l)) <==>
              BytesLess(u, v) || (u == v && (s > t || (s == t && k > l)))
  {
    KeyParts(u, s, k);
    KeyParts(v, t, l);
    hide EncodedKey, DecodeFixed64, BytesLess;
  }

  // ------------------------------------------------------------------ lookup keys

  /** One buffer for a lookup: as a memtable key, an internal key and a user key. */
  class LookupKey {
    const space: Bytes
    const kstart: nat

    constructor (user: Bytes, snapshot: nat)
      requires |user| + 8 < TWO_32 && snapshot <= MAX_SEQUENCE
      ensures MemtableKey() == Varint(|user| + 8) + EncodedKey(user, snapshot, TYPE_FOR_SEEK)
      ensures kstart <= |space| && InternalKey() == EncodedKey(user, snapshot, TYPE_FOR_SEEK)
      ensures |space| >= kstart + 8 && UserKey() == user
    {
      hide EncodedKey;
      var length := EncodeVarint32(|user| + 8);
      EncodeVarint32IsVarint(|user| + 8);
      space := length + user + Fixed64(snapshot * 256 + TYPE_FOR_SEEK);
      kstart := |length|;
      LookupParts(length, user, snapshot);
    }

    function MemtableKey(): Bytes {
      space
    }

    function InternalKey(): Bytes
      requires kstart <= |space|
    {
      space[kstart..]
    }

    function UserKey(): Bytes
      requires |space| >= kstart + 8
    {
      space[kstart..|space| - 8]
    }

    static lemma LookupParts(length: Bytes, user: Bytes, snapshot: nat)
      requires snapshot <= MAX_SEQUENCE
      ensures var space := length + user + Fixed64(snapshot * 256 + TYPE_FOR_SEEK);
              && space == length + EncodedKey(user, snapshot, TYPE_FOR_SEEK)
              && |space| == |length| + |user| + 8
              && space[|length|..] == EncodedKey(user, snapshot, TYPE_FOR_SEEK)
              && space[|length|..|space| - 8] == user
    {
      hide Fixed64;
    }
  }

  // ------------------------------------------------------------------ memtable entries

  /** An entry: the internal key and the value, each after its length. */
  function EntryBytes(user: Bytes, sequence: nat, kind: Byte, value: Bytes): Bytes
    requires sequence <= MAX_SEQUENCE
  {
    LengthPrefixed(EncodedKey(user, sequence, kind)) + LengthPrefixed(value)
  }

  method Add(sequence: nat, kind: Byte, key: Bytes, value: Bytes) returns (buffer: Bytes)
    requires sequence <= MAX_SEQUENCE && |key| + 8 < TWO_32 && |value| < TWO_32
    ensures buffer == EntryBytes(key, sequence, kind, value)
  {
    hide Varint, Fixed64;
    EncodeVarint32IsVarint(|key| + 8);
    EncodeVarint32IsVarint(|value|);
    hide EncodeVarint32;
    buffer := EncodeVarint32(|key| + 8);
    buffer := buffer + key;
    buffer := buffer + Fixed64(sequence * 256 + kind);
    buffer := buffer + EncodeVarint32(|value|);
    buffer := buffer + value;
  }

  /** What a lookup of a user key makes of the entry it was led to. */
  datatype Verdict = Value(value: Bytes) | Deleted | NotThere

  /** Only the user key is compared: the search has already passed the entries that are too new. */
  function Get(entry: Bytes, user: Bytes): Verdict {
    match GetLengthPrefixed(entry)
    case None => NotThere
    case Some(key) =>
      if |key.0| < 8 || key.0[..|key.0| - 8] != user then NotThere
      else
        var tag := DecodeFixed64(key.0[|key.0| - 8..]) % 256;
        if tag == TYPE_VALUE then
          match GetLengthPrefixed(key.1)
          case None => NotThere
          case Some(value) => Value(value.0)
        else if tag == TYPE_DELETION then Deleted
        else NotThere
  }

  /** A lookup led to an entry reads what was added under its user key, and nothing under another's. */
  lemma GetReadsEntry(user: Bytes, sequence: nat, kind: Byte, value: Bytes, asked: Bytes)
    requires sequence <= MAX_SEQUENCE && |user| + 8 < TWO_32 && |value| < TWO_32
    ensures Get(EntryBytes(user, sequence, kind, value), asked)
         == if asked != user then NotThere
            else if kind == TYPE_VALUE then Value(value)
            else if kind == TYPE_DELETION then Deleted
            else NotThere
  {
    hide LengthPrefixed, GetLengthPrefixed, EncodedKey, DecodeFixed64;
    var key := EncodedKey(user, sequence, kind);
    LengthPrefixedRoundTrip(key, LengthPrefixed(value));
    LengthPrefixedRoundTrip(value, []);
    assert LengthPrefixed(value) + [] == LengthPrefixed(value);
    KeyParts(user, sequence, kind);
    assert (sequence * 256 + kind) % 256 == kind;
  }
}
