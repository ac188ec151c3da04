/** The layout of a table block: prefix-compressed entries, restart offsets, and their number. */
module BlockFormat {
  import opened Options
  import opened InternalKeys
  import opened Coding

  type Bytes = seq<Byte>

  datatype Pair = Pair(key: Bytes, value: Bytes)

  type Comparator = (Bytes, Bytes) -> bool

  ghost predicate Transitive(less: Comparator) {
    forall a, b, c :: less(a, b) && less(b, c) ==> less(a, c)
  }

  ghost predicate Ascending(less: Comparator, es: seq<Pair>) {
    forall i, j :: 0 <= i < j < |es| ==> less(es[i].key, es[j].key)
  }

  function Header(shared: nat, nonShared: nat, valueLength: nat): (bytes: Bytes)
    ensures |bytes| >= 3
  {
    Varint(shared) + Varint(nonShared) + Varint(valueLength)
  }

  function EncodedEntry(shared: nat, e: Pair): Bytes
    requires shared <= |e.key|
  {
    Header(shared, |e.key| - shared, |e.value|) + e.key[shared..] + e.value
  }

  // ------------------------------------------------------------------ decoding one entry

  datatype Decoded = Decoded(shared: nat, nonShared: nat, valueLength: nat, size: nat)

  /** The three lengths at the front of the input, one byte each or as varints, if the key and value
      they announce fit in the rest. */
  function DecodeEntry(s: Bytes): Option<Decoded> {
    if |s| < 3 then None
    else if s[0] < 128 && s[1] < 128 && s[2] < 128 then Fitting(Decoded(s[0], s[1], s[2], 3), |s|)
    else
      match GetVarint32(s)
      case None => None
      case Some(a) =>
        match GetVarint32(a.1)
        case None => None
        case Some(b) =>
          match GetVarint32(b.1)
          case None => None
          case Some(c) => Fitting(Decoded(a.0, b.0, c.0, |s| - |c.1|), |s|)
  }

  function Fitting(d: Decoded, length: nat): Option<Decoded>
    requires d.size <= length
  {
    // The sum is a 32-bit one
    if length - d.size < (d.nonShared + d.valueLength) % TWO_32 then None else Some(d)
  }

  /** Of any bytes, an entry that is decoded has its key and value within them, their lengths added as
      32-bit words. */
  lemma DecodedWithin(s: Bytes)
    ensures DecodeEntry(s).Some? ==>
              var d := DecodeEntry(s).value; d.size + (d.nonShared + d.valueLength) % TWO_32 <= |s|
  {
    hide GetVarint32;
  }

  lemma VarintFirst(v: nat)
    ensures v < 128 ==> Varint(v) == [v]
    ensures v >= 128 ==> Varint(v)[0] >= 128
  {
  }

  lemma DecodeVarints(a: nat, b: nat, c: nat, rest: Bytes)
    requires a < TWO_32 && b < TWO_32 && c < TWO_32
    ensures GetVarint32(Header(a, b, c) + rest) == Some((a, Varint(b) + (Varint(c) + rest)))
    ensures GetVarint32(Varint(b) + (Varint(c) + rest)) == Some((b, Varint(c) + rest))
    ensures GetVarint32(Varint(c) + rest) == Some((c, rest))
  {
    hide GetVarint32, Varint;
    Varint32RoundTrip(a, Varint(b) + (Varint(c) + rest));
    Varint32RoundTrip(b, Varint(c) + rest);
    Varint32RoundTrip(c, rest);
    assert Header(a, b, c) + rest == Varint(a) + (Varint(b) + (Varint(c) + rest));
  }

  lemma FastPath(a: nat, b: nat, c: nat, rest: Bytes)
    ensures var s := Header(a, b, c) + rest;
            s[0] < 128 && s[1] < 128 && s[2] < 128 <==> a < 128 && b < 128 && c < 128
    ensures a < 128 && b < 128 && c < 128 ==>
              var s := Header(a, b, c) + rest; s[0] == a && s[1] == b && s[2] == c && |Header(a, b, c)| == 3
  {
    VarintFirst(a);
    VarintFirst(b);
    VarintFirst(c);
    hide Varint;
    var s := Header(a, b, c) + rest;
    assert s[0] == Varint(a)[0];
    assert a < 128 ==> s[1] == Varint(b)[0];
    assert a < 128 && b < 128 ==> s[2] == Varint(c)[0];
  }

  /** Both paths of the decoder read back the lengths that were written. */
  lemma DecodeHeader(a: nat, b: nat, c: nat, rest: Bytes)
    requires a < TWO_32 && b + c < TWO_32 && |rest| >= b + c
    ensures DecodeEntry(Header(a, b, c) + rest) == Some(Decoded(a, b, c, |Header(a, b, c)|))
  {
    hide Varint, GetVarint32, Header, Fitting, DecodeEntry;
    var s := Header(a, b, c) + rest;
    FastPath(a, b, c, rest);
    FitsWhole(Decoded(a, b, c, |Header(a, b, c)|), |s|);
    if a < 128 && b < 128 && c < 128 {
      DecodeFast(s);
    } else {
      DecodeVarints(a, b, c, rest);
      DecodeSlow(s, Varint(b) + (Varint(c) + rest), Varint(c) + rest, rest, a, b, c);
    }
  }

  lemma FitsWhole(d: Decoded, length: nat)
    requires d.nonShared + d.valueLength < TWO_32 && d.size + d.nonShared + d.valueLength <= length
    ensures Fitting(d, length) == Some(d)
  {
  }

  lemma DecodeFast(s: Bytes)
    requires |s| >= 3 && s[0] < 128 && s[1] < 128 && s[2] < 128
    ensures DecodeEntry(s) == Fitting(Decoded(s[0], s[1], s[2], 3), |s|)
  {
    hide Fitting;
  }

  lemma DecodeSlow(s: Bytes, t: Bytes, u: Bytes, v: Bytes, a: nat, b: nat, c: nat)
    requires |s| >= 3 && !(s[0] < 128 && s[1] < 128 && s[2] < 128)
    requires GetVarint32(s) == Some((a, t)) && GetVarint32(t) == Some((b, u)) && GetVarint32(u) == Some((c, v))
    requires |v| <= |s|
    ensures DecodeEntry(s) == Fitting(Decoded(a, b, c, |s| - |v|), |s|)
  {
    hide GetVarint32, Fitting;
  }

  // ------------------------------------------------------------------ a block in place

  /** Which entries a block holds, where each starts (and where the last ends), how much of its key
      each shares with the one before, and which are restart points. */
  datatype Layout = Layout(entries: seq<Pair>, starts: seq<nat>, shared: seq<nat>, heads: seq<nat>)

  ghost predicate Shares(l: Layout, i: nat)
    requires i < |l.entries| == |l.shared|
  {
    && l.shared[i] <= |l.entries[i].key|
    && (i == 0 ==> l.shared[i] == 0)
    && (i > 0 ==> l.shared[i] <= |l.entries[i - 1].key|
                  && l.entries[i - 1].key[..l.shared[i]] == l.entries[i].key[..l.shared[i]])
  }

  ghost predicate EntryAt(data: Bytes, l: Layout, i: nat)
    requires i < |l.entries| == |l.shared| && |l.starts| == |l.entries| + 1
  {
    && Shares(l, i)
    && l.starts[i] < l.starts[i + 1] <= |data|
    && data[l.starts[i]..l.starts[i + 1]] == EncodedEntry(l.shared[i], l.entries[i])
  }

  ghost predicate LaidOut(data: Bytes, l: Layout) {
    && |l.shared| == |l.entries| && |l.starts| == |l.entries| + 1
    && l.starts[0] == 0 && l.starts[|l.entries|] == |data| < TWO_32
    && forall i :: 0 <= i < |l.entries| ==> EntryAt(data, l, i)
  }

  /** Every restart offset is the start of an entry stored whole, the first of them entry 0. */
  ghost predicate RestartsHold(restarts: seq<nat>, l: Layout) {
    && |l.shared| == |l.entries| && |l.starts| == |l.entries| + 1
    && |restarts| == |l.heads| > 0 && l.heads[0] == 0
    && (l.entries == [] ==> restarts == [0])
    && (forall r :: 0 <= r < |l.heads| && l.entries != [] ==>
         l.heads[r] < |l.entries| && restarts[r] == l.starts[l.heads[r]] && l.shared[l.heads[r]] == 0)
    && (forall q, r :: 0 <= q < r < |l.heads| ==> l.heads[q] < l.heads[r])
  }

  lemma {:induction false} StartsAscend(data: Bytes, l: Layout, i: nat, j: nat)
    requires LaidOut(data, l) && i <= j <= |l.entries|
    ensures l.starts[i] <= l.starts[j] <= |data|
    ensures i < j ==> l.starts[i] < l.starts[j]
    decreases j
  {
    if i < j {
      assert EntryAt(data, l, j - 1);
      StartsAscend(data, l, i, j - 1);
    } else if j < |l.entries| {
      StartsWithin(data, l, j);
    }
  }

  lemma StartsWithin(data: Bytes, l: Layout, j: nat)
    requires LaidOut(data, l) && j <= |l.entries|
    ensures l.starts[j] <= |data|
  {
    if j < |l.entries| {
      assert EntryAt(data, l, j);
    }
  }

  // ------------------------------------------------------------------ the restart array

  type Word = n: int | 0 <= n < 0x1_0000_0000

  function Words(ns: seq<Word>): (bytes: Bytes)
    ensures |bytes| == 4 * |ns|
  {
    if ns == [] then [] else Words(ns[..|ns| - 1]) + Fixed32(ns[|ns| - 1])
  }

  lemma {:induction false} WordAt(ns: seq<Word>, i: nat)
    requires i < |ns|
    ensures Words(ns)[4 * i..4 * i + 4] == Fixed32(ns[i])
  {
    hide Fixed32;
    if i < |ns| - 1 {
      WordAt(ns[..|ns| - 1], i);
    }
  }

  /** A finished block: the entries, the restart offsets, and how many of those there are. */
  ghost predicate Finished(block: Bytes, data: Bytes, restarts: seq<Word>) {
    && |restarts| < TWO_32
    && block == data + Words(restarts) + Fixed32(|restarts|)
  }

  function NumRestarts(block: Bytes): nat
    requires |block| >= 4
  {
    DecodeFixed32(block[|block| - 4..])
  }

  function RestartOffset(block: Bytes): int
    requires |block| >= 4
  {
    |block| - (1 + NumRestarts(block)) * 4
  }

  lemma FinishedParts(block: Bytes, data: Bytes, restarts: seq<Word>)
    requires Finished(block, data, restarts)
    ensures |block| >= 4 && NumRestarts(block) == |restarts| && RestartOffset(block) == |data|
    ensures block[..|data|] == data
    ensures forall i :: 0 <= i < |restarts| ==> |data| + 4 * i + 4 <= |block|
                                                && DecodeFixed32(block[|data| + 4 * i..|data| + 4 * i + 4])
                                                   == restarts[i]
  {
    hide Fixed32, DecodeFixed32, Words;
    Fixed32RoundTrip(|restarts|);
    assert block[|block| - 4..] == Fixed32(|restarts|);
    forall i | 0 <= i < |restarts|
      ensures |data| + 4 * i + 4 <= |block| && DecodeFixed32(block[|data| + 4 * i..|data| + 4 * i + 4]) == restarts[i]
    {
      WordAt(restarts, i);
      Fixed32RoundTrip(restarts[i]);
      assert block[|data| + 4 * i..|data| + 4 * i + 4] == Words(restarts)[4 * i..4 * i + 4];
    }
  }
}
