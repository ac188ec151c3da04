/** The Bloom filter policy: keys put into a filter are never denied. */
module Bloom {
  import opened InternalKeys

  type Bytes = seq<Byte>

  const WORD: nat := 0x1_0000_0000

  // ------------------------------------------------------------------ bits in bytes

  function Weight(i: nat): (w: nat)
    requires i <= 8
    ensures w > 0
  {
    if i == 0 then 1 else 2 * Weight(i - 1)
  }

  function ShiftedRight(b: nat, i: nat): nat {
    if i == 0 then b else ShiftedRight(b / 2, i - 1)
  }

  predicate BitOf(b: Byte, i: nat)
    requires i < 8
  {
    ShiftedRight(b, i) % 2 == 1
  }

  function WithBit(b: Byte, i: nat): Byte
    requires i < 8
  {
    if BitOf(b, i) then b
    else
      FreeWeight(b, i, 8);
      TopWeight();
      b + Weight(i)
  }

  lemma TopWeight()
    ensures Weight(8) == 256
  {
    assert Weight(4) == 16;
  }

  /** Setting a clear bit stays within the byte. */
  lemma {:induction false} FreeWeight(b: nat, i: nat, n: nat)
    requires i < n <= 8 && ShiftedRight(b, i) % 2 == 0 && b < Weight(n)
    ensures b + Weight(i) < Weight(n)
  {
    if i > 0 {
      FreeWeight(b / 2, i - 1, n - 1);
    }
  }

  lemma {:induction false} AddKeeps(b: nat, i: nat, j: nat)
    requires i < 8 && j < 8 && ShiftedRight(b, i) % 2 == 0
    ensures ShiftedRight(b + Weight(i), i) % 2 == 1
    ensures j != i ==> ShiftedRight(b + Weight(i), j) % 2 == ShiftedRight(b, j) % 2
  {
    if i > 0 {
      AddKeeps(b / 2, i - 1, if j > 0 then j - 1 else 0);
      assert (b + Weight(i)) / 2 == b / 2 + Weight(i - 1);
    } else if j > 0 {
      assert (b + 1) / 2 == b / 2;
    }
  }

  /** Setting a bit sets it and leaves the others alone. */
  lemma WithBitKeeps(b: Byte, i: nat, j: nat)
    requires i < 8 && j < 8
    ensures BitOf(WithBit(b, i), j) <==> j == i || BitOf(b, j)
  {
    if !BitOf(b, i) {
      AddKeeps(b, i, j);
      hide Weight;
    }
  }

  predicate BitAt(field: Bytes, pos: nat)
    requires pos < 8 * |field|
  {
    BitOf(field[pos / 8], pos % 8)
  }

  function SetAt(field: Bytes, pos: nat): (r: Bytes)
    requires pos < 8 * |field|
    ensures |r| == |field|
  {
    field[pos / 8 := WithBit(field[pos / 8], pos % 8)]
  }

  lemma SetAtKeeps(field: Bytes, pos: nat, other: nat)
    requires pos < 8 * |field| && other < 8 * |field|
    ensures BitAt(SetAt(field, pos), other) <==> other == pos || BitAt(field, other)
  {
    hide BitOf, WithBit;
    WithBitKeeps(field[pos / 8], pos % 8, other % 8);
    assert other == pos <==> other / 8 == pos / 8 && other % 8 == pos % 8;
  }

  // ------------------------------------------------------------------ probing

  /** The hash rotated right by 17 bits. */
  function Delta(h: nat): nat {
    h / 0x2_0000 % 0x8000 + h % 0x2_0000 * 0x8000
  }

  /** A rotation by 15 to the left is a multiplication, but for multiples of the largest word. */
  lemma DeltaRotates(h: nat)
    requires h < WORD
    ensures h * 0x8000 == Delta(h) + h / 0x2_0000 * (WORD - 1)
  {
  }

  /** The state of the hash after j steps of double hashing. */
  function HashAfter(h: nat, j: nat): nat {
    if j == 0 then h else (HashAfter(h, j - 1) + Delta(h)) % WORD
  }

  ghost predicate Probed(field: Bytes, h: nat, k: nat) {
    |field| > 0 && forall j: nat :: j < k ==> BitAt(field, HashAfter(h, j) % (8 * |field|))
  }

  /** One of the first k probes of the hash falls on this bit, in a field of so many bits. */
  ghost predicate FallsOn(h: nat, k: nat, bits: nat, pos: nat) {
    bits > 0 && exists j: nat :: j < k && HashAfter(h, j) % bits == pos
  }

  class BloomFilterPolicy {
    const bitsPerKey: nat
    const k: nat
    /** Any function of the key will do. */
    const hash: Bytes -> nat

    ghost predicate Valid() {
      1 <= k <= 30 && forall key :: hash(key) < WORD
    }

    constructor (bitsPerKey: nat, hash: Bytes -> nat)
      requires forall key :: hash(key) < WORD
      ensures Valid() && this.hash == hash && this.bitsPerKey == bitsPerKey
      ensures k > 1 ==> k as real <= bitsPerKey as real * 0.69
      ensures k < 30 ==> bitsPerKey as real * 0.69 < (k + 1) as real
    {
      var probes := (bitsPerKey as real * 0.69).Floor;
      this.bitsPerKey, this.hash := bitsPerKey, hash;
      k := if probes < 1 then 1 else if probes > 30 then 30 else probes;
    }

    /** A filter made by this policy answers yes for this key. */
    ghost predicate Admits(filter: Bytes, key: Bytes) {
      |filter| >= 2 && filter[|filter| - 1] == k && Probed(filter[..|filter| - 1], hash(key), k)
    }

    /** How many bytes of bits a filter of so many keys has. */
    function FieldSize(keys: nat): (n: nat)
      ensures n >= 8
    {
      (if keys * bitsPerKey < 64 then 64 else keys * bitsPerKey + 7) / 8
    }

    /** Some key's probes fall on this bit. */
    ghost predicate SetBySome(keys: seq<Bytes>, bits: nat, pos: nat) {
      exists i :: 0 <= i < |keys| && FallsOn(hash(keys[i]), k, bits, pos)
    }

    /** A bit of the field is set exactly if some key's probes fall on it. */
    ghost predicate FieldOf(field: Bytes, keys: seq<Bytes>) {
      forall pos :: 0 <= pos < 8 * |field| ==> (BitAt(field, pos) <==> SetBySome(keys, 8 * |field|, pos))
    }

    /** The filter of these keys: the bits they set, and the number of probes. */
    ghost predicate IsFilterOf(filter: Bytes, keys: seq<Bytes>) {
      && |filter| == FieldSize(|keys|) + 1 && filter[|filter| - 1] == k
      && FieldOf(filter[..|filter| - 1], keys)
    }

    method CreateFilter(keys: seq<Bytes>) returns (filter: Bytes)
      requires Valid()
      ensures IsFilterOf(filter, keys)
      ensures forall key :: key in keys ==> Admits(filter, key)
    {
      hide FieldOf, Admits, FallsOn;
      var bits := |keys| * bitsPerKey;
      if bits < 64 {
        bits := 64;
      }
      var bytes := (bits + 7) / 8;
      bits := bytes * 8;
      var field: Bytes := seq(bytes, _ => 0);
      NoBitsSet(bytes);
      for i := 0 to |keys|
        invariant |field| == bytes && FieldOf(field, keys[..i])
      {
        assert keys[..i + 1] == keys[..i] + [keys[i]];
        field := AddProbes(field, hash(keys[i]), keys[..i], keys[i]);
      }
      assert keys[..|keys|] == keys;
      filter := field + [k];
      assert filter[..|filter| - 1] == field;
      forall key | key in keys
        ensures Admits(filter, key)
      {
        FilterAdmits(filter, keys, key);
      }
    }

    lemma NoBitsSet(bytes: nat)
      ensures FieldOf(seq(bytes, _ => 0), [])
    {
      forall pos | 0 <= pos < 8 * bytes
        ensures !BitOf(0, pos % 8)
      {
        ZeroHasNoBits(pos % 8);
      }
    }

    static lemma {:induction false} ZeroHasNoBits(i: nat)
      requires i < 8
      ensures !BitOf(0, i)
    {
      if i > 0 {
        ZeroHasNoBits(i - 1);
      }
    }

    method AddProbes(field: Bytes, hashed: nat, ghost keys: seq<Bytes>, ghost key: Bytes) returns (r: Bytes)
      requires Valid() && |field| > 0 && FieldOf(field, keys) && hashed == hash(key)
      ensures |r| == |field| && FieldOf(r, keys + [key])
    {
      hide Delta, BitAt, SetAt, FieldOf, FallsOn;
      var bits := 8 * |field|;
      var h, delta := hashed, Delta(hashed);
      r := field;
      NoProbeYet(hashed, bits);
      for j := 0 to k
        invariant |r| == |field| && h == HashAfter(hashed, j)
        invariant forall pos :: 0 <= pos < bits ==>
                    (BitAt(r, pos) <==> BitAt(field, pos) || FallsOn(hashed, j, bits, pos))
      {
        var bitpos := h % bits;
        forall pos | 0 <= pos < bits
          ensures BitAt(SetAt(r, bitpos), pos) <==> BitAt(field, pos) || FallsOn(hashed, j + 1, bits, pos)
        {
          SetAtKeeps(r, bitpos, pos);
          OneMoreProbe(hashed, j, bits, pos);
        }
        r := SetAt(r, bitpos);
        h := (h + delta) % WORD;
      }
      KeyAdded(field, r, keys, key);
    }

    static lemma NoProbeYet(h: nat, bits: nat)
      ensures forall pos :: !FallsOn(h, 0, bits, pos)
    {
    }

    static lemma OneMoreProbe(h: nat, j: nat, bits: nat, pos: nat)
      requires bits > 0
      ensures FallsOn(h, j + 1, bits, pos) <==> FallsOn(h, j, bits, pos) || pos == HashAfter(h, j) % bits
    {
      hide HashAfter;
      if FallsOn(h, j + 1, bits, pos) {
        var i: nat :| i < j + 1 && HashAfter(h, i) % bits == pos;
        assert i == j || i < j;
      }
    }

    lemma KeyAdded(field: Bytes, r: Bytes, keys: seq<Bytes>, key: Bytes)
      requires FieldOf(field, keys) && |r| == |field|
      requires forall pos :: 0 <= pos < 8 * |field| ==>
                 (BitAt(r, pos) <==> BitAt(field, pos) || FallsOn(hash(key), k, 8 * |field|, pos))
      ensures FieldOf(r, keys + [key])
    {
      hide BitAt, FallsOn;
      var more := keys + [key];
      forall pos | 0 <= pos < 8 * |field|
        ensures SetBySome(more, 8 * |field|, pos)
                <==> SetBySome(keys, 8 * |field|, pos) || FallsOn(hash(key), k, 8 * |field|, pos)
      {
        if SetBySome(keys, 8 * |field|, pos) {
          var i :| 0 <= i < |keys| && FallsOn(hash(keys[i]), k, 8 * |field|, pos);
          assert more[i] == keys[i];
        }
        assert more[|keys|] == key;
      }
    }

    lemma FilterAdmits(filter: Bytes, keys: seq<Bytes>, key: Bytes)
      requires IsFilterOf(filter, keys) && key in keys
      ensures Admits(filter, key)
    {
      hide BitAt, HashAfter;
      var field := filter[..|filter| - 1];
      var i :| 0 <= i < |keys| && keys[i] == key;
      forall j: nat | j < k
        ensures BitAt(field, HashAfter(hash(key), j) % (8 * |field|))
      {
        assert FallsOn(hash(keys[i]), k, 8 * |field|, HashAfter(hash(key), j) % (8 * |field|));
        assert SetBySome(keys, 8 * |field|, HashAfter(hash(key), j) % (8 * |field|));
      }
    }

    /** All the key's probes fall on bits that these keys set. */
    ghost predicate MayHold(keys: seq<Bytes>, key: Bytes) {
      forall j: nat :: j < k ==>
        SetBySome(keys, 8 * FieldSize(|keys|), HashAfter(hash(key), j) % (8 * FieldSize(|keys|)))
    }

    /** A filter answers yes for its own keys, and for others only if all their probes collide. */
    lemma MatchesExactly(filter: Bytes, keys: seq<Bytes>, key: Bytes)
      requires Valid() && IsFilterOf(filter, keys)
      ensures Matches(filter, key) <==> MayHold(keys, key)
    {
      hide BitAt, HashAfter, SetBySome;
      var field := filter[..|filter| - 1];
      assert forall j: nat :: j < k ==> (BitAt(field, HashAfter(hash(key), j) % (8 * |field|))
                                         <==> SetBySome(keys, 8 * |field|, HashAfter(hash(key), j) % (8 * |field|)));
    }

    lemma OwnKeysMayHold(keys: seq<Bytes>, key: Bytes)
      requires key in keys
      ensures MayHold(keys, key)
    {
      hide HashAfter;
      var i :| 0 <= i < |keys| && keys[i] == key;
      var bits := 8 * FieldSize(|keys|);
      forall j: nat | j < k
        ensures SetBySome(keys, bits, HashAfter(hash(key), j) % bits)
      {
        assert FallsOn(hash(keys[i]), k, bits, HashAfter(hash(key), j) % bits);
      }
    }

    /** Too short a filter matches nothing; an encoding not known here matches everything. */
    ghost predicate Matches(filter: Bytes, key: Bytes) {
      |filter| >= 2 && (filter[|filter| - 1] > 30 || Probed(filter[..|filter| - 1], hash(key), filter[|filter| - 1]))
    }

    method KeyMayMatch(key: Bytes, filter: Bytes) returns (may: bool)
      requires Valid()
      ensures may == Matches(filter, key)
    {
      hide BitAt, Delta;
      if |filter| < 2 {
        return false;
      }
      var field, probes := filter[..|filter| - 1], filter[|filter| - 1];
      var bits := (|filter| - 1) * 8;
      if probes > 30 {
        return true;
      }
      var h, delta := hash(key), Delta(hash(key));
      for j := 0 to probes
        invariant h == HashAfter(hash(key), j) && Probed(field, hash(key), j)
      {
        var bitpos := h % bits;
        if !BitAt(field, bitpos) {
          return false;
        }
        h := (h + delta) % WORD;
      }
      return true;
    }

    /** No false negatives. */
    lemma AdmittedMatches(filter: Bytes, key: Bytes)
      requires Valid() && Admits(filter, key)
      ensures Matches(filter, key)
    {
    }
  }
}
