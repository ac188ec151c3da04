/** CRC-32C as the log uses it: extendable, and masked for storage. */
module Crc32c {
  import opened InternalKeys

  const POLYNOMIAL: bv32 := 0x82f63b78
  const XOR: bv32 := 0xffffffff
  const MASK_DELTA: bv32 := 0xa282ead8

  /** One table entry: eight rounds of the reversed polynomial (section 12.1 of RFC 3720). */
  function TableEntry(c: bv32, rounds: nat): bv32
    decreases rounds
  {
    if rounds == 0 then c
    else TableEntry(if c & 1 == 1 then (c >> 1) ^ POLYNOMIAL else c >> 1, rounds - 1)
  }

  function Round(c: bv32): bv32 {
    if c & 1 == 1 then (c >> 1) ^ POLYNOMIAL else c >> 1
  }

  predicate Odd(a: bv32) {
    a & 1 == 1
  }

  function Half(c: bv32): bv32 {
    c >> 1
  }

  function Plus(a: bv32, b: bv32): bv32 {
    a ^ b
  }

  lemma HalfOfSum(a: bv32, b: bv32)
    ensures Half(Plus(a, b)) == Plus(Half(a), Half(b))
  {
  }

  lemma OddSum(a: bv32, b: bv32)
    ensures Odd(Plus(a, b)) <==> Odd(a) != Odd(b)
  {
  }

  lemma PlusEither(x: bv32, y: bv32)
    ensures Plus(x, y) == Plus(y, x)
  {
  }

  lemma PlusSecond(x: bv32, y: bv32, p: bv32)
    ensures Plus(x, Plus(y, p)) == Plus(Plus(x, y), p)
  {
  }

  lemma PlusTwice(x: bv32, p: bv32)
    ensures Plus(Plus(x, p), p) == x
  {
  }

  lemma SumsWith(x: bv32, y: bv32, p: bv32)
    ensures Plus(Plus(x, p), Plus(y, p)) == Plus(x, y)
    ensures Plus(Plus(x, p), y) == Plus(Plus(x, y), p) && Plus(x, Plus(y, p)) == Plus(Plus(x, y), p)
  {
    hide *;
    PlusSecond(x, y, p);
    PlusSecond(y, x, p);
    PlusEither(Plus(x, p), y);
    PlusEither(x, y);
    PlusSecond(Plus(x, p), y, p);
    PlusTwice(Plus(x, y), p);
  }

  lemma RoundParts(c: bv32)
    ensures Round(c) == if Odd(c) then Plus(Half(c), POLYNOMIAL) else Half(c)
  {
  }

  lemma RoundOfSum(a: bv32, b: bv32)
    ensures Round(Plus(a, b)) == Plus(Round(a), Round(b))
  {
    hide *;
    HalfOfSum(a, b);
    OddSum(a, b);
    SumsWith(Half(a), Half(b), POLYNOMIAL);
    RoundParts(Plus(a, b));
    RoundParts(a);
    RoundParts(b);
  }

  lemma {:induction false} TableEntryNext(c: bv32, n: nat)
    requires n > 0
    ensures TableEntry(c, n) == TableEntry(Round(c), n - 1)
  {
  }

  /** The table's entry of a sum is the sum of the entries, so eight of them determine all 256. */
  lemma {:induction false} TableIsLinear(a: bv32, b: bv32, n: nat)
    ensures TableEntry(Plus(a, b), n) == Plus(TableEntry(a, n), TableEntry(b, n))
    decreases n
  {
    if n > 0 {
      TableEntryNext(Plus(a, b), n);
      TableEntryNext(a, n);
      TableEntryNext(b, n);
      RoundOfSum(a, b);
      hide Round, TableEntry, Plus;
      TableIsLinear(Round(a), Round(b), n - 1);
    } else {
      NoRounds(Plus(a, b));
      NoRounds(a);
      NoRounds(b);
      hide TableEntry, Plus;
    }
  }

  lemma NoRounds(c: bv32)
    ensures TableEntry(c, 0) == c
  {
  }

  lemma Rounds(c: bv32)
    ensures TableEntry(c, 8) == Round(Round(Round(Round(Round(Round(Round(Round(c))))))))
  {
    hide *;
    NoRounds(Round(Round(Round(Round(Round(Round(Round(Round(c)))))))));
    TableEntryNext(c, 8);
    TableEntryNext(Round(c), 7);
    TableEntryNext(Round(Round(c)), 6);
    TableEntryNext(Round(Round(Round(c))), 5);
    TableEntryNext(Round(Round(Round(Round(c)))), 4);
    TableEntryNext(Round(Round(Round(Round(Round(c))))), 3);
    TableEntryNext(Round(Round(Round(Round(Round(Round(c)))))), 2);
    TableEntryNext(Round(Round(Round(Round(Round(Round(Round(c))))))), 1);
  }

  /** Those eight, as the source's table has them. */
  lemma TableEntries()
    ensures TableEntry(1, 8) == 0xf26b8303 && TableEntry(2, 8) == 0xe13b70f7
    ensures TableEntry(4, 8) == 0xc79a971f && TableEntry(8, 8) == 0x8ad958cf
    ensures TableEntry(16, 8) == 0x105ec76f && TableEntry(32, 8) == 0x20bd8ede
    ensures TableEntry(64, 8) == 0x417b1dbc && TableEntry(128, 8) == 0x82f63b78
  {
    Rounds(1);
    Rounds(2);
    Rounds(4);
    Rounds(8);
    Rounds(16);
    Rounds(32);
    Rounds(64);
    Rounds(128);
    hide TableEntry;
  }

  function StepByte(l: bv32, b: Byte): bv32 {
    TableEntry((l ^ (b as bv32)) & 0xff, 8) ^ (l >> 8)
  }

  function Fold(l: bv32, data: seq<Byte>): bv32 {
    if data == [] then l else StepByte(Fold(l, data[..|data| - 1]), data[|data| - 1])
  }

  /** Inverts every bit, on the way in and on the way out. */
  function Flip(l: bv32): bv32 {
    l ^ XOR
  }

  function Extend(crc: bv32, data: seq<Byte>): bv32 {
    Flip(Fold(Flip(crc), data))
  }

  function Value(data: seq<Byte>): bv32 {
    Extend(0, data)
  }

  function Mask(crc: bv32): bv32 {
    ((crc >> 15) | (crc << 17)) + MASK_DELTA
  }

  function Unmask(masked: bv32): bv32 {
    var rot := masked - MASK_DELTA;
    (rot >> 17) | (rot << 15)
  }

  /** Masking exchanges the low fifteen bits with the others and adds a constant. */
  lemma MaskExchanges(high: bv32, low: bv32)
    requires high < 0x20000 && low < 0x8000
    ensures Mask((high << 15) | low) == ((low << 17) | high) + 0xa282ead8
  {
  }

  lemma UnmaskMask(crc: bv32)
    ensures Unmask(Mask(crc)) == crc
  {
  }

  lemma MaskUnmask(masked: bv32)
    ensures Mask(Unmask(masked)) == masked
  {
  }

  lemma FlipTwice(l: bv32)
    ensures Flip(Flip(l)) == l
  {
  }

  lemma {:induction false} FoldConcat(l: bv32, a: seq<Byte>, b: seq<Byte>)
    ensures Fold(Fold(l, a), b) == Fold(l, a + b)
  {
    hide StepByte;
    if b == [] {
      assert a + b == a;
    } else {
      FoldConcat(l, a, b[..|b| - 1]);
      assert (a + b)[..|a + b| - 1] == a + b[..|b| - 1];
    }
  }

  /** The checksum of a concatenation can be computed piece by piece. */
  lemma ExtendExtend(crc: bv32, a: seq<Byte>, b: seq<Byte>)
    ensures Extend(Extend(crc, a), b) == Extend(crc, a + b)
  {
    hide Fold, Flip;
    FlipTwice(Fold(Flip(crc), a));
    FoldConcat(Flip(crc), a, b);
  }
}
