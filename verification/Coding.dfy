/** Fixed-width and variable-width integer encodings. */
module Coding {
  import opened Options
  import opened InternalKeys

  function Fixed32(n: nat): (bytes: seq<Byte>)
    requires n < 0x1_0000_0000
    ensures |bytes| == 4
  {
    [n % 0x100, n / 0x100 % 0x100, n / 0x1_0000 % 0x100, n / 0x100_0000]
  }

  /** The lowest byte first. */
  lemma Fixed32Digits(n: nat)
    requires n < 0x1_0000_0000
    ensures var b: seq<int> := Fixed32(n); b[3] * 0x100_0000 + b[2] * 0x1_0000 + b[1] * 0x100 + b[0] == n
  {
    Fixed32RoundTrip(n);
  }

  function DecodeFixed32(bytes: seq<Byte>): (n: nat)
    requires |bytes| == 4
    ensures n < 0x1_0000_0000
  {
    var b: seq<int> := bytes;
    b[0] + b[1] * 0x100 + b[2] * 0x1_0000 + b[3] * 0x100_0000
  }

  lemma Fixed32RoundTrip(n: nat)
    requires n < 0x1_0000_0000
    ensures DecodeFixed32(Fixed32(n)) == n
  {
    var a, b, c := n / 0x100, n / 0x1_0000, n / 0x100_0000;
    assert b == a / 0x100 && c == b / 0x100;
  }

  function ByteOfBits(x: bv8): Byte {
    x as nat
  }

  lemma NextBits(x: bv8)
    requires x != 0xff
    ensures ByteOfBits(x + 1) == ByteOfBits(x) + 1
  {
  }

  lemma SameBits(x: bv8, y: bv8)
    requires ByteOfBits(x) == ByteOfBits(y)
    ensures x == y
  {
  }

  /** The bits of a byte, found by counting up to it. */
  function BitsOfByte(b: Byte): (x: bv8)
    ensures ByteOfBits(x) == b
  {
    if b == 0 then 0
    else
      NextBits(BitsOfByte(b - 1));
      BitsOfByte(b - 1) + 1
  }

  function LowBits(w: bv32): bv8 {
    (w & 0xff) as bv8
  }

  function Widened(x: bv8): (w: bv32)
    ensures w & 0xff == w && LowBits(w) == x
  {
    x as bv32
  }

  lemma LowBitsWidened(w: bv32)
    ensures Widened(LowBits(w)) == w & 0xff
  {
  }

  /** The lowest eight bits of a word, as a byte. */
  function LowByte(w: bv32): Byte {
    ByteOfBits(LowBits(w))
  }

  function WordOfByte(b: Byte): bv32 {
    Widened(BitsOfByte(b))
  }

  lemma ByteOfWord(b: Byte)
    ensures LowByte(WordOfByte(b)) == b
  {
    hide LowBits, Widened;
  }

  lemma WordOfLowByte(w: bv32)
    ensures WordOfByte(LowByte(w)) == w & 0xff
  {
    LowBitsWidened(w);
    SameBits(LowBits(w), BitsOfByte(LowByte(w)));
    hide LowBits, Widened, ByteOfBits, BitsOfByte;
  }

  /** The k-th byte of a word, still as a word. */
  function Digit(w: bv32, k: nat): bv32 {
    if k == 0 then w & 0xff else if k == 1 then (w >> 8) & 0xff else if k == 2 then (w >> 16) & 0xff else w >> 24
  }

  /** A word as four bytes, the lowest first. */
  function FixedWord(w: bv32): (bytes: seq<Byte>)
    ensures |bytes| == 4
  {
    [LowByte(Digit(w, 0)), LowByte(Digit(w, 1)), LowByte(Digit(w, 2)), LowByte(Digit(w, 3))]
  }

  function DecodeWord(bytes: seq<Byte>): bv32
    requires |bytes| == 4
  {
    Joined(WordOfByte(bytes[0]), WordOfByte(bytes[1]), WordOfByte(bytes[2]), WordOfByte(bytes[3]))
  }

  function Joined(a: bv32, b: bv32, c: bv32, d: bv32): bv32 {
    a | (b << 8) | (c << 16) | (d << 24)
  }

  predicate IsDigit(w: bv32) {
    w & 0xff == w
  }

  lemma JoinedDigits(w: bv32)
    ensures Joined(Digit(w, 0), Digit(w, 1), Digit(w, 2), Digit(w, 3)) == w
    ensures IsDigit(Digit(w, 0)) && IsDigit(Digit(w, 1)) && IsDigit(Digit(w, 2)) && IsDigit(Digit(w, 3))
  {
  }

  lemma DigitsOfJoined(a: bv32, b: bv32, c: bv32, d: bv32)
    requires IsDigit(a) && IsDigit(b) && IsDigit(c) && IsDigit(d)
    ensures var w := Joined(a, b, c, d); Digit(w, 0) == a && Digit(w, 1) == b && Digit(w, 2) == c && Digit(w, 3) == d
  {
  }

  lemma DigitBack(w: bv32)
    requires IsDigit(w)
    ensures WordOfByte(LowByte(w)) == w
  {
    WordOfLowByte(w);
    hide WordOfByte, LowByte;
  }

  lemma WordOfByteIsDigit(b: Byte)
    ensures IsDigit(WordOfByte(b)) && LowByte(WordOfByte(b)) == b
  {
    ByteOfWord(b);
    hide LowByte;
  }

  lemma WordRoundTrip(w: bv32)
    ensures DecodeWord(FixedWord(w)) == w
  {
    hide WordOfByte, LowByte, Joined, Digit, IsDigit;
    JoinedDigits(w);
    DigitBack(Digit(w, 0));
    DigitBack(Digit(w, 1));
    DigitBack(Digit(w, 2));
    DigitBack(Digit(w, 3));
  }

  lemma WordOfDecoded(bytes: seq<Byte>)
    requires |bytes| == 4
    ensures FixedWord(DecodeWord(bytes)) == bytes
  {
    hide WordOfByte, LowByte, Joined, Digit, IsDigit;
    WordOfByteIsDigit(bytes[0]);
    WordOfByteIsDigit(bytes[1]);
    WordOfByteIsDigit(bytes[2]);
    WordOfByteIsDigit(bytes[3]);
    DigitsOfJoined(WordOfByte(bytes[0]), WordOfByte(bytes[1]), WordOfByte(bytes[2]), WordOfByte(bytes[3]));
  }

  const TWO_32: nat := 0x1_0000_0000
  const TWO_64: nat := 0x1_0000_0000_0000_0000

  function Fixed64(n: nat): (bytes: seq<Byte>)
    requires n < TWO_64
    ensures |bytes| == 8
  {
    Fixed32(n % TWO_32) + Fixed32(n / TWO_32)
  }

  function DecodeFixed64(bytes: seq<Byte>): (n: nat)
    requires |bytes| == 8
    ensures n < TWO_64
  {
    DecodeFixed32(bytes[..4]) + DecodeFixed32(bytes[4..]) * TWO_32
  }

  lemma Fixed64RoundTrip(n: nat)
    requires n < TWO_64
    ensures DecodeFixed64(Fixed64(n)) == n
  {
    Fixed32RoundTrip(n % TWO_32);
    Fixed32RoundTrip(n / TWO_32);
    assert Fixed64(n)[..4] == Fixed32(n % TWO_32) && Fixed64(n)[4..] == Fixed32(n / TWO_32);
    hide Fixed32, DecodeFixed32;
  }

  // ------------------------------------------------------------------ varints

  /** Seven bits a byte, least significant first; the high bit says that more follow. */
  function Varint(v: nat): (bytes: seq<Byte>)
    ensures |bytes| > 0
  {
    if v < 128 then [v] else [v % 128 + 128] + Varint(v / 128)
  }

  function Power128(n: nat): nat {
    if n == 0 then 1 else 128 * Power128(n - 1)
  }

  /** No more bytes than the value needs: n of them hold exactly the values below 128 to the n. */
  lemma {:induction false} VarintLength(v: nat, n: nat)
    requires n > 0
    ensures |Varint(v)| <= n <==> v < Power128(n)
    decreases v
  {
    if v >= 128 {
      if n == 1 {
        assert Power128(1) == 128 * Power128(0);
      } else {
        VarintLength(v / 128, n - 1);
      }
    } else {
      AtLeast128(n);
    }
  }

  lemma {:induction false} AtLeast128(n: nat)
    requires n > 0
    ensures Power128(n) >= 128
  {
    if n > 1 {
      AtLeast128(n - 1);
    }
  }

  /** The unrolled 32-bit encoder. */
  function EncodeVarint32(v: nat): (bytes: seq<Byte>)
    requires v < TWO_32
    ensures |bytes| <= 5
  {
    if v < 0x80 then [v]
    else if v < 0x4000 then [v % 128 + 128, v / 0x80]
    else if v < 0x20_0000 then [v % 128 + 128, v / 0x80 % 128 + 128, v / 0x4000]
    else if v < 0x1000_0000 then [v % 128 + 128, v / 0x80 % 128 + 128, v / 0x4000 % 128 + 128, v / 0x20_0000]
    else [v % 128 + 128, v / 0x80 % 128 + 128, v / 0x4000 % 128 + 128, v / 0x20_0000 % 128 + 128, v / 0x1000_0000]
  }

  lemma EncodeVarint32IsVarint(v: nat)
    requires v < TWO_32
    ensures EncodeVarint32(v) == Varint(v)
  {
    var a, b, c, d := v / 0x80, v / 0x4000, v / 0x20_0000, v / 0x1000_0000;
    assert b == a / 128 && c == b / 128 && d == c / 128;
    assert Varint(d) == [d];
    assert v >= 0x1000_0000 ==> Varint(c) == [c % 128 + 128] + Varint(d);
    assert v >= 0x20_0000 ==> Varint(b) == [b % 128 + 128] + Varint(c);
    assert v >= 0x4000 ==> Varint(a) == [a % 128 + 128] + Varint(b);
  }

  method EncodeVarint64(value: nat) returns (bytes: seq<Byte>)
    requires value < TWO_64
    ensures bytes == Varint(value)
  {
    var v := value;
    bytes := [];
    while v >= 128
      invariant bytes + Varint(v) == Varint(value)
    {
      bytes := bytes + [v % 128 + 128];
      v := v / 128;
    }
    bytes := bytes + [v];
  }

  function PowerOfTwo(n: nat): (p: nat)
    ensures p > 0
  {
    if n == 0 then 1 else 2 * PowerOfTwo(n - 1)
  }

  /** Seven bits moved into place; what does not fit the width is cut off. */
  function Shifted(bits: nat, scale: nat, width: nat): nat
    requires width > 0
  {
    bits * scale % width
  }

  /** Reads at most `groups` bytes; bits beyond the width are dropped. */
  function DecodeVarint(s: seq<Byte>, groups: nat, scale: nat, width: nat, sum: nat): (r: Option<(nat, seq<Byte>)>)
    requires width > 0
    ensures r.Some? ==> |r.value.1| < |s|
  {
    if groups == 0 || s == [] then None
    else if s[0] >= 128 then DecodeVarint(s[1..], groups - 1, scale * 128, width,
      sum + Shifted(s[0] - 128, scale, width))
    else Some((sum + Shifted(s[0], scale, width), s[1..]))
  }

  function GetVarint32(s: seq<Byte>): (r: Option<(nat, seq<Byte>)>)
    ensures r.Some? ==> |r.value.1| < |s|
  {
    DecodeVarint(s, 5, 1, TWO_32, 0)
  }

  function GetVarint64(s: seq<Byte>): (r: Option<(nat, seq<Byte>)>)
    ensures r.Some? ==> |r.value.1| < |s|
  {
    DecodeVarint(s, 10, 1, TWO_64, 0)
  }

  lemma SplitScaled(high: nat, low: nat, scale: nat)
    ensures (high * 128 + low) * scale == high * (scale * 128) + low * scale
    ensures 0 <= low * scale && 0 <= high * (scale * 128)
  {
    assert (high * 128 + low) * scale == high * 128 * scale + low * scale;
  }

  lemma ShiftedFits(bits: nat, scale: nat, width: nat)
    requires bits * scale < width
    ensures Shifted(bits, scale, width) == bits * scale
  {
  }

  lemma {:induction false} DecodeEncoded(v: nat, rest: seq<Byte>, groups: nat, scale: nat, width: nat, sum: nat)
    requires groups > 0 && v < Power128(groups) && v * scale < width && width > 0
    ensures DecodeVarint(Varint(v) + rest, groups, scale, width, sum) == Some((sum + v * scale, rest))
    decreases v
  {
    hide Shifted;
    var s := Varint(v) + rest;
    if v < 128 {
      assert s[1..] == rest;
      ShiftedFits(v, scale, width);
    } else {
      var low, high := v % 128, v / 128;
      SplitScaled(high, low, scale);
      assert s[1..] == Varint(high) + rest;
      ShiftedFits(low, scale, width);
      DecodeEncoded(high, rest, groups - 1, scale * 128, width, sum + low * scale);
    }
  }

  lemma Varint32RoundTrip(v: nat, rest: seq<Byte>)
    requires v < TWO_32
    ensures GetVarint32(Varint(v) + rest) == Some((v, rest))
  {
    assert Power128(5) == 128 * (128 * (128 * (128 * (128 * Power128(0)))));
    DecodeEncoded(v, rest, 5, 1, TWO_32, 0);
  }

  lemma Varint64RoundTrip(v: nat, rest: seq<Byte>)
    requires v < TWO_64
    ensures GetVarint64(Varint(v) + rest) == Some((v, rest))
  {
    assert Power128(5) == 128 * (128 * (128 * (128 * (128 * Power128(0)))));
    assert Power128(10) == 128 * (128 * (128 * (128 * (128 * Power128(5)))));
    DecodeEncoded(v, rest, 10, 1, TWO_64, 0);
  }

  /** The decoder's loop, over a cursor into the input. */
  lemma OneMoreByte(s: seq<Byte>, p: nat, groups: nat, scale: nat, width: nat, sum: nat)
    requires p < |s| && groups > 0 && width > 0
    ensures DecodeVarint(s[p..], groups, scale, width, sum)
            == if s[p] >= 128 then DecodeVarint(s[p + 1..], groups - 1, scale * 128, width,
                 sum + Shifted(s[p] - 128, scale, width))
               else Some((sum + Shifted(s[p], scale, width), s[p + 1..]))
  {
    hide Shifted;
    assert s[p..][0] == s[p] && s[p..][1..] == s[p + 1..];
  }

  lemma NoGroups(s: seq<Byte>)
    ensures forall p: nat, groups: nat, scale: nat, sum: nat :: p <= |s| && (groups == 0 || p == |s|) ==>
              DecodeVarint(s[p..], groups, scale, TWO_32, sum) == None
  {
  }

  method ReadVarint32(s: seq<Byte>) returns (r: Option<(nat, seq<Byte>)>)
    ensures r == GetVarint32(s)
  {
    hide Shifted;
    var result: nat, p, shift, scale: nat := 0, 0, 0, 1;
    assert s[0..] == s && DecodeVarint(s, 5, 1, TWO_32, 0) == GetVarint32(s);
    hide GetVarint32, DecodeVarint;
    NoGroups(s);
    while shift <= 28 && p < |s|
      invariant p <= |s| && p <= 5 && shift == p * 7
      invariant DecodeVarint(s[p..], 5 - p, scale, TWO_32, result) == GetVarint32(s)
    {
      var byte := s[p];
      OneMoreByte(s, p, 5 - p, scale, TWO_32, result);
      p := p + 1;
      if byte >= 128 {
        result := result + Shifted(byte - 128, scale, TWO_32);
      } else {
        return Some((result + Shifted(byte, scale, TWO_32), s[p..]));
      }
      shift, scale := shift + 7, scale * 128;
    }
    r := None;
  }

  // ------------------------------------------------------------------ length-prefixed strings

  function LengthPrefixed(s: seq<Byte>): seq<Byte> {
    Varint(|s|) + s
  }

  function GetLengthPrefixed(s: seq<Byte>): (r: Option<(seq<Byte>, seq<Byte>)>)
    ensures r.Some? ==> |r.value.1| < |s|
  {
    match GetVarint32(s)
    case None => None
    case Some(read) =>
      var n, rest := read.0, read.1;
      if n <= |rest| then Some((rest[..n], rest[n..])) else None
  }

  lemma LengthPrefixedRoundTrip(s: seq<Byte>, rest: seq<Byte>)
    requires |s| < TWO_32
    ensures GetLengthPrefixed(LengthPrefixed(s) + rest) == Some((s, rest))
  {
    hide GetVarint32, Varint;
    assert LengthPrefixed(s) + rest == Varint(|s|) + (s + rest);
    Varint32RoundTrip(|s|, s + rest);
  }
}
