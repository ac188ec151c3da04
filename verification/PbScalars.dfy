/** Protocol buffer scalars, as nanopb writes and reads them: base-128 varints, zigzag integers,
    fixed-width words, and length-prefixed bytes. */
module PbScalars {
  import opened Options
  import opened InternalKeys
  import opened Coding

  type Bytes = seq<Byte>

  const TWO_31: int := 0x8000_0000
  const TWO_63: int := 0x8000_0000_0000_0000

  // ------------------------------------------------------------------ varints

  function BitOr(a: nat, b: nat): nat
    decreases a + b
  {
    if a == 0 then b
    else if b == 0 then a
    else (if a % 2 == 1 || b % 2 == 1 then 1 else 0) + 2 * BitOr(a / 2, b / 2)
  }

  lemma {:induction false} BitOrBelow(a: nat, b: nat, n: nat)
    requires a < PowerOfTwo(n) && b < PowerOfTwo(n)
    ensures BitOr(a, b) < PowerOfTwo(n)
    decreases n
  {
    if a != 0 && b != 0 {
      BitOrBelow(a / 2, b / 2, n - 1);
    }
  }

  /** Where the bits do not meet, the union is the sum. */
  lemma {:induction false} BitOrApart(a: nat, b: nat, n: nat)
    requires a < PowerOfTwo(n)
    ensures BitOr(a, b * PowerOfTwo(n)) == a + b * PowerOfTwo(n)
    decreases n
  {
    if n > 0 && a != 0 && b != 0 {
      var half := b * PowerOfTwo(n - 1);
      assert b * PowerOfTwo(n) == 2 * half;
      BitOrApart(a / 2, b, n - 1);
    }
  }

  lemma Powers()
    ensures PowerOfTwo(7) == 0x80 && PowerOfTwo(14) == 0x4000 && PowerOfTwo(21) == 0x20_0000
            && PowerOfTwo(28) == 0x1000_0000
    ensures PowerOfTwo(35) == 0x8_0000_0000 && PowerOfTwo(32) == TWO_32
  {
  }

  /** Seven more bits put into a 32-bit word. */
  function OrIn(result: nat, bits: nat, position: nat): (r: nat)
    requires result < TWO_32
    ensures r < TWO_32
  {
    Powers();
    BitOrBelow(result, Shifted(bits, PowerOfTwo(position), TWO_32), 32);
    BitOr(result, Shifted(bits, PowerOfTwo(position), TWO_32))
  }

  lemma OrInFits(result: nat, bits: nat, position: nat)
    requires result < PowerOfTwo(position) && result + bits * PowerOfTwo(position) < TWO_32
    ensures OrIn(result, bits, position) == result + bits * PowerOfTwo(position)
  {
    ShiftedFits(bits, PowerOfTwo(position), TWO_32);
    BitOrApart(result, bits, position);
    hide Shifted, PowerOfTwo;
  }

  /** The 32-bit decoder, from the second byte on: what has been read, and where the next seven bits
      go, counted in eight bits.  Bytes beyond the 32 bits must be zero or a sign extension. */
  function Varint32Rest(s: Bytes, result: nat, position: nat): (r: Option<(nat, Bytes)>)
    requires result < TWO_32
    ensures r.Some? ==> |r.value.1| < |s| && r.value.0 < TWO_32
    decreases |s|
  {
    if s == [] then None
    else
      var byte, next := s[0], (position + 7) % 256;
      if position >= 32 then
        var signExtension := if position < 63 then 0xFF else 0x01;
        if byte % 128 != 0 && (result < TWO_31 || byte != signExtension) then None
        else if byte >= 128 then Varint32Rest(s[1..], result, next)
        else Some((result, s[1..]))
      else
        var more := OrIn(result, byte % 128, position);
        if byte >= 128 then Varint32Rest(s[1..], more, next)
        else if position == 28 && byte >= 16 then None // only four bits fit
        else Some((more, s[1..]))
  }

  function DecodeVarint32(s: Bytes): (r: Option<(nat, Bytes)>)
    ensures r.Some? ==> |r.value.1| < |s| && r.value.0 < TWO_32
  {
    if s == [] then None
    else if s[0] < 128 then Some((s[0], s[1..]))
    else Varint32Rest(s[1..], s[0] - 128, 7)
  }

  lemma {:induction false} Varint32Restores(v: nat, rest: Bytes, result: nat, position: nat)
    requires (position == 7 || position == 14 || position == 21 || position == 28)
    requires result < PowerOfTwo(position) && result + v * PowerOfTwo(position) < TWO_32
    ensures Varint32Rest(Varint(v) + rest, result, position) == Some((result + v * PowerOfTwo(position), rest))
    decreases v
  {
    Powers();
    hide OrIn, Varint32Rest, PowerOfTwo;
    var s, scale := Varint(v) + rest, PowerOfTwo(position);
    if v < 128 {
      assert s[0] == v && s[1..] == rest;
      OrInFits(result, v, position);
      LastByte(s, result, position);
    } else {
      var low, high := v % 128, v / 128;
      SplitScaled(high, low, scale);
      assert s[0] == low + 128 && s[1..] == Varint(high) + rest;
      OrInFits(result, low, position);
      AnotherByte(s, result, position);
      assert result + low * scale < scale * 128;
      NextPower(position);
      Varint32Restores(high, rest, result + low * scale, position + 7);
    }
  }

  lemma NextPower(position: nat)
    ensures PowerOfTwo(position + 7) == PowerOfTwo(position) * 128
  {
    assert PowerOfTwo(position + 2) == 4 * PowerOfTwo(position);
    assert PowerOfTwo(position + 4) == 4 * PowerOfTwo(position + 2);
    assert PowerOfTwo(position + 6) == 4 * PowerOfTwo(position + 4);
  }

  lemma LastByte(s: Bytes, result: nat, position: nat)
    requires s != [] && s[0] < 128 && position < 32 && result < TWO_32 && (position == 28 ==> s[0] < 16)
    ensures Varint32Rest(s, result, position) == Some((OrIn(result, s[0], position), s[1..]))
  {
    hide OrIn;
  }

  lemma AnotherByte(s: Bytes, result: nat, position: nat)
    requires s != [] && s[0] >= 128 && position < 32 && result < TWO_32
    ensures Varint32Rest(s, result, position) == Varint32Rest(s[1..], OrIn(result, s[0] - 128, position), position + 7)
  {
    hide OrIn;
    assert s[0] % 128 == s[0] - 128;
  }

  lemma DecodeVarint32Encoded(v: nat, rest: Bytes)
    requires v < TWO_32
    ensures DecodeVarint32(Varint(v) + rest) == Some((v, rest))
  {
    var s := Varint(v) + rest;
    if v < 128 {
      assert s[1..] == rest;
    } else {
      assert s[1..] == Varint(v / 128) + rest;
      Powers();
      Varint32Restores(v / 128, rest, v % 128, 7);
    }
  }

  /** The encoder's loop; a zero is written as one byte. */
  method EncodeVarint(value: nat) returns (buffer: Bytes)
    ensures buffer == Varint(value)
  {
    hide Varint;
    VarintDigit(value, []);
    if value <= 0x7F {
      return [value];
    }
    var v: nat := value;
    buffer := [];
    while v > 0
      invariant v > 0 ==> buffer + Varint(v) == Varint(value)
      invariant v == 0 ==> buffer != [] && buffer[|buffer| - 1] >= 128
                           && buffer[..|buffer| - 1] + [buffer[|buffer| - 1] - 128] == Varint(value)
    {
      VarintDigit(v, buffer);
      buffer := buffer + [v % 128 + 128];
      v := v / 128;
    }
    buffer := buffer[..|buffer| - 1] + [buffer[|buffer| - 1] % 128];
  }

  /** One more digit; the last one has its top bit taken off again. */
  lemma VarintDigit(v: nat, before: Bytes)
    ensures v < 128 ==> Varint(v) == [v] && v / 128 == 0 && v % 128 == v
    ensures v >= 128 ==> before + [v % 128 + 128] + Varint(v / 128) == before + Varint(v)
    ensures (before + [v % 128 + 128])[..|before|] == before
  {
    if v >= 128 {
      var digit, more: Bytes := [v % 128 + 128], Varint(v / 128);
      assert Varint(v) == digit + more;
      Rejoined(before, digit, more);
    }
  }

  lemma Rejoined(a: Bytes, b: Bytes, c: Bytes)
    ensures a + b + c == a + (b + c)
  {
  }

  // ------------------------------------------------------------------ integers

  /** A signed integer as the 64-bit word of its two's complement. */
  function Unsigned(n: int): (w: nat)
    requires -TWO_63 <= n < TWO_63
    ensures w < TWO_64
  {
    if n < 0 then n + TWO_64 else n
  }

  function Signed64(w: nat): int
    requires w < TWO_64
  {
    if w < TWO_63 then w else w - TWO_64
  }

  /** Truncation to 32 bits, read as signed. */
  function Signed32(w: nat): (n: int)
    ensures -TWO_31 <= n < TWO_31
  {
    var low := w % TWO_32;
    if low < TWO_31 then low else low - TWO_32
  }

  function ZigZag(n: int): (w: nat)
    requires -TWO_63 <= n < TWO_63
    ensures w < TWO_64
  {
    if n < 0 then -2 * n - 1 else 2 * n
  }

  function UnZigZag(w: nat): (n: int)
    requires w < TWO_64
    ensures -TWO_63 <= n < TWO_63
  {
    if w % 2 == 1 then -(w / 2) - 1 else w / 2
  }

  lemma ZigZagRoundTrip(n: int)
    requires -TWO_63 <= n < TWO_63
    ensures UnZigZag(ZigZag(n)) == n
  {
  }

  lemma UnZigZagRoundTrip(w: nat)
    requires w < TWO_64
    ensures ZigZag(UnZigZag(w)) == w
  {
  }

  /** Numbers near zero are the short ones: words follow distance from zero, the negative first. */
  lemma ZigZagFollowsDistance(a: int, b: int)
    requires -TWO_63 <= a < TWO_63 && -TWO_63 <= b < TWO_63
    ensures ZigZag(a) < ZigZag(b) <==> Distance(a) < Distance(b) || (a == -b && a < 0)
  {
  }

  function Distance(n: int): nat {
    if n < 0 then -n else n
  }

  /** The number of values an integer of so many bytes has. */
  function Span(size: nat): nat {
    if size == 1 then 0x100 else if size == 2 then 0x1_0000 else if size == 4 then TWO_32 else TWO_64
  }

  predicate ValidSize(size: nat) {
    size == 1 || size == 2 || size == 4 || size == 8
  }

  predicate SignedFits(n: int, size: nat) {
    -(Span(size) / 2) <= n < Span(size) / 2
  }

  lemma SignedWordRoundTrip(n: int, size: nat)
    requires ValidSize(size) && SignedFits(n, size)
    ensures -TWO_63 <= n < TWO_63
    ensures size == 8 ==> Signed64(Unsigned(n)) == n
    ensures size < 8 ==> Signed32(Unsigned(n)) == n
  {
    if size < 8 && n < 0 {
      assert (n + TWO_64) % TWO_32 == n + TWO_32;
    }
  }
}
