/** nanopb messages with static allocation: descriptors, message structures, and what encoding and
    decoding do to them. */
module PbMessages {
  import opened Options
  import opened Coding
  import opened PbScalars

  // ------------------------------------------------------------------ descriptors

  datatype LType =
    | Bool
    | Varint(size: nat)
    | Uvarint(size: nat)
    | Svarint(size: nat)
    | Fixed32
    | Fixed64
    | ByteArray(max: nat)
    | Text(size: nat)
    | FixedBytes(size: nat)
    | Submessage(message: MessageType)

  /** Optional fields have a flag; singular ones are present when they are not zero. */
  datatype HType = Required | Optional | Singular | Repeated(max: nat) | FixedCount(count: nat) | Oneof(group: nat)

  datatype Field = Field(tag: nat, htype: HType, ltype: LType, initial: Value)

  datatype MessageType = MessageType(fields: seq<Field>)

  // ------------------------------------------------------------------ message structures

  datatype Value = Int(n: int) | Str(bytes: Bytes) | Msg(message: Message)

  /** One slot a field, and which member each oneof holds. */
  datatype Message = Message(slots: seq<Slot>, which: map<nat, Choice>)

  datatype Slot = Slot(has: bool, items: seq<Value>)

  datatype Choice = Choice(tag: nat, value: Value)

  const NOTHING: Value := Int(0)

  function Item(m: Message, i: nat): Value {
    if i < |m.slots| && m.slots[i].items != [] then m.slots[i].items[0] else NOTHING
  }

  // ------------------------------------------------------------------ defaults

  function DefaultValue(f: Field): Value
    decreases f, 0
  {
    match f.ltype
    case Submessage(mt) => Msg(Defaults(mt))
    case _ => f.initial
  }

  /** Arrays start empty; the contents of one of fixed length are left as they are, which nothing
      here looks at, and no member of a oneof is chosen. */
  function DefaultSlot(f: Field): Slot
    decreases f, 1
  {
    match f.htype
    case Repeated(_) => Slot(false, [])
    case FixedCount(n) => Slot(false, seq(n, _ => NOTHING))
    case Oneof(_) => Slot(false, [])
    case _ => Slot(false, [DefaultValue(f)])
  }

  function DefaultSlots(mt: MessageType, i: nat): (slots: seq<Slot>)
    requires i <= |mt.fields|
    ensures |slots| == |mt.fields| - i
    ensures forall j :: 0 <= j < |slots| ==> slots[j] == DefaultSlot(mt.fields[i + j])
    decreases mt, |mt.fields| - i
  {
    if i == |mt.fields| then [] else [DefaultSlot(mt.fields[i])] + DefaultSlots(mt, i + 1)
  }

  function Defaults(mt: MessageType): Message
    decreases mt, |mt.fields| + 1
  {
    Message(DefaultSlots(mt, 0), map[])
  }

  // ------------------------------------------------------------------ encoding

  function WireType(lt: LType): nat {
    match lt
    case Bool => 0
    case Varint(_) => 0
    case Uvarint(_) => 0
    case Svarint(_) => 0
    case Fixed32 => 5
    case Fixed64 => 1
    case _ => 2
  }

  predicate Packable(lt: LType) {
    lt.Bool? || lt.Varint? || lt.Uvarint? || lt.Svarint? || lt.Fixed32? || lt.Fixed64?
  }

  function TagBytes(tag: nat, wire: nat): (bytes: Bytes)
    ensures |bytes| > 0
  {
    Coding.Varint(tag * 8 + wire)
  }

  function IntOf(v: Value): int {
    if v.Int? then v.n else 0
  }

  function StrOf(v: Value): Bytes {
    if v.Str? then v.bytes else []
  }

  function Clamp(n: int, span: nat): (w: nat)
    requires span > 0
    ensures w < span
  {
    n % span
  }

  /** A value other than a submessage, without its tag. */
  function EncodedScalar(lt: LType, v: Value): Bytes {
    match lt
    case Bool => Coding.Varint(if IntOf(v) != 0 then 1 else 0)
    case Varint(_) => Coding.Varint(Clamp(IntOf(v), TWO_64))
    case Uvarint(_) => Coding.Varint(Clamp(IntOf(v), TWO_64))
    case Svarint(_) => Coding.Varint(if -TWO_63 <= IntOf(v) < TWO_63 then ZigZag(IntOf(v)) else 0)
    case Fixed32 => Coding.Fixed32(Clamp(IntOf(v), TWO_32))
    case Fixed64 => Coding.Fixed64(Clamp(IntOf(v), TWO_64))
    case _ => LengthPrefixed(StrOf(v))
  }

  function EncodedItem(lt: LType, v: Value): Bytes
    decreases lt, 0
  {
    match lt
    case Submessage(mt) => if v.Msg? then LengthPrefixed(Encoded(mt, v.message, 0)) else LengthPrefixed([])
    case _ => EncodedScalar(lt, v)
  }

  function PackedItems(lt: LType, items: seq<Value>): Bytes {
    if items == [] then [] else EncodedScalar(lt, items[0]) + PackedItems(lt, items[1..])
  }

  function Tagged(tag: nat, lt: LType, items: seq<Value>): Bytes
    decreases lt, 1, |items|
  {
    if items == [] then [] else TagBytes(tag, WireType(lt)) + EncodedItem(lt, items[0]) + Tagged(tag, lt, items[1..])
  }

  function EncodedArray(tag: nat, lt: LType, items: seq<Value>): Bytes
    decreases lt, 2, |items|
  {
    if items == [] then []
    else if Packable(lt) then TagBytes(tag, 2) + LengthPrefixed(PackedItems(lt, items))
    else Tagged(tag, lt, items)
  }

  /** The test for a value that need not be written. */
  predicate IsZero(mt: MessageType, m: Message, i: nat)
    requires i < |mt.fields|
    decreases mt, 0
  {
    var f := mt.fields[i];
    match f.htype
    case Required => false
    case Repeated(_) => i < |m.slots| ==> m.slots[i].items == []
    case FixedCount(_) => false
    case Oneof(g) => g !in m.which
    case Optional => i < |m.slots| ==> !m.slots[i].has
    case Singular =>
      var v := Item(m, i);
      match f.ltype
      case ByteArray(_) => StrOf(v) == []
      case Text(_) => StrOf(v) == []
      case FixedBytes(n) => n == 0
      case Submessage(sub) => v.Msg? ==> AllZero(sub, v.message, 0)
      case _ => IntOf(v) == 0
  }

  predicate AllZero(mt: MessageType, m: Message, i: nat)
    requires i <= |mt.fields|
    decreases mt, 1, |mt.fields| - i
  {
    i == |mt.fields| || (IsZero(mt, m, i) && AllZero(mt, m, i + 1))
  }

  function EncodedField(mt: MessageType, m: Message, i: nat): Bytes
    requires i < |mt.fields|
    decreases mt, 0
  {
    var f := mt.fields[i];
    var one := TagBytes(f.tag, WireType(f.ltype)) + EncodedItem(f.ltype, Item(m, i));
    match f.htype
    case Required => one
    case Optional => if i < |m.slots| && m.slots[i].has then one else []
    case Singular => if IsZero(mt, m, i) then [] else one
    case Repeated(_) => if i < |m.slots| then EncodedArray(f.tag, f.ltype, m.slots[i].items) else []
    case FixedCount(_) => if i < |m.slots| then EncodedArray(f.tag, f.ltype, m.slots[i].items) else []
    case Oneof(g) =>
      if g in m.which && m.which[g].tag == f.tag then TagBytes(f.tag, WireType(f.ltype))
        + EncodedItem(f.ltype, m.which[g].value) else []
  }

  /** The message's fields from the i-th on. */
  function Encoded(mt: MessageType, m: Message, i: nat): Bytes
    decreases mt, 1, |mt.fields| - i
  {
    if i >= |mt.fields| then [] else EncodedField(mt, m, i) + Encoded(mt, m, i + 1)
  }

  // ------------------------------------------------------------------ decoding scalars

  function DecodedString(s: Bytes): (r: Option<(Bytes, Bytes)>)
    ensures r.Some? ==> |r.value.1| < |s|
  {
    match DecodeVarint32(s)
    case None => None
    case Some(read) => if read.0 <= |read.1| then Some((read.1[..read.0], read.1[read.0..])) else None
  }

  function Zeros(n: nat): Bytes {
    seq(n, _ => 0)
  }

  /** Each type's own limits are checked; an empty fixed-length value reads as all zeros. */
  function DecodedScalar(lt: LType, s: Bytes): (r: Option<(Value, Bytes)>)
    ensures r.Some? ==> |r.value.1| < |s|
  {
    match lt
    case Bool =>
      (match DecodeVarint32(s)
       case None => None
       case Some(v) => Some((Int(if v.0 != 0 then 1 else 0), v.1)))
    case Varint(size) =>
      (match GetVarint64(s)
       case None => None
       case Some(v) =>
         var n := if size == 8 then Signed64(v.0 % TWO_64) else Signed32(v.0);
         if ValidSize(size) && SignedFits(n, size) then Some((Int(n), v.1)) else None)
    case Uvarint(size) =>
      (match GetVarint64(s)
       case None => None
       case Some(v) => if ValidSize(size) && v.0 < Span(size) then Some((Int(v.0), v.1)) else None)
    case Svarint(size) =>
      (match GetVarint64(s)
       case None => None
       case Some(v) =>
         var n := UnZigZag(v.0 % TWO_64);
         if ValidSize(size) && SignedFits(n, size) then Some((Int(n), v.1)) else None)
    case Fixed32 => if |s| < 4 then None else Some((Int(DecodeFixed32(s[..4])), s[4..]))
    case Fixed64 => if |s| < 8 then None else Some((Int(DecodeFixed64(s[..8])), s[8..]))
    case ByteArray(max) =>
      (match DecodedString(s)
       case None => None
       case Some(b) => if |b.0| <= max then Some((Str(b.0), b.1)) else None)
    case Text(size) =>
      (match DecodedString(s)
       case None => None
       case Some(b) => if |b.0| + 1 <= size then Some((Str(UpToNul(b.0)), b.1)) else None)
    case FixedBytes(size) =>
      (match DecodedString(s)
       case None => None
       case Some(b) =>
         if b.0 == [] then Some((Str(Zeros(size)), b.1))
         else if |b.0| == size then Some((Str(b.0), b.1)) else None)
    case Submessage(_) => None
  }

  /** What a string buffer holds as a string: up to its first NUL. */
  function UpToNul(s: Bytes): Bytes {
    if s == [] || s[0] == 0 then [] else [s[0]] + UpToNul(s[1..])
  }

  /** What a field of this type can hold; a string may fill its buffer to the last byte. */
  predicate ScalarFits(lt: LType, v: Value) {
    match lt
    case Bool => v == Int(0) || v == Int(1)
    case Varint(size) => v.Int? && ValidSize(size) && SignedFits(v.n, size)
    case Uvarint(size) => v.Int? && ValidSize(size) && 0 <= v.n < Span(size)
    case Svarint(size) => v.Int? && ValidSize(size) && SignedFits(v.n, size)
    case Fixed32 => v.Int? && 0 <= v.n < TWO_32
    case Fixed64 => v.Int? && 0 <= v.n < TWO_64
    case ByteArray(max) => v.Str? && |v.bytes| <= max
    case Text(size) => v.Str? && |v.bytes| <= size && 0 !in v.bytes
    case FixedBytes(size) => v.Str? && |v.bytes| == size
    case Submessage(_) => false
  }

  /** A string leaves room for the terminator that the decoder adds. */
  predicate LeavesRoom(lt: LType, v: Value) {
    lt.Text? ==> |StrOf(v)| < lt.size
  }

  lemma {:induction false} NoNul(s: Bytes)
    requires 0 !in s
    ensures UpToNul(s) == s
  {
    if s != [] {
      NoNul(s[1..]);
    }
  }

  lemma StringRoundTrip(s: Bytes, rest: Bytes)
    requires |s| < TWO_32
    ensures DecodedString(LengthPrefixed(s) + rest) == Some((s, rest))
  {
    hide Varint32Rest, DecodeVarint32;
    assert LengthPrefixed(s) + rest == Coding.Varint(|s|) + (s + rest);
    DecodeVarint32Encoded(|s|, s + rest);
  }

  /** A value that fits its type is read back, except a string without room for its terminator, which
      the decoder refuses. */
  lemma ScalarRoundTrip(lt: LType, v: Value, rest: Bytes)
    requires ScalarFits(lt, v) && (v.Str? ==> |v.bytes| < TWO_32)
    ensures DecodedScalar(lt, EncodedScalar(lt, v) + rest) == if LeavesRoom(lt, v) then Some((v, rest)) else None
  {
    hide GetVarint64, DecodeVarint32, DecodedString, Coding.Fixed32, Coding.Fixed64, DecodeFixed32, DecodeFixed64,
         Coding.Varint, LengthPrefixed;
    hide ZigZag, UnZigZag, Signed32, Signed64, Unsigned;
    match lt
    case Bool => DecodeVarint32Encoded(v.n, rest);
    case Varint(size) => SignedRoundTrip(v.n, size, rest);
    case Uvarint(size) => UnsignedRoundTrip(v.n, size, rest);
    case Svarint(size) => ZigZagItemRoundTrip(v.n, size, rest);
    case Fixed32 =>
      Fixed32RoundTrip(v.n);
      CutFront(Coding.Fixed32(v.n), rest);
    case Fixed64 =>
      Fixed64RoundTrip(v.n);
      CutFront(Coding.Fixed64(v.n), rest);
    case ByteArray(_) => StringRoundTrip(v.bytes, rest);
    case Text(_) =>
      StringRoundTrip(v.bytes, rest);
      NoNul(v.bytes);
    case FixedBytes(_) =>
      StringRoundTrip(v.bytes, rest);
      assert v.bytes == [] ==> v.bytes == Zeros(0);
    case Submessage(_) =>
  }

  lemma UnsignedRoundTrip(n: nat, size: nat, rest: Bytes)
    requires ValidSize(size) && n < Span(size)
    ensures DecodedScalar(Uvarint(size), EncodedScalar(Uvarint(size), Int(n)) + rest) == Some((Int(n), rest))
  {
    hide GetVarint64, Coding.Varint;
    assert Clamp(n, TWO_64) == n;
    Varint64RoundTrip(n, rest);
  }

  lemma ZigZagItemRoundTrip(n: int, size: nat, rest: Bytes)
    requires ValidSize(size) && SignedFits(n, size)
    ensures DecodedScalar(Svarint(size), EncodedScalar(Svarint(size), Int(n)) + rest) == Some((Int(n), rest))
  {
    hide GetVarint64, Coding.Varint, DecodedScalar, EncodedScalar, ZigZag, UnZigZag;
    ZigZagRoundTrip(n);
    ZigZagWritten(n, size);
    Varint64RoundTrip(ZigZag(n), rest);
    ZigZagRead(Coding.Varint(ZigZag(n)) + rest, ZigZag(n), size, rest);
  }

  lemma ZigZagWritten(n: int, size: nat)
    requires -TWO_63 <= n < TWO_63
    ensures EncodedScalar(Svarint(size), Int(n)) == Coding.Varint(ZigZag(n))
  {
    hide Coding.Varint, ZigZag;
  }

  lemma ZigZagRead(s: Bytes, w: nat, size: nat, rest: Bytes)
    requires GetVarint64(s) == Some((w, rest)) && w < TWO_64
    requires ValidSize(size) && SignedFits(UnZigZag(w), size)
    ensures DecodedScalar(Svarint(size), s) == Some((Int(UnZigZag(w)), rest))
  {
    hide GetVarint64, UnZigZag;
    assert w % TWO_64 == w;
  }

  lemma CutFront(s: Bytes, rest: Bytes)
    ensures (s + rest)[..|s|] == s && (s + rest)[|s|..] == rest
  {
  }

  lemma SignedRoundTrip(n: int, size: nat, rest: Bytes)
    requires ValidSize(size) && SignedFits(n, size)
    ensures DecodedScalar(Varint(size), EncodedScalar(Varint(size), Int(n)) + rest) == Some((Int(n), rest))
  {
    hide GetVarint64, Coding.Varint;
    SignedWordRoundTrip(n, size);
    assert Clamp(n, TWO_64) == Unsigned(n);
    Varint64RoundTrip(Unsigned(n), rest);
  }
}
