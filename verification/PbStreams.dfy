/** What the decoder makes of bytes that the encoder of the same message type did not write: fields it
    does not know, arrays entry by entry, values that come twice, and any bytes at all. */
module PbStreams {
  import opened Options
  import opened Coding
  import opened PbScalars
  import opened PbMessages
  import opened PbDecoding
  import opened PbRoundTrip

  // ------------------------------------------------------------------ unknown fields

  type Word32 = n: nat | n < TWO_32

  type Word64 = n: nat | n < TWO_64

  type ShortBytes = b: Bytes | |b| < TWO_32

  /** What a field may hold on the wire, one form a wire type. */
  datatype Raw = RawVarint(n: nat) | RawFixed64(word: Word64) | RawString(bytes: ShortBytes) | RawFixed32(half: Word32)

  datatype RawField = RawField(tag: nat, raw: Raw)

  function RawBytes(f: RawField): Bytes {
    match f.raw
    case RawVarint(n) => TagBytes(f.tag, 0) + Coding.Varint(n)
    case RawFixed64(w) => TagBytes(f.tag, 1) + Coding.Fixed64(w)
    case RawString(b) => TagBytes(f.tag, 2) + LengthPrefixed(b)
    case RawFixed32(w) => TagBytes(f.tag, 5) + Coding.Fixed32(w)
  }

  predicate NoSuchTag(mt: MessageType, tag: nat) {
    forall i :: 0 <= i < |mt.fields| ==> mt.fields[i].tag != tag
  }

  predicate Unknown(mt: MessageType, f: RawField) {
    0 < f.tag < 0x2000_0000 && NoSuchTag(mt, f.tag)
  }

  lemma UnknownTag(mt: MessageType, tag: nat, wire: nat, s: Bytes, m: Message, st: State)
    requires |m.slots| == |mt.fields| && 0 < tag < 0x2000_0000 && wire < 8 && NoSuchTag(mt, tag)
    ensures Decoded(mt, TagBytes(tag, wire) + s, m, st)
         == match Skip(s, wire)
            case None => None
            case Some(rest) => Decoded(mt, rest, m, st)
  {
    hide DecodeVarint32, Coding.Varint, DecodedField, AtEnd, IndexFrom, Skip;
    var t := tag * 8 + wire;
    DecodeVarint32Encoded(t, s);
    assert t / 8 == tag && t % 8 == wire;
    assert IndexFrom(mt.fields, st.position, tag) == |mt.fields|;
  }

  lemma {:induction false} VarintSkipped(n: nat, rest: Bytes)
    ensures SkipVarint(Coding.Varint(n) + rest) == Some(rest)
  {
    var s := Coding.Varint(n) + rest;
    if n >= 128 {
      assert s[1..] == Coding.Varint(n / 128) + rest;
      VarintSkipped(n / 128, rest);
    } else {
      assert s[1..] == rest;
    }
  }

  /** A field whose tag the message type does not have changes nothing, whatever it holds: a message may
      be read with an older type than it was written with. */
  lemma UnknownFieldSkipped(mt: MessageType, f: RawField, rest: Bytes, m: Message, st: State)
    requires |m.slots| == |mt.fields| && Unknown(mt, f)
    ensures Decoded(mt, RawBytes(f) + rest, m, st) == Decoded(mt, rest, m, st)
  {
    hide Decoded, DecodedString, Coding.Varint, Coding.Fixed64, Coding.Fixed32, LengthPrefixed, TagBytes;
    match f.raw
    case RawVarint(n) =>
      VarintSkipped(n, rest);
      assert RawBytes(f) + rest == TagBytes(f.tag, 0) + (Coding.Varint(n) + rest);
      UnknownTag(mt, f.tag, 0, Coding.Varint(n) + rest, m, st);
    case RawFixed64(w) =>
      CutFront(Coding.Fixed64(w), rest);
      assert RawBytes(f) + rest == TagBytes(f.tag, 1) + (Coding.Fixed64(w) + rest);
      UnknownTag(mt, f.tag, 1, Coding.Fixed64(w) + rest, m, st);
    case RawString(b) =>
      StringRoundTrip(b, rest);
      assert RawBytes(f) + rest == TagBytes(f.tag, 2) + (LengthPrefixed(b) + rest);
      UnknownTag(mt, f.tag, 2, LengthPrefixed(b) + rest, m, st);
    case RawFixed32(w) =>
      CutFront(Coding.Fixed32(w), rest);
      assert RawBytes(f) + rest == TagBytes(f.tag, 5) + (Coding.Fixed32(w) + rest);
      UnknownTag(mt, f.tag, 5, Coding.Fixed32(w) + rest, m, st);
  }

  /** Groups and the wire types that do not exist are refused. */
  lemma OtherWireTypesRefused(mt: MessageType, tag: nat, wire: nat, rest: Bytes, m: Message, st: State)
    requires |m.slots| == |mt.fields| && 0 < tag < 0x2000_0000 && NoSuchTag(mt, tag)
    requires wire == 3 || wire == 4 || wire == 6 || wire == 7
    ensures Decoded(mt, TagBytes(tag, wire) + rest, m, st) == None
  {
    hide Decoded, DecodedString;
    UnknownTag(mt, tag, wire, rest, m, st);
  }

  /** A field cut short is refused too, by every wire type of a fixed size. */
  lemma CutFieldsRefused(mt: MessageType, tag: nat, wire: nat, rest: Bytes, m: Message, st: State)
    requires |m.slots| == |mt.fields| && 0 < tag < 0x2000_0000 && NoSuchTag(mt, tag)
    requires (wire == 0 && rest == []) || (wire == 1 && |rest| < 8) || (wire == 2 && rest == [])
             || (wire == 5 && |rest| < 4)
    ensures Decoded(mt, TagBytes(tag, wire) + rest, m, st) == None
  {
    hide Decoded;
    UnknownTag(mt, tag, wire, rest, m, st);
  }

  /** What a field of a newer message type is on the wire. */
  function RawOf(lt: LType, v: Value): Raw
    requires |EncodedItem(lt, v)| < TWO_32
  {
    match lt
    case Bool => RawVarint(if IntOf(v) != 0 then 1 else 0)
    case Varint(_) => RawVarint(Clamp(IntOf(v), TWO_64))
    case Uvarint(_) => RawVarint(Clamp(IntOf(v), TWO_64))
    case Svarint(_) => RawVarint(if -TWO_63 <= IntOf(v) < TWO_63 then ZigZag(IntOf(v)) else 0)
    case Fixed32 => RawFixed32(Clamp(IntOf(v), TWO_32))
    case Fixed64 => RawFixed64(Clamp(IntOf(v), TWO_64))
    case Submessage(sub) =>
      PrefixedSize(if v.Msg? then Encoded(sub, v.message, 0) else []);
      RawString(if v.Msg? then Encoded(sub, v.message, 0) else [])
    case _ =>
      PrefixedSize(StrOf(v));
      RawString(StrOf(v))
  }

  /** The wire type that the encoder gives a value says how long it is. */
  lemma EncodedIsRaw(tag: nat, lt: LType, v: Value)
    requires |EncodedItem(lt, v)| < TWO_32
    ensures TagBytes(tag, WireType(lt)) + EncodedItem(lt, v) == RawBytes(RawField(tag, RawOf(lt, v)))
  {
    hide Coding.Varint, Coding.Fixed32, Coding.Fixed64, LengthPrefixed, Encoded, TagBytes;
  }

  lemma {:induction false} TaggedSkipped(mt: MessageType, tag: nat, lt: LType, items: seq<Value>, rest: Bytes,
      m: Message,
      st: State)
    requires |m.slots| == |mt.fields| && 0 < tag < 0x2000_0000 && NoSuchTag(mt, tag)
    requires |Tagged(tag, lt, items)| < TWO_32
    ensures Decoded(mt, Tagged(tag, lt, items) + rest, m, st) == Decoded(mt, rest, m, st)
    decreases |items|
  {
    hide Decoded, RawBytes, EncodedItem, TagBytes, Tagged;
    if items == [] {
      NothingTagged(tag, lt);
      assert [] + rest == rest;
    } else {
      assert items[0..] == items;
      TaggedFirst(tag, lt, items, 0, rest);
      EncodedIsRaw(tag, lt, items[0]);
      var left := Tagged(tag, lt, items[1..]) + rest;
      assert TagBytes(tag, WireType(lt)) + (EncodedItem(lt, items[0]) + left)
             == TagBytes(tag, WireType(lt)) + EncodedItem(lt, items[0]) + left;
      UnknownFieldSkipped(mt, RawField(tag, RawOf(lt, items[0])), left, m, st);
      TaggedSkipped(mt, tag, lt, items[1..], rest, m, st);
    }
  }

  /** A reader whose message type lacks a field of the writer's passes over it, whatever its type. */
  lemma OlderReaderSkips(newer: MessageType, value: Message, i: nat, mt: MessageType, rest: Bytes, m: Message,
      st: State)
    requires i < |newer.fields| == |value.slots| && |EncodedField(newer, value, i)| < TWO_32
    requires |m.slots| == |mt.fields| && 0 < newer.fields[i].tag < 0x2000_0000 && NoSuchTag(mt, newer.fields[i].tag)
    ensures Decoded(mt, EncodedField(newer, value, i) + rest, m, st) == Decoded(mt, rest, m, st)
  {
    hide Decoded, RawBytes, EncodedItem, TagBytes, Tagged, PackedItems, LengthPrefixed, IsZero;
    var f := newer.fields[i];
    if EncodedField(newer, value, i) == [] {
      assert [] + rest == rest;
    } else if IsArray(f) {
      var items := value.slots[i].items;
      if Packable(f.ltype) {
        var p := PackedItems(f.ltype, items);
        PrefixedSize(p);
        PackedIsRaw(f.tag, p);
        UnknownFieldSkipped(mt, RawField(f.tag, RawString(p)), rest, m, st);
      } else {
        TaggedSkipped(mt, f.tag, f.ltype, items, rest, m, st);
      }
    } else {
      var v := if f.htype.Oneof? then value.which[f.htype.group].value else Item(value, i);
      EncodedIsRaw(f.tag, f.ltype, v);
      UnknownFieldSkipped(mt, RawField(f.tag, RawOf(f.ltype, v)), rest, m, st);
    }
  }

  lemma PackedIsRaw(tag: nat, p: ShortBytes)
    ensures TagBytes(tag, 2) + LengthPrefixed(p) == RawBytes(RawField(tag, RawString(p)))
  {
  }

  function AllRawBytes(fs: seq<RawField>): Bytes {
    if fs == [] then [] else RawBytes(fs[0]) + AllRawBytes(fs[1..])
  }

  lemma {:induction false} UnknownFieldsSkipped(mt: MessageType, fs: seq<RawField>, rest: Bytes, m: Message, st: State)
    requires |m.slots| == |mt.fields| && forall f :: f in fs ==> Unknown(mt, f)
    ensures Decoded(mt, AllRawBytes(fs) + rest, m, st) == Decoded(mt, rest, m, st)
  {
    hide Decoded, RawBytes;
    if fs == [] {
      assert AllRawBytes(fs) + rest == rest;
    } else {
      assert AllRawBytes(fs) + rest == RawBytes(fs[0]) + (AllRawBytes(fs[1..]) + rest);
      UnknownFieldSkipped(mt, fs[0], AllRawBytes(fs[1..]) + rest, m, st);
      UnknownFieldsSkipped(mt, fs[1..], rest, m, st);
    }
  }

  /** The message's fields from the i-th on, with other fields before each of them and at the end. */
  function Interleaved(mt: MessageType, m: Message, others: seq<seq<RawField>>, i: nat): Bytes
    requires i <= |mt.fields| && |others| == |mt.fields| + 1
    decreases |mt.fields| - i
  {
    AllRawBytes(others[i])
      + if i == |mt.fields| then [] else EncodedField(mt, m, i) + Interleaved(mt, m, others, i + 1)
  }

  /** The round trip with fields of a newer message type among the known ones. */
  lemma ForwardCompatible(mt: MessageType, m: Message, others: seq<seq<RawField>>)
    requires Fits(mt, m) && |others| == |mt.fields| + 1
    requires forall k, f :: 0 <= k < |others| && f in others[k] ==> Unknown(mt, f)
    requires |Encoded(mt, m, 0)| < TWO_32
    ensures |Defaults(mt).slots| == |mt.fields|
    ensures Decoded(mt, Interleaved(mt, m, others, 0), Defaults(mt), START)
         == if Terminated(mt, m) then Some(Normal(mt, m)) else None
  {
    hide Fits, Encoded, Decoded, Normal, TerminatedFrom, Interleaved;
    PartialEnds(mt, m);
    StartState(mt);
    InterleavedFrom(mt, m, others, 0, START);
  }

  lemma {:induction false} InterleavedFrom(mt: MessageType, m: Message, others: seq<seq<RawField>>, i: nat, st: State)
    requires Fits(mt, m) && i <= |mt.fields| && StateAt(mt, i, st) && |Encoded(mt, m, i)| < TWO_32
    requires |others| == |mt.fields| + 1
    requires forall k, f :: 0 <= k < |others| && f in others[k] ==> Unknown(mt, f)
    ensures Decoded(mt, Interleaved(mt, m, others, i), Partial(mt, m, i), st)
         == if TerminatedFrom(mt, m, i) then Some(Normal(mt, m)) else None
    decreases |mt.fields| - i
  {
    MessageSlots(mt, m);
    hide Decoded, Partial, Normal, EncodedField, Fits, FieldTerminated, AllRawBytes;
    if i == |mt.fields| {
      UnknownFieldsSkipped(mt, others[i], [], Partial(mt, m, i), st);
      PartialEnds(mt, m);
      EndOfStream(mt, m, st);
    } else {
      var rest := Interleaved(mt, m, others, i + 1);
      UnknownFieldsSkipped(mt, others[i], EncodedField(mt, m, i) + rest, Partial(mt, m, i), st);
      var st' := FieldStep(mt, m, i, rest, st);
      if FieldTerminated(mt, m, i) {
        InterleavedFrom(mt, m, others, i + 1, st');
      }
    }
  }

  // ------------------------------------------------------------------ other ways to write a message

  /** An array of numbers may also come entry by entry, not packed: the same entries result. */
  lemma UnpackedComesBack(mt: MessageType, m: Message, i: nat, rest: Bytes, st: State) returns (st': State)
    requires Fits(mt, m) && i < |mt.fields| && StateAt(mt, i, st) && IsArray(mt.fields[i])
    requires Packable(mt.fields[i].ltype) && m.slots[i].items != []
    requires |Tagged(mt.fields[i].tag, mt.fields[i].ltype, m.slots[i].items)| < TWO_32
    ensures StateAt(mt, i + 1, st')
    ensures Decoded(mt, Tagged(mt.fields[i].tag, mt.fields[i].ltype, m.slots[i].items) + rest, Partial(mt, m, i), st)
         == Decoded(mt, rest, Partial(mt, m, i + 1), st')
  {
    MessageSlots(mt, m);
    FitsAt(mt, m, |mt.fields|, i);
    hide Fits, Decoded, Partial, Tagged, StateAt, FieldFits, Entries, AllTerminated;
    var f, items := mt.fields[i], m.slots[i].items;
    EntriesEnds(mt, m, i);
    ArrayState(mt, m, i, st);
    NumbersTerminated(f.ltype, items);
    assert items[0..] == items;
    EntriesStep(mt, m, i, 0, rest, st);
    st' := EntriesState(f, i, |items|, st);
  }

  /** Of two values for one field the last one wins. */
  lemma LastOneWins(mt: MessageType, i: nat, a: Value, b: Value, rest: Bytes, m: Message, st: State)
    requires i < |mt.fields| == |m.slots| && 0 < mt.fields[i].tag < 0x2000_0000
    requires forall j, k :: 0 <= j < k < |mt.fields| ==> mt.fields[j].tag != mt.fields[k].tag
    requires mt.fields[i].htype.Required? || mt.fields[i].htype.Optional? || mt.fields[i].htype.Singular?
    requires var lt := mt.fields[i].ltype;
             && ScalarFits(lt, a) && LeavesRoom(lt, a) && (a.Str? ==> |a.bytes| < TWO_32)
             && ScalarFits(lt, b) && LeavesRoom(lt, b) && (b.Str? ==> |b.bytes| < TWO_32)
    ensures var f := mt.fields[i];
            var one, other := TagBytes(f.tag, WireType(f.ltype)) + EncodedScalar(f.ltype, a),
                              TagBytes(f.tag, WireType(f.ltype)) + EncodedScalar(f.ltype, b);
            Decoded(mt, one + (other + rest), m, st) == Decoded(mt, other + rest, m, st)
  {
    hide Decoded, ScalarFits, EncodedScalar, DecodedScalar, TagBytes, LeavesRoom, SeenAfter;
    var f := mt.fields[i];
    var wire := WireType(f.ltype);
    var other := TagBytes(f.tag, wire) + EncodedScalar(f.ltype, b);
    assert !f.ltype.Submessage? by { NoSubmessage(f.ltype, a); }
    ScalarRoundTrip(f.ltype, a, other + rest);
    ScalarRoundTrip(f.ltype, b, rest);
    assert TagBytes(f.tag, wire) + EncodedScalar(f.ltype, a) + (other + rest)
           == TagBytes(f.tag, wire) + (EncodedScalar(f.ltype, a) + (other + rest));
    assert other + rest == TagBytes(f.tag, wire) + (EncodedScalar(f.ltype, b) + rest);
    TagDecodes(mt, i, wire, EncodedScalar(f.ltype, a) + (other + rest), m, st);
    var first := WithSlot(m, i, Slot(m.slots[i].has || f.htype.Optional?, [a]));
    var here := st.(position := i, seen := SeenAfter(mt.fields, i, st.seen));
    TagDecodes(mt, i, wire, EncodedScalar(f.ltype, b) + rest, first, here);
    TagDecodes(mt, i, wire, EncodedScalar(f.ltype, b) + rest, m, st);
    SeenTwice(mt, i, st.seen);
    var last := Slot(m.slots[i].has || f.htype.Optional?, [b]);
    assert first.slots[i := last] == m.slots[i := last];
  }

  lemma NoSubmessage(lt: LType, v: Value)
    requires ScalarFits(lt, v)
    ensures !lt.Submessage?
  {
  }

  lemma SeenTwice(mt: MessageType, i: nat, seen: set<nat>)
    requires i < |mt.fields|
    ensures SeenAfter(mt.fields, i, SeenAfter(mt.fields, i, seen)) == SeenAfter(mt.fields, i, seen)
  {
  }

  /** A fixed-length array that comes with too few entries is refused. */
  lemma ShortArrayRefused(mt: MessageType, i: nat, items: seq<Value>, m: Message)
    requires i < |mt.fields| == |m.slots| && 0 < mt.fields[i].tag < 0x2000_0000
    requires forall j, k :: 0 <= j < k < |mt.fields| ==> mt.fields[j].tag != mt.fields[k].tag
    requires var f := mt.fields[i];
             && f.htype.FixedCount? && Packable(f.ltype) && AllFit(f.ltype, items)
             && 0 < |items| < f.htype.count == |m.slots[i].items| && |PackedItems(f.ltype, items)| < TWO_32
    ensures Decoded(mt, EncodedArray(mt.fields[i].tag, mt.fields[i].ltype, items), m, START) == None
  {
    hide Decoded, AllFit, DecodedPacked, PackedItems, DecodedString, LengthPrefixed, TagBytes, Filled;
    var f := mt.fields[i];
    var p, here := PackedItems(f.ltype, items), START.(position := i);
    assert EncodedArray(f.tag, f.ltype, items) == TagBytes(f.tag, 2) + LengthPrefixed(p);
    TagDecodes(mt, i, 2, LengthPrefixed(p), m, START);
    assert LengthPrefixed(p) + [] == LengthPrefixed(p);
    StringRoundTrip(p, []);
    assert [] + items == items;
    NothingFilled(m.slots[i].items);
    PackedRoundTrip(f.ltype, m.slots[i].items, [], items, f.htype.count);
    var filled := WithSlot(m, i, m.slots[i].(items := Filled(m.slots[i].items, items)));
    EndsIncomplete(mt, filled, here.(fixedField := Some(i), fixedCount := |items|));
  }

  lemma NothingFilled(initial: seq<Value>)
    ensures Filled(initial, []) == initial
  {
  }

  lemma EndsIncomplete(mt: MessageType, m: Message, st: State)
    requires |m.slots| == |mt.fields| && st.fixedField.Some? && st.fixedField.value < |mt.fields|
    requires mt.fields[st.fixedField.value].htype.FixedCount?
             && st.fixedCount != mt.fields[st.fixedField.value].htype.count
    ensures Decoded(mt, [], m, st) == None
  {
  }

  // ------------------------------------------------------------------ required fields

  predicate IsSuffix(r: Bytes, s: Bytes) {
    |r| <= |s| && r == s[|s| - |r|..]
  }

  lemma SuffixOfSuffix(a: Bytes, b: Bytes, c: Bytes)
    requires IsSuffix(a, b) && IsSuffix(b, c)
    ensures IsSuffix(a, c)
  {
  }

  lemma {:induction false} Varint32RestSuffix(s: Bytes, result: nat, position: nat)
    requires result < TWO_32
    ensures var r := Varint32Rest(s, result, position); r.Some? ==> IsSuffix(r.value.1, s)
    decreases |s|
  {
    hide OrIn;
    if s != [] && s[0] >= 128 {
      Varint32RestSuffix(s[1..], result, (position + 7) % 256);
      if position < 32 {
        Varint32RestSuffix(s[1..], OrIn(result, s[0] % 128, position), (position + 7) % 256);
      }
    }
  }

  lemma DecodeVarint32Suffix(s: Bytes)
    ensures var r := DecodeVarint32(s); r.Some? ==> IsSuffix(r.value.1, s)
  {
    hide Varint32Rest;
    if s != [] && s[0] >= 128 {
      Varint32RestSuffix(s[1..], s[0] - 128, 7);
    }
  }

  lemma {:induction false} DecodeVarintSuffix(s: Bytes, groups: nat, scale: nat, width: nat, sum: nat)
    requires width > 0
    ensures var r := DecodeVarint(s, groups, scale, width, sum); r.Some? ==> IsSuffix(r.value.1, s)
  {
    hide Shifted;
    if groups > 0 && s != [] && s[0] >= 128 {
      DecodeVarintSuffix(s[1..], groups - 1, scale * 128, width, sum + Shifted(s[0] - 128, scale, width));
    }
  }

  lemma {:induction false} SkipVarintSuffix(s: Bytes)
    ensures var r := SkipVarint(s); r.Some? ==> IsSuffix(r.value, s)
  {
    if s != [] && s[0] >= 128 {
      SkipVarintSuffix(s[1..]);
    }
  }

  lemma DecodedStringSuffix(s: Bytes)
    ensures var r := DecodedString(s); r.Some? ==> IsSuffix(r.value.1, s)
  {
    hide DecodeVarint32;
    DecodeVarint32Suffix(s);
  }

  lemma SkipSuffix(s: Bytes, wire: nat)
    ensures var r := Skip(s, wire); r.Some? ==> IsSuffix(r.value, s)
  {
    hide SkipVarint, DecodedString;
    SkipVarintSuffix(s);
    DecodedStringSuffix(s);
  }

  lemma DecodedScalarSuffix(lt: LType, s: Bytes)
    ensures var r := DecodedScalar(lt, s); r.Some? ==> IsSuffix(r.value.1, s)
  {
    hide DecodedString, DecodeVarint32, DecodeVarint;
    DecodedStringSuffix(s);
    DecodeVarint32Suffix(s);
    DecodeVarintSuffix(s, 10, 1, TWO_64, 0);
  }

  lemma DecodedItemSuffix(lt: LType, s: Bytes, current: Value, fresh_: bool)
    ensures var r := DecodedItem(lt, s, current, fresh_); r.Some? ==> IsSuffix(r.value.1, s)
  {
    hide DecodedString, DecodedScalar, Decoded;
    DecodedStringSuffix(s);
    DecodedScalarSuffix(lt, s);
  }

  lemma DecodedFieldSuffix(mt: MessageType, i: nat, wire: nat, s: Bytes, m: Message, st: State)
    requires i < |mt.fields| == |m.slots|
    ensures var r := DecodedField(mt, i, wire, s, m, st);
            r.Some? ==> IsSuffix(r.value.2, s) && r.value.1.seen <= SeenAfter(mt.fields, i, st.seen)
  {
    hide DecodedString, DecodedItem, DecodedPacked, RequiredBefore;
    var f := mt.fields[i];
    DecodedStringSuffix(s);
    DecodedItemSuffix(f.ltype, s, NOTHING, true);
    DecodedItemSuffix(f.ltype, s, Item(m, i), false);
    if f.htype.Oneof? {
      var same := f.htype.group in m.which && m.which[f.htype.group].tag == f.tag;
      DecodedItemSuffix(f.ltype, s, if same then m.which[f.htype.group].value else DefaultValue(f), false);
    }
  }

  /** Somewhere in the stream the field's tag is read. */
  ghost predicate TagOccurs(s: Bytes, tag: nat) {
    exists p :: 0 <= p < |s| && DecodeVarint32(s[p..]).Some? && DecodeVarint32(s[p..]).value.0 / 8 == tag
  }

  lemma OccursInSuffix(r: Bytes, s: Bytes, tag: nat)
    requires IsSuffix(r, s) && TagOccurs(r, tag)
    ensures TagOccurs(s, tag)
  {
    hide DecodeVarint32;
    var p :| 0 <= p < |r| && DecodeVarint32(r[p..]).Some? && DecodeVarint32(r[p..]).value.0 / 8 == tag;
    assert r[p..] == s[|s| - |r| + p..];
  }

  lemma {:induction false} RequiredCounts(fields: seq<Field>, i: nat, j: nat)
    requires i < j < |fields| && fields[i].htype.Required?
    ensures RequiredBefore(fields, i) < RequiredBefore(fields, j)
    decreases j
  {
    if i < j - 1 {
      RequiredCounts(fields, i, j - 1);
    }
  }

  /** A message without one of its required fields is refused, whatever else is in it; the decoder keeps
      track of the first 64 of them. */
  lemma {:induction false} RequiredFieldsCome(mt: MessageType, s: Bytes, m: Message, st: State, i: nat)
    requires |m.slots| == |mt.fields| && i < |mt.fields| && mt.fields[i].htype.Required?
    requires RequiredBefore(mt.fields, i) < MAX_REQUIRED_FIELDS && RequiredBefore(mt.fields, i) !in st.seen
    requires Decoded(mt, s, m, st).Some?
    ensures TagOccurs(s, mt.fields[i].tag)
    decreases |s|
  {
    hide DecodeVarint32, Skip, DecodedField, RequiredBefore, SeenAfter, TagOccurs, IndexFrom;
    CountedAtEnd(mt, m, st, i);
    var t := DecodeVarint32(s).value;
    DecodeVarint32Suffix(s);
    var k := IndexFrom(mt.fields, st.position, t.0 / 8);
    if k == |mt.fields| {
      SkipSuffix(t.1, t.0 % 8);
      var rest := Skip(t.1, t.0 % 8).value;
      RequiredFieldsCome(mt, rest, m, st, i);
      SuffixOfSuffix(rest, t.1, s);
      OccursInSuffix(rest, s, mt.fields[i].tag);
    } else {
      var here := st.(position := k);
      DecodedFieldSuffix(mt, k, t.0 % 8, t.1, m, here);
      var r := DecodedField(mt, k, t.0 % 8, t.1, m, here).value;
      if k == i {
        TagIsHere(s, mt.fields[i].tag);
      } else {
        NotThisOne(mt.fields, i, k, st.seen);
        RequiredFieldsCome(mt, r.2, r.0, r.1, i);
        SuffixOfSuffix(r.2, t.1, s);
        OccursInSuffix(r.2, s, mt.fields[i].tag);
      }
    }
  }

  lemma TagIsHere(s: Bytes, tag: nat)
    requires s != [] && DecodeVarint32(s).Some? && DecodeVarint32(s).value.0 / 8 == tag
    ensures TagOccurs(s, tag)
  {
    assert s[0..] == s;
  }

  lemma CountedAtEnd(mt: MessageType, m: Message, st: State, i: nat)
    requires |m.slots| == |mt.fields| && i < |mt.fields| && mt.fields[i].htype.Required?
    requires RequiredBefore(mt.fields, i) < MAX_REQUIRED_FIELDS && RequiredBefore(mt.fields, i) !in st.seen
    ensures AtEnd(mt, m, st) == None
  {
    var n := |mt.fields|;
    if i < n - 1 {
      RequiredCounts(mt.fields, i, n - 1);
    }
  }

  lemma NotThisOne(fields: seq<Field>, i: nat, k: nat, seen: set<nat>)
    requires i < |fields| && k < |fields| && i != k && fields[i].htype.Required?
    requires RequiredBefore(fields, i) !in seen
    ensures RequiredBefore(fields, i) !in SeenAfter(fields, k, seen)
  {
    if fields[k].htype.Required? {
      if i < k {
        RequiredCounts(fields, i, k);
      } else {
        RequiredCounts(fields, k, i);
      }
    }
  }

  // ------------------------------------------------------------------ any bytes at all

  /** What a value read from the stream can be: within its type's size, a string with its terminator. */
  ghost predicate ItemBounded(lt: LType, v: Value)
    decreases lt, 0
  {
    match lt
    case Submessage(mt) => v.Msg? && Bounded(mt, v.message)
    case _ => ScalarFits(lt, v) && LeavesRoom(lt, v)
  }

  /** Arrays keep to their size; an entry of a fixed-length array may not have come yet. */
  ghost predicate SlotBounded(f: Field, s: Slot)
    decreases f, 1
  {
    match f.htype
    case Repeated(max) => |s.items| <= max && forall k :: 0 <= k < |s.items| ==> ItemBounded(f.ltype, s.items[k])
    case FixedCount(n) =>
      |s.items| == n && forall k :: 0 <= k < |s.items| ==> s.items[k] == NOTHING || ItemBounded(f.ltype, s.items[k])
    case Oneof(_) => true
    case _ => |s.items| == 1 && ItemBounded(f.ltype, s.items[0])
  }

  ghost predicate ChoiceBounded(mt: MessageType, g: nat, c: Choice)
    decreases mt, 1
  {
    exists i :: 0 <= i < |mt.fields| && mt.fields[i].htype == Oneof(g) && mt.fields[i].tag == c.tag
                && ItemBounded(mt.fields[i].ltype, c.value)
  }

  /** No field of the structure holds more than there is room for. */
  ghost predicate Bounded(mt: MessageType, m: Message)
    decreases mt, 2
  {
    && |m.slots| == |mt.fields|
    && (forall i :: 0 <= i < |mt.fields| ==> SlotBounded(mt.fields[i], m.slots[i]))
    && (forall g :: g in m.which ==> ChoiceBounded(mt, g, m.which[g]))
  }

  /** The initial values of a message type fit their fields; oneofs have members of different tags. */
  ghost predicate TypeOk(mt: MessageType) {
    && (forall i :: 0 <= i < |mt.fields| ==> FieldOk(mt.fields[i]))
    && (forall i, j :: 0 <= i < j < |mt.fields| ==> mt.fields[i].tag != mt.fields[j].tag)
  }

  ghost predicate FieldOk(f: Field) {
    match f.ltype
    case Submessage(sub) => TypeOk(sub)
    case _ => !IsArray(f) && !f.htype.Oneof? ==> ScalarFits(f.ltype, f.initial) && LeavesRoom(f.ltype, f.initial)
  }

  lemma {:induction false} DefaultsBounded(mt: MessageType)
    requires TypeOk(mt)
    ensures Bounded(mt, Defaults(mt))
    decreases mt
  {
    forall i | 0 <= i < |mt.fields|
      ensures SlotBounded(mt.fields[i], DefaultSlot(mt.fields[i]))
    {
      var f := mt.fields[i];
      assert FieldOk(f);
      if f.ltype.Submessage? {
        DefaultsBounded(f.ltype.message);
      } else {
        ScalarBounded(f.ltype, f.initial);
      }
      hide Bounded;
    }
    hide SlotBounded, DefaultSlot;
  }

  lemma {:induction false} NoNulUpTo(s: Bytes)
    ensures 0 !in UpToNul(s) && |UpToNul(s)| <= |s|
  {
    if s != [] && s[0] != 0 {
      NoNulUpTo(s[1..]);
    }
  }

  lemma DecodedScalarFits(lt: LType, s: Bytes)
    ensures var r := DecodedScalar(lt, s); r.Some? ==> ScalarFits(lt, r.value.0) && LeavesRoom(lt, r.value.0)
  {
    hide DecodedString, DecodeVarint32, GetVarint64, Signed64, Signed32, UnZigZag, UpToNul;
    if lt.Text? && DecodedString(s).Some? {
      NoNulUpTo(DecodedString(s).value.0);
    }
  }

  lemma {:induction false} DecodedItemBounded(lt: LType, s: Bytes, current: Value, fresh_: bool)
    requires lt.Submessage? ==> TypeOk(lt.message) && (!fresh_ && current.Msg? ==> Bounded(lt.message, current.message))
    ensures var r := DecodedItem(lt, s, current, fresh_); r.Some? ==> ItemBounded(lt, r.value.0)
    decreases |s|, 0
  {
    hide DecodedScalar, DecodedString, Decoded, Bounded, ScalarFits, LeavesRoom, TypeOk;
    if lt.Submessage? {
      DefaultsBounded(lt.message);
      var r := DecodedItem(lt, s, current, fresh_);
      if r.Some? {
        var start := if fresh_ then Defaults(lt.message) else if current.Msg? then current.message
          else Message([], map[]);
        StringShorter(s);
        if fresh_ || current.Msg? {
          DecodedBounded(lt.message, DecodedString(s).value.0, start, START);
        } else {
          EmptyBounded(lt.message, start);
          DecodedBounded(lt.message, DecodedString(s).value.0, start, START);
        }
      }
    } else {
      DecodedScalarFits(lt, s);
    }
  }

  lemma StringShorter(s: Bytes)
    ensures DecodedString(s).Some? ==> |DecodedString(s).value.0| < |s|
  {
    hide DecodeVarint32;
  }

  lemma EmptyBounded(mt: MessageType, m: Message)
    requires m == Message([], map[]) && |mt.fields| == 0
    ensures Bounded(mt, m)
  {
  }

  lemma {:induction false} PackedBounded(lt: LType, s: Bytes, items: seq<Value>, count: nat, max: nat)
    requires !lt.Submessage? && count <= |items| && count <= max
    requires forall k :: 0 <= k < |items| ==> items[k] == NOTHING || ItemBounded(lt, items[k])
    ensures var r := DecodedPacked(lt, s, items, count, max);
            r.Some? ==>
              && count <= r.value.1 <= max && r.value.1 <= |r.value.0|
              && |r.value.0| == (if r.value.1 <= |items| then |items| else r.value.1)
              && (forall k :: 0 <= k < |r.value.0| ==> r.value.0[k] == NOTHING || ItemBounded(lt, r.value.0[k]))
              && ((forall k :: 0 <= k < |items| ==> ItemBounded(lt, items[k])) ==>
                    forall k :: 0 <= k < |r.value.0| ==> ItemBounded(lt, r.value.0[k]))
    decreases |s|
  {
    hide DecodedScalar, ItemBounded;
    if s != [] && count < max && DecodedScalar(lt, s).Some? {
      var v := DecodedScalar(lt, s).value;
      DecodedScalarFits(lt, s);
      ScalarBounded(lt, v.0);
      PackedBounded(lt, v.1, StoreAt(items, count, v.0), count + 1, max);
    }
  }

  lemma ScalarBounded(lt: LType, v: Value)
    requires !lt.Submessage?
    ensures ItemBounded(lt, v) <==> ScalarFits(lt, v) && LeavesRoom(lt, v)
  {
  }

  ghost predicate EntriesBounded(lt: LType, items: seq<Value>, all: bool) {
    forall k :: 0 <= k < |items| ==> (!all && items[k] == NOTHING) || ItemBounded(lt, items[k])
  }

  lemma {:induction false} DecodedEntriesBounded(lt: LType, wire: nat, s: Bytes, items: seq<Value>, count: nat,
      max: nat,
      all: bool)
    requires lt.Submessage? ==> TypeOk(lt.message)
    requires count <= |items| && count <= max && EntriesBounded(lt, items, all)
    ensures var r := DecodedEntries(lt, wire, s, items, count, max);
            r.Some? ==>
              && count <= r.value.1 <= max && r.value.1 <= |r.value.0|
              && |r.value.0| == (if r.value.1 <= |items| then |items| else r.value.1)
              && EntriesBounded(lt, r.value.0, all)
    decreases |s|, 1
  {
    hide DecodedItem, DecodedPacked, DecodedString, ItemBounded, TypeOk;
    if wire == 2 && Packable(lt) {
      if DecodedString(s).Some? {
        PackedBounded(lt, DecodedString(s).value.0, items, count, max);
      }
    } else {
      DecodedItemBounded(lt, s, NOTHING, true);
    }
  }

  /** How far the current fixed-length array has come is within its length. */
  ghost predicate StateBounded(mt: MessageType, st: State) {
    st.fixedField.Some? ==> st.fixedCount <= FixedMax(mt.fields, st.fixedField.value)
  }

  lemma {:induction false} DecodedFieldBounded(mt: MessageType, i: nat, wire: nat, s: Bytes, m: Message, st: State)
    requires i < |mt.fields| && TypeOk(mt) && Bounded(mt, m) && StateBounded(mt, st)
    ensures |m.slots| == |mt.fields|
    ensures var r := DecodedField(mt, i, wire, s, m, st);
            r.Some? ==> Bounded(mt, r.value.0) && StateBounded(mt, r.value.1)
    decreases |s|, 2
  {
    var f := mt.fields[i];
    assert FieldOk(f) && SlotBounded(f, m.slots[i]);
    var r := DecodedField(mt, i, wire, s, m, st);
    hide DecodedItem, DecodedEntries, TypeOk, ScalarFits, LeavesRoom;
    if r.Some? {
      match f.htype
      case Repeated(max) =>
        ArrayBounded(f, m.slots[i]);
        DecodedEntriesBounded(f.ltype, wire, s, m.slots[i].items, |m.slots[i].items|, max, true);
        BoundedStore(mt, m, i, r.value.0);
      case FixedCount(n) =>
        ArrayBounded(f, m.slots[i]);
        var count := if st.fixedField == Some(i) then st.fixedCount else 0;
        DecodedEntriesBounded(f.ltype, wire, s, m.slots[i].items, count, n, false);
        BoundedStore(mt, m, i, r.value.0);
      case Oneof(g) =>
        var same := g in m.which && m.which[g].tag == f.tag;
        OneofCurrent(mt, m, i);
        DecodedItemBounded(f.ltype, s, if same then m.which[g].value else DefaultValue(f), false);
        BoundedChoice(mt, m, i, r.value.0);
      case _ =>
        DecodedItemBounded(f.ltype, s, Item(m, i), false);
        BoundedStore(mt, m, i, r.value.0);
    }
  }

  lemma ArrayBounded(f: Field, s: Slot)
    requires IsArray(f)
    ensures var room := if f.htype.Repeated? then |s.items| <= f.htype.max else |s.items| == f.htype.count;
            SlotBounded(f, s) == (EntriesBounded(f.ltype, s.items, f.htype.Repeated?) && room)
  {
  }

  lemma BoundedStore(mt: MessageType, m: Message, i: nat, r: Message)
    requires i < |mt.fields| && Bounded(mt, m) && r.which == m.which
    requires |r.slots| == |m.slots| && r.slots == m.slots[i := r.slots[i]] && SlotBounded(mt.fields[i], r.slots[i])
    ensures Bounded(mt, r)
  {
    hide SlotBounded, ChoiceBounded;
  }

  lemma BoundedChoice(mt: MessageType, m: Message, i: nat, r: Message)
    requires i < |mt.fields| && Bounded(mt, m) && r.slots == m.slots && mt.fields[i].htype.Oneof?
    requires var g := mt.fields[i].htype.group;
             && g in r.which && r.which == m.which[g := r.which[g]] && r.which[g].tag == mt.fields[i].tag
             && ItemBounded(mt.fields[i].ltype, r.which[g].value)
    ensures Bounded(mt, r)
  {
    var g := mt.fields[i].htype.group;
    assert ChoiceBounded(mt, g, r.which[g]);
    hide SlotBounded, ChoiceBounded, ItemBounded;
  }

  /** What a oneof holds already is a value of the member that its tag says. */
  lemma OneofCurrent(mt: MessageType, m: Message, i: nat)
    requires i < |mt.fields| && TypeOk(mt) && Bounded(mt, m) && mt.fields[i].htype.Oneof?
    ensures var f := mt.fields[i];
            && (f.ltype.Submessage? ==> TypeOk(f.ltype.message) && DefaultValue(f).Msg?
                                        && Bounded(f.ltype.message, DefaultValue(f).message))
            && (f.htype.group in m.which && m.which[f.htype.group].tag == f.tag ==>
                  ItemBounded(f.ltype, m.which[f.htype.group].value))
  {
    var f := mt.fields[i];
    assert FieldOk(f);
    if f.ltype.Submessage? {
      DefaultsBounded(f.ltype.message);
    }
    if f.htype.group in m.which && m.which[f.htype.group].tag == f.tag {
      assert ChoiceBounded(mt, f.htype.group, m.which[f.htype.group]);
    }
  }

  /** Whatever bytes come in, a message that is read without complaint holds nothing that its fields have
      no room for: strings keep their terminator, arrays their size, integers their width. */
  lemma {:induction false} DecodedBounded(mt: MessageType, s: Bytes, m: Message, st: State)
    requires TypeOk(mt) && Bounded(mt, m) && StateBounded(mt, st)
    ensures |m.slots| == |mt.fields|
    ensures var r := Decoded(mt, s, m, st); r.Some? ==> Bounded(mt, r.value)
    decreases |s|, 3
  {
    assert |m.slots| == |mt.fields|;
    hide DecodeVarint32, Skip, DecodedField, TypeOk, Bounded, IndexFrom;
    if s != [] && DecodeVarint32(s).Some? && DecodeVarint32(s).value.0 != 0 {
      var t := DecodeVarint32(s).value;
      var k := IndexFrom(mt.fields, st.position, t.0 / 8);
      if k == |mt.fields| {
        if Skip(t.1, t.0 % 8).Some? {
          DecodedBounded(mt, Skip(t.1, t.0 % 8).value, m, st);
        }
      } else {
        var here := st.(position := k);
        DecodedFieldBounded(mt, k, t.0 % 8, t.1, m, here);
        if DecodedField(mt, k, t.0 % 8, t.1, m, here).Some? {
          var r := DecodedField(mt, k, t.0 % 8, t.1, m, here).value;
          DecodedBounded(mt, r.2, r.0, r.1);
        }
      }
    }
  }

  /** Decoding any bytes into a fresh structure stays within it. */
  method DecodeAnything(mt: MessageType, stream: Bytes) returns (r: Option<Message>)
    requires TypeOk(mt)
    ensures r.Some? ==> Bounded(mt, r.value)
    ensures r.Some? ==> forall i :: 0 <= i < |mt.fields| && mt.fields[i].htype.Required?
                                    && RequiredBefore(mt.fields, i) < MAX_REQUIRED_FIELDS ==>
                          TagOccurs(stream, mt.fields[i].tag)
  {
    r := Decode(mt, stream);
    DefaultsBounded(mt);
    DecodedBounded(mt, stream, Defaults(mt), START);
    if r.Some? {
      forall i | 0 <= i < |mt.fields| && mt.fields[i].htype.Required?
                 && RequiredBefore(mt.fields, i) < MAX_REQUIRED_FIELDS
        ensures TagOccurs(stream, mt.fields[i].tag)
      {
        RequiredFieldsCome(mt, stream, Defaults(mt), START, i);
      }
    }
  }
}
