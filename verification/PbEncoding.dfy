/** The nanopb encoder over an output stream.  A stream without a callback only counts; submessages
    and packed arrays are measured on such a stream before they are written. */
module PbEncoding {
  import opened Options
  import opened Coding
  import opened PbScalars
  import opened PbMessages

  lemma NothingTagged(tag: nat, lt: LType)
    ensures Tagged(tag, lt, []) == []
  {
  }

  lemma TaggedNext(tag: nat, lt: LType, items: seq<Value>, i: nat)
    requires i < |items|
    ensures Tagged(tag, lt, items[i..]) == TagBytes(tag, WireType(lt)) + EncodedItem(lt, items[i])
                                           + Tagged(tag, lt, items[i + 1..])
  {
    hide TagBytes, EncodedItem;
    assert items[i..][1..] == items[i + 1..];
  }

  class OStream {
    const sizing: bool
    const maxSize: nat
    var buffer: Bytes
    var bytesWritten: nat

    constructor (sizing: bool, maxSize: nat, buffer: Bytes)
      ensures this.sizing == sizing && this.maxSize == maxSize && this.buffer == buffer && bytesWritten == 0
    {
      this.sizing, this.maxSize, this.buffer, bytesWritten := sizing, maxSize, buffer, 0;
    }

    /** There is room for n more bytes. */
    predicate Room(n: nat)
      reads this
    {
      sizing || bytesWritten + n <= maxSize
    }

    /** What this stream has after writing these bytes, within its size. */
    twostate predicate Wrote(bytes: Bytes)
      reads this
    {
      && bytesWritten == old(bytesWritten) + |bytes| && buffer == old(buffer) + (if sizing then [] else bytes)
      && (bytes != [] ==> sizing || bytesWritten <= maxSize)
    }

    method Write(bytes: Bytes) returns (ok: bool)
      modifies this
      ensures ok == (old(Room(|bytes|)) || bytes == [])
      ensures ok ==> Wrote(bytes)
    {
      if |bytes| > 0 && !sizing {
        if bytesWritten + |bytes| > maxSize {
          return false;
        }
        buffer := buffer + bytes;
      }
      bytesWritten := bytesWritten + |bytes|;
      return true;
    }

    method PutVarint(value: nat) returns (ok: bool)
      modifies this
      ensures old(Room(|Coding.Varint(value)|)) ==> ok
      ensures ok ==> Wrote(Coding.Varint(value))
    {
      var bytes := EncodeVarint(value);
      ok := Write(bytes);
    }

    method PutString(bytes: Bytes) returns (ok: bool)
      modifies this
      ensures old(Room(|LengthPrefixed(bytes)|)) ==> ok
      ensures ok ==> Wrote(LengthPrefixed(bytes))
    {
      ok := PutVarint(|bytes|);
      if ok {
        ok := Write(bytes);
      }
    }

    method PutScalar(lt: LType, v: Value) returns (ok: bool)
      requires !lt.Submessage?
      modifies this
      ensures old(Room(|EncodedScalar(lt, v)|)) && (lt.ByteArray? ==> |StrOf(v)| <= lt.max) ==> ok
      ensures ok && lt.ByteArray? ==> |StrOf(v)| <= lt.max
      ensures ok ==> Wrote(EncodedScalar(lt, v))
    {
      match lt
      case Bool => ok := PutVarint(if IntOf(v) != 0 then 1 else 0);
      case Varint(_) => ok := PutVarint(Clamp(IntOf(v), TWO_64));
      case Uvarint(_) => ok := PutVarint(Clamp(IntOf(v), TWO_64));
      case Svarint(_) => ok := PutVarint(if -TWO_63 <= IntOf(v) < TWO_63 then ZigZag(IntOf(v)) else 0);
      case Fixed32 => ok := Write(Coding.Fixed32(Clamp(IntOf(v), TWO_32)));
      case Fixed64 => ok := Write(Coding.Fixed64(Clamp(IntOf(v), TWO_64)));
      case ByteArray(max) =>
        if |StrOf(v)| > max {
          return false;
        }
        ok := PutString(StrOf(v));
      case Text(_) => ok := PutString(StrOf(v));
      case FixedBytes(_) => ok := PutString(StrOf(v));
      case Submessage(_) => assert false;
    }

    method PutTag(tag: nat, wire: nat) returns (ok: bool)
      modifies this
      ensures old(Room(|TagBytes(tag, wire)|)) ==> ok
      ensures ok ==> Wrote(TagBytes(tag, wire))
    {
      ok := PutVarint(tag * 8 + wire);
    }

    /** Measures a packed array by encoding it once without writing. */
    method PackedSize(lt: LType, items: seq<Value>) returns (size: nat)
      requires Packable(lt)
      ensures size == |PackedItems(lt, items)|
    {
      if lt.Fixed32? {
        size := 4 * |items|;
        FixedSize(lt, items, 4);
      } else if lt.Fixed64? {
        size := 8 * |items|;
        FixedSize(lt, items, 8);
      } else {
        var stream := new OStream(true, 0, []);
        var ok := stream.PutPacked(lt, items);
        size := stream.bytesWritten;
      }
    }

    static lemma {:induction false} FixedSize(lt: LType, items: seq<Value>, n: nat)
      requires (lt.Fixed32? && n == 4) || (lt.Fixed64? && n == 8)
      ensures |PackedItems(lt, items)| == n * |items|
    {
      if items != [] {
        FixedSize(lt, items[1..], n);
      }
    }

    method PutPacked(lt: LType, items: seq<Value>) returns (ok: bool)
      requires Packable(lt)
      modifies this
      ensures old(Room(|PackedItems(lt, items)|)) ==> ok
      ensures ok ==> Wrote(PackedItems(lt, items))
    {
      hide EncodedScalar;
      assert items[0..] == items;
      ghost var all := PackedItems(lt, items);
      ghost var start, count := buffer, bytesWritten;
      for i := 0 to |items|
        invariant |PackedItems(lt, items[i..])| <= |all|
                  && bytesWritten == count + |all| - |PackedItems(lt, items[i..])|
        invariant bytesWritten > count ==> sizing || bytesWritten <= maxSize
        invariant sizing ==> buffer == start
        invariant !sizing ==> buffer + PackedItems(lt, items[i..]) == start + all
      {
        assert items[i..][1..] == items[i + 1..];
        ok := PutScalar(lt, items[i]);
        if !ok {
          return;
        }
      }
      ok := true;
    }

    method PutItem(lt: LType, v: Value) returns (ok: bool)
      modifies this
      ensures ok ==> Wrote(EncodedItem(lt, v)) && ItemWithin(lt, v)
      ensures ItemWithin(lt, v) && old(Room(|EncodedItem(lt, v)|)) ==> ok
      decreases lt, 0
    {
      if lt.Submessage? {
        if v.Msg? && |v.message.slots| == |lt.message.fields| {
          ok := PutSubmessage(lt.message, v.message);
        } else {
          return false;
        }
      } else {
        ok := PutScalar(lt, v);
      }
    }

    /** A submessage is encoded twice: once to learn its size, once to write it, on a stream that
        admits no more than that. */
    method PutSubmessage(mt: MessageType, m: Message) returns (ok: bool)
      requires |m.slots| == |mt.fields|
      modifies this
      ensures ok ==> Wrote(LengthPrefixed(Encoded(mt, m, 0))) && MessageWithin(mt, m)
      ensures MessageWithin(mt, m) && old(Room(|LengthPrefixed(Encoded(mt, m, 0))|)) ==> ok
      decreases mt, 5
    {
      hide Encoded, MessageWithin;
      var measure := new OStream(true, 0, []);
      ok := measure.PutMessage(mt, m);
      if !ok {
        return;
      }
      var size := measure.bytesWritten;
      ok := PutVarint(size);
      if !ok {
        return;
      }
      if sizing {
        bytesWritten := bytesWritten + size;
        return;
      }
      if bytesWritten + size > maxSize {
        return false;
      }
      var substream := new OStream(false, size, buffer);
      ok := substream.PutMessage(mt, m);
      bytesWritten := bytesWritten + substream.bytesWritten;
      buffer := substream.buffer;
      if substream.bytesWritten != size {
        return false;
      }
    }

    method PutTaggedItem(tag: nat, lt: LType, v: Value) returns (ok: bool)
      modifies this
      ensures ok ==> Wrote(TagBytes(tag, WireType(lt)) + EncodedItem(lt, v)) && ItemWithin(lt, v)
      ensures ItemWithin(lt, v) && old(Room(|TagBytes(tag, WireType(lt)) + EncodedItem(lt, v)|)) ==> ok
      decreases lt, 1
    {
      hide EncodedItem, TagBytes, ItemWithin;
      ok := PutTag(tag, WireType(lt));
      if ok {
        ok := PutItem(lt, v);
      }
    }

    method PutField(mt: MessageType, m: Message, i: nat) returns (ok: bool)
      requires i < |mt.fields| == |m.slots|
      modifies this
      ensures ok ==> Wrote(EncodedField(mt, m, i)) && FieldWithin(mt, m, i)
      ensures FieldWithin(mt, m, i) && old(Room(|EncodedField(mt, m, i)|)) ==> ok
      decreases mt, 3
    {
      hide EncodedItem, TagBytes, ItemWithin, ItemsWithin, EncodedArray, IsZero;
      var f := mt.fields[i];
      ok := true;
      match f.htype
      case Required => ok := PutTaggedItem(f.tag, f.ltype, Item(m, i));
      case Optional =>
        if m.slots[i].has {
          ok := PutTaggedItem(f.tag, f.ltype, Item(m, i));
        }
      case Singular =>
        if !IsZero(mt, m, i) {
          ok := PutTaggedItem(f.tag, f.ltype, Item(m, i));
        }
      case Repeated(max) => ok := PutArray(f.tag, f.ltype, m.slots[i].items, max);
      case FixedCount(n) => ok := PutArray(f.tag, f.ltype, m.slots[i].items, n);
      case Oneof(g) =>
        if g in m.which && m.which[g].tag == f.tag {
          ok := PutTaggedItem(f.tag, f.ltype, m.which[g].value);
        }
    }

    /** Every field in turn. */
    method PutMessage(mt: MessageType, m: Message) returns (ok: bool)
      requires |m.slots| == |mt.fields|
      modifies this
      ensures ok ==> Wrote(Encoded(mt, m, 0)) && MessageWithin(mt, m)
      ensures MessageWithin(mt, m) && old(Room(|Encoded(mt, m, 0)|)) ==> ok
      decreases mt, 4
    {
      hide EncodedField, FieldWithin;
      ghost var all := Encoded(mt, m, 0);
      ghost var start, count := buffer, bytesWritten;
      for i := 0 to |mt.fields|
        invariant |Encoded(mt, m, i)| <= |all| && bytesWritten == count + |all| - |Encoded(mt, m, i)|
        invariant bytesWritten > count ==> sizing || bytesWritten <= maxSize
        invariant sizing ==> buffer == start
        invariant !sizing ==> buffer + Encoded(mt, m, i) == start + all
        invariant forall k :: 0 <= k < i ==> FieldWithin(mt, m, k)
      {
        ok := PutField(mt, m, i);
        if !ok {
          return;
        }
      }
      ok := true;
    }

    method PutArray(tag: nat, lt: LType, items: seq<Value>, max: nat) returns (ok: bool)
      modifies this
      ensures ok ==> Wrote(EncodedArray(tag, lt, items)) && |items| <= max && ItemsWithin(lt, items)
      ensures |items| <= max && ItemsWithin(lt, items) && old(Room(|EncodedArray(tag, lt, items)|)) ==> ok
      decreases lt, 3
    {
      hide EncodedItem, PackedItems, TagBytes, Tagged;
      if items == [] {
        return true;
      }
      if |items| > max {
        return false;
      }
      if Packable(lt) {
        ok := PutTag(tag, 2);
        if !ok {
          return;
        }
        var size := PackedSize(lt, items);
        ok := PutVarint(size);
        if !ok {
          return;
        }
        if sizing {
          bytesWritten := bytesWritten + size;
        } else {
          ok := PutPacked(lt, items);
        }
      } else {
        ok := PutTagged(tag, lt, items);
      }
    }

    method PutTagged(tag: nat, lt: LType, items: seq<Value>) returns (ok: bool)
      modifies this
      ensures ok ==> Wrote(Tagged(tag, lt, items)) && ItemsWithin(lt, items)
      ensures ItemsWithin(lt, items) && old(Room(|Tagged(tag, lt, items)|)) ==> ok
      decreases lt, 2
    {
      hide EncodedItem, TagBytes, ItemWithin, Tagged;
      assert items[0..] == items && items[|items|..] == [];
      NothingTagged(tag, lt);
      ghost var all := Tagged(tag, lt, items);
      ghost var start, count := buffer, bytesWritten;
      for i := 0 to |items|
        invariant |Tagged(tag, lt, items[i..])| <= |all|
                  && bytesWritten == count + |all| - |Tagged(tag, lt, items[i..])|
        invariant bytesWritten > count ==> sizing || bytesWritten <= maxSize
        invariant sizing ==> buffer == start
        invariant !sizing ==> buffer + Tagged(tag, lt, items[i..]) == start + all
        invariant forall k :: 0 <= k < i ==> ItemWithin(lt, items[k])
      {
        TaggedNext(tag, lt, items, i);
        ok := PutTag(tag, WireType(lt));
        if !ok {
          return;
        }
        ok := PutItem(lt, items[i]);
        if !ok {
          return;
        }
      }
      ok := true;
    }
  }

  /** The size a message will have when it is written. */
  method GetEncodedSize(mt: MessageType, m: Message) returns (size: Option<nat>)
    requires |m.slots| == |mt.fields|
    ensures size.Some? ==> size.value == |Encoded(mt, m, 0)|
    ensures size.Some? <==> MessageWithin(mt, m)
  {
    var stream := new OStream(true, 0, []);
    var ok := stream.PutMessage(mt, m);
    size := if ok then Some(stream.bytesWritten) else None;
  }

  // ------------------------------------------------------------------ what the encoder checks

  /** Byte arrays no longer than they may be and arrays with no more entries, all the way down. */
  predicate ItemWithin(lt: LType, v: Value)
    decreases lt, 0
  {
    match lt
    case Submessage(mt) => v.Msg? && |v.message.slots| == |mt.fields| && MessageWithin(mt, v.message)
    case ByteArray(max) => |StrOf(v)| <= max
    case _ => true
  }

  predicate ItemsWithin(lt: LType, items: seq<Value>)
    decreases lt, 1
  {
    forall i :: 0 <= i < |items| ==> ItemWithin(lt, items[i])
  }

  predicate MessageWithin(mt: MessageType, m: Message)
    requires |m.slots| == |mt.fields|
    decreases mt, 1
  {
    forall i :: 0 <= i < |mt.fields| ==> FieldWithin(mt, m, i)
  }

  predicate FieldWithin(mt: MessageType, m: Message, i: nat)
    requires i < |mt.fields| == |m.slots|
    decreases mt, 0
  {
    var f := mt.fields[i];
    match f.htype
    case Repeated(max) => |m.slots[i].items| <= max && ItemsWithin(f.ltype, m.slots[i].items)
    case FixedCount(n) => |m.slots[i].items| <= n && ItemsWithin(f.ltype, m.slots[i].items)
    case Oneof(g) => g in m.which && m.which[g].tag == f.tag ==> ItemWithin(f.ltype, m.which[g].value)
    case Optional => m.slots[i].has ==> ItemWithin(f.ltype, Item(m, i))
    case Singular => !IsZero(mt, m, i) ==> ItemWithin(f.ltype, Item(m, i))
    case Required => ItemWithin(f.ltype, Item(m, i))
  }
}
