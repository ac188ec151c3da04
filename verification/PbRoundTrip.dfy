/** Decoding what was encoded gives the message back, up to defaults. */
module PbRoundTrip {
  import opened Options
  import opened Coding
  import opened PbScalars
  import opened PbMessages
  import opened PbDecoding

  // ------------------------------------------------------------------ defaults

  /** A submessage of nothing but zeros comes back as the defaults, so it need not be written. */
  lemma {:induction false} ZeroIsDefault(mt: MessageType, m: Message)
    requires Fits(mt, m) && AllZero(mt, m, 0)
    ensures Normal(mt, m) == Defaults(mt)
    decreases mt, 1
  {
    ZeroSlots(mt, m, |mt.fields|);
    var n := |mt.fields|;
    assert NormalSlots(mt, m, n) == DefaultSlots(mt, 0);
  }

  lemma {:induction false} ZeroFrom(mt: MessageType, m: Message, i: nat, j: nat)
    requires i <= j < |mt.fields| && AllZero(mt, m, i)
    ensures IsZero(mt, m, j)
    decreases j - i
  {
    if i < j {
      ZeroFrom(mt, m, i + 1, j);
    }
  }

  lemma {:induction false} FitsAt(mt: MessageType, m: Message, n: nat, i: nat)
    requires i < n <= |mt.fields| == |m.slots| && FieldsFit(mt, m, n)
    ensures FieldFits(mt, m, i)
    decreases n
  {
    if i < n - 1 {
      FitsAt(mt, m, n - 1, i);
    }
  }

  lemma {:induction false} ZeroSlots(mt: MessageType, m: Message, n: nat)
    requires Fits(mt, m) && AllZero(mt, m, 0) && n <= |mt.fields|
    ensures forall j :: 0 <= j < n ==> NormalSlots(mt, m, n)[j] == DefaultSlot(mt.fields[j])
    ensures NormalWhich(mt, m, n) == map[]
    decreases mt, 0, n
  {
    if n > 0 {
      ZeroSlots(mt, m, n - 1);
      ZeroFrom(mt, m, 0, n - 1);
      FitsAt(mt, m, |mt.fields|, n - 1);
      hide Fits, ItemFits, AllFit;
    }
  }

  // ------------------------------------------------------------------ one value

  lemma TagDecodes(mt: MessageType, i: nat, wire: nat, s: Bytes, m: Message, st: State)
    requires i < |mt.fields| == |m.slots| && wire < 8
    requires 0 < mt.fields[i].tag < 0x2000_0000 && forall j, k :: 0 <= j < k < |mt.fields| ==>
               mt.fields[j].tag != mt.fields[k].tag
    ensures Decoded(mt, TagBytes(mt.fields[i].tag, wire) + s, m, st) ==
            match DecodedField(mt, i, wire, s, m, st.(position := i))
            case None => None
            case Some(r) => Decoded(mt, r.2, r.0, r.1)
  {
    hide DecodeVarint32, Coding.Varint, DecodedField, AtEnd, IndexFrom, Skip;
    var t := mt.fields[i].tag * 8 + wire;
    DecodeVarint32Encoded(t, s);
    assert t / 8 == mt.fields[i].tag && t % 8 == wire;
    assert IndexFrom(mt.fields, st.position, t / 8) == i;
  }

  // ------------------------------------------------------------------ the structure being filled

  lemma {:induction false} NormalSlotsAt(mt: MessageType, m: Message, n: nat, j: nat)
    requires j < n <= |mt.fields|
    ensures NormalSlots(mt, m, n)[j] == NormalSlot(mt, m, j)
    decreases n
  {
    hide NormalSlot;
    if j < n - 1 {
      NormalSlotsAt(mt, m, n - 1, j);
    }
  }

  /** Before field i is decoded its slot is the default; afterwards the structure has moved on by one. */
  lemma PartialNext(mt: MessageType, m: Message, i: nat)
    requires i < |mt.fields|
    ensures Partial(mt, m, i).slots[i] == DefaultSlot(mt.fields[i])
    ensures Partial(mt, m, i + 1).slots == Partial(mt, m, i).slots[i := NormalSlot(mt, m, i)]
    ensures Partial(mt, m, i + 1).which == NormalWhich(mt, m, i + 1)
  {
    hide NormalSlot, DefaultSlot;
    assert DefaultSlots(mt, i) == [DefaultSlot(mt.fields[i])] + DefaultSlots(mt, i + 1);
  }

  lemma PartialEnds(mt: MessageType, m: Message)
    ensures Partial(mt, m, 0) == Defaults(mt)
    ensures Partial(mt, m, |mt.fields|) == Normal(mt, m)
  {
    hide DefaultSlot, NormalSlot;
    assert NormalSlots(mt, m, 0) == [];
  }

  /** No other member of its oneof has been decoded before the chosen one. */
  lemma {:induction false} NotYetChosen(mt: MessageType, m: Message, n: nat, i: nat)
    requires n <= i < |mt.fields| && Chosen(mt, m, i)
    requires forall j, k :: 0 <= j < k < |mt.fields| ==> mt.fields[j].tag != mt.fields[k].tag
    ensures mt.fields[i].htype.group !in NormalWhich(mt, m, n)
    decreases n
  {
    if n > 0 {
      NotYetChosen(mt, m, n - 1, i);
      assert mt.fields[n - 1].tag != mt.fields[i].tag;
    }
  }

  ghost predicate StateAt(mt: MessageType, i: nat, st: State)
    requires i <= |mt.fields|
  {
    && (forall k :: 0 <= k < RequiredBefore(mt.fields, i) && k < MAX_REQUIRED_FIELDS ==> k in st.seen)
    && FixedComplete(mt.fields, st)
    && (st.fixedField.Some? ==> st.fixedField.value < i)
  }

  // ------------------------------------------------------------------ arrays

  function Filled(initial: seq<Value>, items: seq<Value>): seq<Value> {
    items + if |items| < |initial| then initial[|items|..] else []
  }

  lemma {:induction false} AllFitAt(lt: LType, items: seq<Value>, k: nat)
    requires AllFit(lt, items) && k < |items|
    ensures ItemFits(lt, items[k])
    decreases |items|
  {
    if k < |items| - 1 {
      AllFitAt(lt, items[..|items| - 1], k);
    }
  }

  lemma {:induction false} NormalItemsNext(lt: LType, items: seq<Value>, k: nat)
    requires k < |items|
    ensures NormalItems(lt, items[..k + 1]) == NormalItems(lt, items[..k]) + [NormalItem(lt, items[k])]
  {
    hide NormalItem;
    assert items[..k + 1][..k] == items[..k];
  }

  lemma {:induction false} ScalarsAreNormal(lt: LType, items: seq<Value>)
    requires !lt.Submessage?
    ensures NormalItems(lt, items) == items
    decreases |items|
  {
    if items != [] {
      ScalarsAreNormal(lt, items[..|items| - 1]);
    }
  }

  lemma StoreNext(initial: seq<Value>, items: seq<Value>, v: Value)
    requires |items| < |initial| || initial == []
    ensures StoreAt(Filled(initial, items), |items|, v) == Filled(initial, items + [v])
  {
  }

  lemma {:induction false} PackedRoundTrip(lt: LType, initial: seq<Value>, done: seq<Value>, items: seq<Value>,
      max: nat)
    requires Packable(lt) && AllFit(lt, done + items) && |done| + |items| <= max
    requires initial == [] || |done| + |items| <= |initial|
    ensures DecodedPacked(lt, PackedItems(lt, items), Filled(initial, done), |done|, max)
            == Some((Filled(initial, done + items), |done| + |items|))
    decreases |items|
  {
    hide PackedItems, Filled, ScalarFits, DecodedScalar;
    if items == [] {
      assert done + items == done;
      NonePacked(lt);
    } else {
      hide DecodedPacked;
      AllFitAt(lt, done + items, |done|);
      assert ScalarFits(lt, items[0]);
      hide AllFit;
      PackedFirst(lt, initial, done, items, max);
      assert done + [items[0]] + items[1..] == done + items;
      PackedRoundTrip(lt, initial, done + [items[0]], items[1..], max);
    }
  }

  lemma NonePacked(lt: LType)
    ensures PackedItems(lt, []) == []
  {
  }

  lemma PackedFirst(lt: LType, initial: seq<Value>, done: seq<Value>, items: seq<Value>, max: nat)
    requires Packable(lt) && items != [] && ScalarFits(lt, items[0]) && |done| < max
    requires initial == [] || |done| < |initial|
    ensures DecodedPacked(lt, PackedItems(lt, items), Filled(initial, done), |done|, max)
         == DecodedPacked(lt, PackedItems(lt, items[1..]), Filled(initial, done + [items[0]]), |done| + 1, max)
  {
    assert items[0].Int?;
    hide EncodedScalar, DecodedScalar, ScalarFits, Filled;
    ScalarRoundTrip(lt, items[0], PackedItems(lt, items[1..]));
    StoreNext(initial, done, items[0]);
    ScalarNotEmpty(lt, items[0]);
  }

  lemma ScalarNotEmpty(lt: LType, v: Value)
    ensures EncodedScalar(lt, v) != []
  {
  }

  // ------------------------------------------------------------------ room for terminators

  predicate ItemTerminated(lt: LType, v: Value)
    decreases lt, 0
  {
    match lt
    case Submessage(mt) => v.Msg? ==> TerminatedFrom(mt, v.message, 0)
    case _ => LeavesRoom(lt, v)
  }

  predicate AllTerminated(lt: LType, items: seq<Value>)
    decreases lt, 1, |items|
  {
    items == [] || (ItemTerminated(lt, items[0]) && AllTerminated(lt, items[1..]))
  }

  /** Every string this field writes leaves room for its terminator. */
  predicate FieldTerminated(mt: MessageType, m: Message, i: nat)
    requires i < |mt.fields| == |m.slots|
    decreases mt, 0
  {
    var f := mt.fields[i];
    match f.htype
    case Required => ItemTerminated(f.ltype, Item(m, i))
    case Optional => m.slots[i].has ==> ItemTerminated(f.ltype, Item(m, i))
    case Singular => !IsZero(mt, m, i) ==> ItemTerminated(f.ltype, Item(m, i))
    case Repeated(_) => AllTerminated(f.ltype, m.slots[i].items)
    case FixedCount(_) => AllTerminated(f.ltype, m.slots[i].items)
    case Oneof(g) => Chosen(mt, m, i) ==> ItemTerminated(f.ltype, m.which[g].value)
  }

  predicate TerminatedFrom(mt: MessageType, m: Message, i: nat)
    decreases mt, 1, |mt.fields| - i
  {
    |m.slots| == |mt.fields| && i < |mt.fields| ==> FieldTerminated(mt, m, i) && TerminatedFrom(mt, m, i + 1)
  }

  /** Every string that is written, through submessages, arrays and oneofs, leaves room for its
      terminator. */
  predicate Terminated(mt: MessageType, m: Message) {
    TerminatedFrom(mt, m, 0)
  }

  lemma {:induction false} NumbersTerminated(lt: LType, items: seq<Value>)
    requires Packable(lt)
    ensures AllTerminated(lt, items)
    decreases |items|
  {
    if items != [] {
      NumbersTerminated(lt, items[1..]);
    }
  }

  // ------------------------------------------------------------------ values, fields, messages

  lemma {:induction false} ItemRoundTrip(lt: LType, v: Value, rest: Bytes, current: Value, fresh_: bool)
    requires ItemFits(lt, v) && |EncodedItem(lt, v)| < TWO_32
    requires lt.Submessage? ==> fresh_ || current == Msg(Defaults(lt.message))
    ensures DecodedItem(lt, EncodedItem(lt, v) + rest, current, fresh_)
         == if ItemTerminated(lt, v) then Some((NormalItem(lt, v), rest)) else None
    decreases lt, 0
  {
    hide DecodedScalar, EncodedScalar, ScalarFits, Encoded, Decoded, Fits, DecodedString, LengthPrefixed,
         TerminatedFrom, LeavesRoom;
    if lt.Submessage? {
      var mt, m := lt.message, v.message;
      PrefixedSize(Encoded(mt, m, 0));
      StringRoundTrip(Encoded(mt, m, 0), rest);
      PartialEnds(mt, m);
      StartState(mt);
      MessageSlots(mt, m);
      RoundTripFrom(mt, m, 0, START);
    } else {
      ScalarSize(lt, v);
      ScalarRoundTrip(lt, v, rest);
    }
  }

  lemma PrefixedSize(s: Bytes)
    ensures |s| < |LengthPrefixed(s)|
  {
  }

  lemma ScalarSize(lt: LType, v: Value)
    requires ScalarFits(lt, v)
    ensures v.Str? ==> |v.bytes| < |EncodedScalar(lt, v)|
  {
  }

  lemma StartState(mt: MessageType)
    ensures StateAt(mt, 0, START)
  {
  }

  lemma MessageSlots(mt: MessageType, m: Message)
    requires Fits(mt, m)
    ensures |m.slots| == |mt.fields| && |Defaults(mt).slots| == |mt.fields|
    ensures forall i, j :: 0 <= i < j < |mt.fields| ==> mt.fields[i].tag != mt.fields[j].tag
    ensures FieldsFit(mt, m, |mt.fields|)
  {
  }

  /** The rest of a message, once the fields before have been decoded. */
  lemma {:induction false} RoundTripFrom(mt: MessageType, m: Message, i: nat, st: State)
    requires Fits(mt, m) && i <= |mt.fields| && StateAt(mt, i, st) && |Encoded(mt, m, i)| < TWO_32
    ensures Decoded(mt, Encoded(mt, m, i), Partial(mt, m, i), st) == if TerminatedFrom(mt, m, i)
            then Some(Normal(mt, m)) else None
    decreases mt, 4, |mt.fields| - i
  {
    MessageSlots(mt, m);
    hide Decoded, Partial, Normal, EncodedField, Fits, FieldTerminated;
    if i == |mt.fields| {
      PartialEnds(mt, m);
      EndOfStream(mt, m, st);
    } else {
      var rest := Encoded(mt, m, i + 1);
      var st' := FieldStep(mt, m, i, rest, st);
      if FieldTerminated(mt, m, i) {
        RoundTripFrom(mt, m, i + 1, st');
      }
    }
  }

  lemma EndOfStream(mt: MessageType, m: Message, st: State)
    requires StateAt(mt, |mt.fields|, st)
    ensures Decoded(mt, [], Partial(mt, m, |mt.fields|), st) == Some(Partial(mt, m, |mt.fields|))
  {
    hide Partial;
  }

  lemma {:induction false} FieldStep(mt: MessageType, m: Message, i: nat, rest: Bytes, st: State) returns (st': State)
    requires Fits(mt, m) && i < |mt.fields| == |m.slots| && StateAt(mt, i, st) && |EncodedField(mt, m, i)| < TWO_32
    ensures FieldTerminated(mt, m, i) ==> StateAt(mt, i + 1, st')
    ensures Decoded(mt, EncodedField(mt, m, i) + rest, Partial(mt, m, i), st)
         == if FieldTerminated(mt, m, i) then Decoded(mt, rest, Partial(mt, m, i + 1), st') else None
    decreases mt, 3
  {
    MessageSlots(mt, m);
    FitsAt(mt, m, |mt.fields|, i);
    hide Fits, Decoded, Partial, StateAt;
    var f := mt.fields[i];
    if !Written(mt, m, i) {
      NothingWritten(mt, m, i);
      SameState(mt, i, st);
      st' := st;
      assert EncodedField(mt, m, i) + rest == rest;
    } else if f.htype.Repeated? || f.htype.FixedCount? {
      st' := ArrayStep(mt, m, i, rest, st);
    } else {
      st' := ValueStep(mt, m, i, rest, st);
    }
  }

  /** Whether a field leaves any bytes. */
  predicate Written(mt: MessageType, m: Message, i: nat)
    requires i < |mt.fields| == |m.slots|
  {
    match mt.fields[i].htype
    case Required => true
    case Optional => m.slots[i].has
    case Singular => !IsZero(mt, m, i)
    case Repeated(_) => m.slots[i].items != []
    case FixedCount(_) => m.slots[i].items != []
    case Oneof(_) => Chosen(mt, m, i)
  }

  /** What leaves no bytes: a flag not set, a oneof member not chosen, an empty array, and, where a field
      has no flag, the number zero, the empty string, or a message of nothing else. */
  lemma WrittenExactly(mt: MessageType, m: Message, i: nat)
    requires i < |mt.fields| == |m.slots| && FieldFits(mt, m, i)
    ensures var f, slot := mt.fields[i], m.slots[i];
            EncodedField(mt, m, i) == [] <==>
              match f.htype
              case Required => false
              case Optional => !slot.has
              case Repeated(_) => slot.items == []
              case FixedCount(_) => false
              case Oneof(g) => g !in m.which || m.which[g].tag != f.tag
              case Singular =>
                match slot.items[0]
                case Int(n) => n == 0
                case Str(bytes) => bytes == []
                case Msg(sub) => f.ltype.Submessage? && AllZero(f.ltype.message, sub, 0)
  {
    hide AllFit, AllZero, EncodedItem, PackedItems, LengthPrefixed;
    if mt.fields[i].htype.Repeated? || mt.fields[i].htype.FixedCount? {
      ArrayWritten(mt.fields[i].tag, mt.fields[i].ltype, m.slots[i].items);
    }
  }

  lemma ArrayWritten(tag: nat, lt: LType, items: seq<Value>)
    ensures EncodedArray(tag, lt, items) == [] <==> items == []
  {
  }

  lemma NothingWritten(mt: MessageType, m: Message, i: nat)
    requires i < |mt.fields| == |m.slots| && !Written(mt, m, i) && FieldFits(mt, m, i)
    ensures EncodedField(mt, m, i) == [] && Partial(mt, m, i) == Partial(mt, m, i + 1)
    ensures !mt.fields[i].htype.Required? && FieldTerminated(mt, m, i)
  {
    PartialNext(mt, m, i);
    hide AllFit, ItemFits;
    assert NormalSlot(mt, m, i) == DefaultSlot(mt.fields[i]);
    var p := Partial(mt, m, i);
    assert p.slots[i := p.slots[i]] == p.slots;
  }

  lemma SameState(mt: MessageType, i: nat, st: State)
    requires i < |mt.fields| && StateAt(mt, i, st) && !mt.fields[i].htype.Required?
    ensures StateAt(mt, i + 1, st)
  {
  }

  lemma MovedState(mt: MessageType, i: nat, st: State, position: nat)
    requires i <= |mt.fields| && StateAt(mt, i, st)
    ensures StateAt(mt, i, st.(position := position))
  {
  }

  /** The value a field writes when it writes one. */
  function WrittenValue(mt: MessageType, m: Message, i: nat): Value
    requires i < |mt.fields| == |m.slots|
  {
    if Chosen(mt, m, i) then m.which[mt.fields[i].htype.group].value else Item(m, i)
  }

  lemma {:induction false} ValueStep(mt: MessageType, m: Message, i: nat, rest: Bytes, st: State) returns (st': State)
    requires i < |mt.fields| == |m.slots| && FieldFits(mt, m, i) && StateAt(mt, i, st)
             && |EncodedField(mt, m, i)| < TWO_32
    requires forall j, k :: 0 <= j < k < |mt.fields| ==> mt.fields[j].tag != mt.fields[k].tag
    requires Written(mt, m, i) && !mt.fields[i].htype.Repeated? && !mt.fields[i].htype.FixedCount?
    ensures FieldTerminated(mt, m, i) ==> StateAt(mt, i + 1, st')
    ensures Decoded(mt, EncodedField(mt, m, i) + rest, Partial(mt, m, i), st)
         == if FieldTerminated(mt, m, i) then Decoded(mt, rest, Partial(mt, m, i + 1), st') else None
    decreases mt, 2
  {
    hide Decoded, Partial, StateAt, DecodedItem, EncodedItem, NormalItem, TagBytes, ItemTerminated;
    var f, v := mt.fields[i], WrittenValue(mt, m, i);
    var wire := WireType(f.ltype);
    ValueWritten(mt, m, i);
    var s := EncodedItem(f.ltype, v) + rest;
    assert EncodedField(mt, m, i) + rest == TagBytes(f.tag, wire) + s;
    TagDecodes(mt, i, wire, s, Partial(mt, m, i), st);
    var current := if f.htype.Oneof? then DefaultValue(f) else Item(Partial(mt, m, i), i);
    CurrentIsDefault(mt, m, i);
    ItemRoundTrip(f.ltype, v, rest, current, false);
    var here := st.(position := i);
    MovedState(mt, i, st, i);
    st' := here.(seen := SeenAfter(mt.fields, i, here.seen));
    SeenState(mt, i, here);
    if FieldTerminated(mt, m, i) {
      ValueStored(mt, m, i, wire, s, here, rest);
    } else {
      ValueRefused(mt, m, i, wire, s, here);
    }
  }

  lemma ValueRefused(mt: MessageType, m: Message, i: nat, wire: nat, s: Bytes, st: State)
    requires i < |mt.fields| == |m.slots| && FieldFits(mt, m, i) && Written(mt, m, i)
    requires forall j, k :: 0 <= j < k < |mt.fields| ==> mt.fields[j].tag != mt.fields[k].tag
    requires !mt.fields[i].htype.Repeated? && !mt.fields[i].htype.FixedCount?
    requires var f := mt.fields[i];
             DecodedItem(f.ltype, s, if f.htype.Oneof? then DefaultValue(f) else Item(Partial(mt, m, i), i), false)
               == None
    ensures DecodedField(mt, i, wire, s, Partial(mt, m, i), st) == None
  {
    hide DecodedItem, ItemFits, AllFit, EncodedItem, NormalSlots, DefaultSlots;
    if mt.fields[i].htype.Oneof? {
      NotYetChosen(mt, m, i, i);
      assert Partial(mt, m, i).which == NormalWhich(mt, m, i);
    }
  }

  lemma ValueWritten(mt: MessageType, m: Message, i: nat)
    requires i < |mt.fields| == |m.slots| && FieldFits(mt, m, i) && Written(mt, m, i)
    requires !mt.fields[i].htype.Repeated? && !mt.fields[i].htype.FixedCount?
    ensures var f := mt.fields[i];
            && EncodedField(mt, m, i) == TagBytes(f.tag, WireType(f.ltype))
               + EncodedItem(f.ltype, WrittenValue(mt, m, i))
            && ItemFits(f.ltype, WrittenValue(mt, m, i))
            && (FieldTerminated(mt, m, i) <==> ItemTerminated(f.ltype, WrittenValue(mt, m, i)))
  {
    hide ItemFits, AllFit, EncodedItem, TagBytes, ItemTerminated;
  }

  lemma CurrentIsDefault(mt: MessageType, m: Message, i: nat)
    requires i < |mt.fields|
    ensures var f := mt.fields[i];
            f.htype.Required? || f.htype.Optional? || f.htype.Singular? ==>
                Item(Partial(mt, m, i), i) == DefaultValue(f)
    ensures mt.fields[i].ltype.Submessage? ==> DefaultValue(mt.fields[i]) == Msg(Defaults(mt.fields[i].ltype.message))
  {
    PartialNext(mt, m, i);
  }

  lemma SeenState(mt: MessageType, i: nat, st: State)
    requires i < |mt.fields| && StateAt(mt, i, st)
    ensures StateAt(mt, i + 1, st.(seen := SeenAfter(mt.fields, i, st.seen)))
  {
  }

  /** The decoded value is put where it belongs. */
  lemma ValueStored(mt: MessageType, m: Message, i: nat, wire: nat, s: Bytes, st: State, rest: Bytes)
    requires i < |mt.fields| == |m.slots| && FieldFits(mt, m, i) && Written(mt, m, i)
    requires forall j, k :: 0 <= j < k < |mt.fields| ==> mt.fields[j].tag != mt.fields[k].tag
    requires !mt.fields[i].htype.Repeated? && !mt.fields[i].htype.FixedCount? && |rest| < |s|
    requires var f := mt.fields[i];
             var current := if f.htype.Oneof? then DefaultValue(f) else Item(Partial(mt, m, i), i);
             DecodedItem(f.ltype, s, current, false) == Some((NormalItem(f.ltype, WrittenValue(mt, m, i)), rest))
    ensures DecodedField(mt, i, wire, s, Partial(mt, m, i), st)
         == Some((Partial(mt, m, i + 1), st.(seen := SeenAfter(mt.fields, i, st.seen)), rest))
  {
    hide DecodedItem, NormalItem, Partial, ItemFits, AllFit, EncodedItem, RequiredBefore;
    PartialNext(mt, m, i);
    PartialWhich(mt, m, i);
    var f, p := mt.fields[i], Partial(mt, m, i);
    var v := NormalItem(f.ltype, WrittenValue(mt, m, i));
    if f.htype.Oneof? {
      NotYetChosen(mt, m, i, i);
      assert p.slots[i := p.slots[i]] == p.slots;
      assert p.(which := p.which[f.htype.group := Choice(f.tag, v)]) == Partial(mt, m, i + 1);
    } else {
      assert NormalSlot(mt, m, i) == Slot(f.htype.Optional?, [v]);
      assert WithSlot(p, i, Slot(f.htype.Optional?, [v])) == Partial(mt, m, i + 1);
    }
  }

  lemma PartialWhich(mt: MessageType, m: Message, i: nat)
    requires i < |mt.fields|
    ensures Partial(mt, m, i).which == NormalWhich(mt, m, i)
    ensures var f := mt.fields[i];
            Partial(mt, m, i + 1).which
            == if Chosen(mt, m, i) then NormalWhich(mt, m,
              i)[f.htype.group := Choice(f.tag, NormalItem(f.ltype, m.which[f.htype.group].value))]
               else NormalWhich(mt, m, i)
  {
    hide DefaultSlots, NormalSlots, NormalItem;
  }

  // ------------------------------------------------------------------ array fields

  predicate IsArray(f: Field) {
    f.htype.Repeated? || f.htype.FixedCount?
  }

  function MaxEntries(f: Field): nat
    requires IsArray(f)
  {
    if f.htype.Repeated? then f.htype.max else f.htype.count
  }

  /** The structure when k entries of array field i have been decoded. */
  function Entries(mt: MessageType, m: Message, i: nat, k: nat): (r: Message)
    requires i < |mt.fields| == |m.slots| && k <= |m.slots[i].items|
    ensures |r.slots| == |mt.fields|
  {
    var f := mt.fields[i];
    WithSlot(Partial(mt, m, i), i,
      Slot(false, Filled(DefaultSlot(f).items, NormalItems(f.ltype, m.slots[i].items[..k]))))
  }

  function EntriesState(f: Field, i: nat, k: nat, st: State): State {
    if k == 0 then st
    else if f.htype.FixedCount? then st.(position := i, fixedField := Some(i), fixedCount := k)
    else st.(position := i)
  }

  lemma EntriesEnds(mt: MessageType, m: Message, i: nat)
    requires i < |mt.fields| == |m.slots| && IsArray(mt.fields[i]) && FieldFits(mt, m, i)
    ensures Entries(mt, m, i, 0) == Partial(mt, m, i)
    ensures Entries(mt, m, i, |m.slots[i].items|) == Partial(mt, m, i + 1)
  {
    hide AllFit, ItemFits, Partial, NormalItem;
    var f, items := mt.fields[i], m.slots[i].items;
    PartialNext(mt, m, i);
    assert items[..|items|] == items && items[..0] == [];
    var initial := DefaultSlot(f).items;
    assert NormalItems(f.ltype, []) == [];
    assert Filled(initial, []) == initial;
    var normal := NormalItems(f.ltype, items);
    assert Filled(initial, normal) == normal;
    var p := Partial(mt, m, i);
    assert p.slots[i := p.slots[i]] == p.slots;
    SameWhich(mt, m, i);
  }

  lemma SameWhich(mt: MessageType, m: Message, i: nat)
    requires i < |mt.fields| && !mt.fields[i].htype.Oneof?
    ensures Partial(mt, m, i + 1).which == Partial(mt, m, i).which
  {
    hide DefaultSlots, NormalSlots;
  }

  /** Decoded entries are put where they belong. */
  lemma EntriesStored(mt: MessageType, m: Message, i: nat, k: nat, n: nat, wire: nat, s: Bytes, st: State, rest: Bytes)
    requires i < |mt.fields| == |m.slots| && IsArray(mt.fields[i]) && FieldFits(mt, m, i) && StateAt(mt, i, st)
    requires k < n <= |m.slots[i].items| && |rest| < |s|
    requires var f, items := mt.fields[i], m.slots[i].items;
             var initial := DefaultSlot(f).items;
             DecodedEntries(f.ltype, wire, s, Filled(initial, NormalItems(f.ltype, items[..k])), k, MaxEntries(f))
             == Some((Filled(initial, NormalItems(f.ltype, items[..n])), n, rest))
    ensures DecodedField(mt, i, wire, s, Entries(mt, m, i, k), EntriesState(mt.fields[i], i, k, st).(position := i))
         == Some((Entries(mt, m, i, n), EntriesState(mt.fields[i], i, n, st), rest))
  {
    hide DecodedEntries, AllFit, ItemFits, NormalItems, Partial, RequiredBefore;
    var f, items := mt.fields[i], m.slots[i].items;
    var e := Entries(mt, m, i, k);
    var slot := e.slots[i];
    assert slot == Slot(false, Filled(DefaultSlot(f).items, NormalItems(f.ltype, items[..k])));
    assert f.htype.Repeated? ==> |slot.items| == k;
    var items' := Filled(DefaultSlot(f).items, NormalItems(f.ltype, items[..n]));
    assert WithSlot(e, i, slot.(items := items')) == Entries(mt, m, i, n);
  }

  lemma ArrayState(mt: MessageType, m: Message, i: nat, st: State)
    requires i < |mt.fields| == |m.slots| && IsArray(mt.fields[i]) && FieldFits(mt, m, i) && StateAt(mt, i, st)
    ensures StateAt(mt, i + 1, EntriesState(mt.fields[i], i, |m.slots[i].items|, st))
  {
    hide AllFit, ItemFits;
  }

  lemma {:induction false} ArrayStep(mt: MessageType, m: Message, i: nat, rest: Bytes, st: State) returns (st': State)
    requires i < |mt.fields| == |m.slots| && FieldFits(mt, m, i) && StateAt(mt, i, st)
             && |EncodedField(mt, m, i)| < TWO_32
    requires forall j, k :: 0 <= j < k < |mt.fields| ==> mt.fields[j].tag != mt.fields[k].tag
    requires Written(mt, m, i) && IsArray(mt.fields[i])
    ensures StateAt(mt, i + 1, st')
    ensures Decoded(mt, EncodedField(mt, m, i) + rest, Partial(mt, m, i), st)
         == if FieldTerminated(mt, m, i) then Decoded(mt, rest, Partial(mt, m, i + 1), st') else None
    decreases mt, 2
  {
    var f, items := mt.fields[i], m.slots[i].items;
    assert EncodedField(mt, m, i) == EncodedArray(f.tag, f.ltype, items);
    assert FieldTerminated(mt, m, i) == AllTerminated(f.ltype, items);
    hide Decoded, Partial, Tagged, EncodedField, StateAt, FieldFits, Entries, FieldTerminated, AllTerminated;
    EntriesEnds(mt, m, i);
    ArrayState(mt, m, i, st);
    st' := EntriesState(f, i, |items|, st);
    if Packable(f.ltype) {
      NumbersTerminated(f.ltype, items);
      PackedStep(mt, m, i, rest, st);
    } else {
      assert items[0..] == items;
      EntriesStep(mt, m, i, 0, rest, st);
    }
  }

  lemma {:induction false} EntriesStep(mt: MessageType, m: Message, i: nat, k: nat, rest: Bytes, st: State)
    requires i < |mt.fields| == |m.slots| && FieldFits(mt, m, i) && StateAt(mt, i, st) && IsArray(mt.fields[i])
    requires forall j, k :: 0 <= j < k < |mt.fields| ==> mt.fields[j].tag != mt.fields[k].tag
    requires k <= |m.slots[i].items|
    requires |Tagged(mt.fields[i].tag, mt.fields[i].ltype, m.slots[i].items[k..])| < TWO_32
    ensures Decoded(mt, Tagged(mt.fields[i].tag, mt.fields[i].ltype, m.slots[i].items[k..]) + rest,
            Entries(mt, m, i, k), EntriesState(mt.fields[i], i, k, st))
         == if AllTerminated(mt.fields[i].ltype, m.slots[i].items[k..])
            then Decoded(mt, rest, Entries(mt, m, i, |m.slots[i].items|),
              EntriesState(mt.fields[i], i, |m.slots[i].items|, st))
            else None
    decreases mt, 1, |m.slots[i].items| - k
  {
    hide Decoded, Entries, EntriesState, FieldFits, StateAt, DecodedItem, EncodedItem, DecodedEntries, Filled,
         NormalItems, DefaultSlot;
    hide ItemTerminated, Tagged;
    var f, items := mt.fields[i], m.slots[i].items;
    var lt, wire := f.ltype, WireType(f.ltype);
    if k == |items| {
      NothingTagged(f.tag, lt);
      assert items[k..] == [] && [] + rest == rest;
    } else {
      var left := Tagged(f.tag, lt, items[k + 1..]);
      assert items[k..][1..] == items[k + 1..] && items[k..][0] == items[k];
      var s := EncodedItem(lt, items[k]) + (left + rest);
      TaggedFirst(f.tag, lt, items, k, rest);
      ArrayFacts(mt, m, i);
      AllFitAt(lt, items, k);
      TagDecodes(mt, i, wire, s, Entries(mt, m, i, k), EntriesState(f, i, k, st));
      ItemRoundTrip(lt, items[k], left + rest, NOTHING, true);
      if ItemTerminated(lt, items[k]) {
        OneEntry(lt, wire, s, DefaultSlot(f).items, items, k, MaxEntries(f), left + rest);
        EntriesStored(mt, m, i, k, k + 1, wire, s, st, left + rest);
        EntriesStep(mt, m, i, k + 1, rest, st);
      } else {
        EntryRefused(mt, m, i, k, wire, s, st);
      }
    }
  }

  lemma NothingTagged(tag: nat, lt: LType)
    ensures Tagged(tag, lt, []) == []
  {
  }

  lemma EntryRefused(mt: MessageType, m: Message, i: nat, k: nat, wire: nat, s: Bytes, st: State)
    requires i < |mt.fields| == |m.slots| && IsArray(mt.fields[i]) && k <= |m.slots[i].items|
    requires wire == WireType(mt.fields[i].ltype) && DecodedItem(mt.fields[i].ltype, s, NOTHING, true) == None
    ensures DecodedField(mt, i, wire, s, Entries(mt, m, i, k), EntriesState(mt.fields[i], i, k, st).(position := i))
            == None
  {
    hide DecodedItem, Entries;
  }

  lemma TaggedFirst(tag: nat, lt: LType, items: seq<Value>, k: nat, rest: Bytes)
    requires k < |items|
    ensures Tagged(tag, lt, items[k..]) + rest == TagBytes(tag, WireType(lt))
            + (EncodedItem(lt, items[k]) + (Tagged(tag, lt, items[k + 1..]) + rest))
    ensures |EncodedItem(lt, items[k])| <= |Tagged(tag, lt, items[k..])|
            && |Tagged(tag, lt, items[k + 1..])| <= |Tagged(tag, lt, items[k..])|
  {
    hide EncodedItem, TagBytes;
    assert items[k..][1..] == items[k + 1..];
  }

  lemma ArrayFacts(mt: MessageType, m: Message, i: nat)
    requires i < |mt.fields| == |m.slots| && FieldFits(mt, m, i) && IsArray(mt.fields[i])
    ensures AllFit(mt.fields[i].ltype, m.slots[i].items) && |m.slots[i].items| <= MaxEntries(mt.fields[i])
    ensures 0 < mt.fields[i].tag < 0x2000_0000
    ensures DefaultSlot(mt.fields[i]).items == [] || |DefaultSlot(mt.fields[i]).items| == |m.slots[i].items|
  {
    hide AllFit, ItemFits;
  }

  lemma OneEntry(lt: LType, wire: nat, s: Bytes, initial: seq<Value>, items: seq<Value>, k: nat, max: nat, rest: Bytes)
    requires k < |items| <= max && wire == WireType(lt) && |rest| < |s| && (initial == [] || |initial| == |items|)
    requires DecodedItem(lt, s, NOTHING, true) == Some((NormalItem(lt, items[k]), rest))
    ensures DecodedEntries(lt, wire, s, Filled(initial, NormalItems(lt, items[..k])), k, max)
         == Some((Filled(initial, NormalItems(lt, items[..k + 1])), k + 1, rest))
  {
    hide DecodedItem, NormalItem, NormalItems, Filled;
    NormalItemsNext(lt, items, k);
    StoreNext(initial, NormalItems(lt, items[..k]), NormalItem(lt, items[k]));
  }

  lemma PackedStep(mt: MessageType, m: Message, i: nat, rest: Bytes, st: State)
    requires i < |mt.fields| == |m.slots| && FieldFits(mt, m, i) && StateAt(mt, i, st) && IsArray(mt.fields[i])
    requires forall j, k :: 0 <= j < k < |mt.fields| ==> mt.fields[j].tag != mt.fields[k].tag
    requires Packable(mt.fields[i].ltype) && m.slots[i].items != []
    requires |EncodedArray(mt.fields[i].tag, mt.fields[i].ltype, m.slots[i].items)| < TWO_32
    ensures Decoded(mt, EncodedArray(mt.fields[i].tag, mt.fields[i].ltype, m.slots[i].items) + rest,
            Entries(mt, m, i, 0), st)
         == Decoded(mt, rest, Entries(mt, m, i, |m.slots[i].items|),
           EntriesState(mt.fields[i], i, |m.slots[i].items|, st))
  {
    hide Decoded, Entries, FieldFits, StateAt, DecodedEntries, Filled, NormalItems, DefaultSlot, PackedItems, TagBytes,
         LengthPrefixed;
    var f, items := mt.fields[i], m.slots[i].items;
    var lt, p := f.ltype, PackedItems(f.ltype, items);
    var s := LengthPrefixed(p) + rest;
    PrefixedSize(p);
    assert EncodedArray(f.tag, lt, items) + rest == TagBytes(f.tag, 2) + s;
    ArrayFacts(mt, m, i);
    TagDecodes(mt, i, 2, s, Entries(mt, m, i, 0), st);
    PackedEntries(lt, DefaultSlot(f).items, items, MaxEntries(f), rest);
    assert items[..|items|] == items;
    EntriesStored(mt, m, i, 0, |items|, 2, s, st, rest);
  }

  lemma PackedEntries(lt: LType, initial: seq<Value>, items: seq<Value>, max: nat, rest: Bytes)
    requires Packable(lt) && AllFit(lt, items) && |items| <= max && (initial == [] || |initial| == |items|)
    requires |PackedItems(lt, items)| < TWO_32
    ensures |rest| < |LengthPrefixed(PackedItems(lt, items)) + rest|
    ensures DecodedEntries(lt, 2, LengthPrefixed(PackedItems(lt, items)) + rest,
            Filled(initial, NormalItems(lt, items[..0])), 0, max)
         == Some((Filled(initial, NormalItems(lt, items)), |items|, rest))
  {
    hide PackedItems, DecodedPacked, LengthPrefixed, DecodedString, DecodedItem, Filled, NormalItems, AllFit;
    var p := PackedItems(lt, items);
    PrefixedSize(p);
    StringRoundTrip(p, rest);
    assert [] + items == items;
    PackedRoundTrip(lt, initial, [], items, max);
    assert items[..0] == [];
    ScalarsAreNormal(lt, items);
    ScalarsAreNormal(lt, []);
  }

  /** The round trip: a well-formed message, through submessages, packed arrays and oneofs, comes back
      as it was, up to defaults, exactly when every string it writes leaves room for its terminator;
      otherwise the decoder refuses what the encoder wrote. */
  lemma RoundTrip(mt: MessageType, m: Message)
    requires Fits(mt, m) && |Encoded(mt, m, 0)| < TWO_32
    ensures |Defaults(mt).slots| == |mt.fields|
    ensures Decoded(mt, Encoded(mt, m, 0), Defaults(mt), START) == if Terminated(mt, m) then Some(Normal(mt, m))
            else None
  {
    hide Fits, Encoded, Decoded, Normal, TerminatedFrom;
    PartialEnds(mt, m);
    StartState(mt);
    RoundTripFrom(mt, m, 0, START);
  }

  /** A singular field's value comes back whether or not it was written. */
  lemma SingularComesBack(mt: MessageType, m: Message, i: nat)
    requires Fits(mt, m) && i < |mt.fields| && mt.fields[i].htype.Singular?
    ensures NormalSlot(mt, m, i) == Slot(false, [NormalItem(mt.fields[i].ltype, Item(m, i))])
  {
    MessageSlots(mt, m);
    FitsAt(mt, m, |mt.fields|, i);
    hide Fits, AllFit;
    var f, v := mt.fields[i], Item(m, i);
    if IsZero(mt, m, i) {
      if f.ltype.Submessage? {
        ZeroIsDefault(f.ltype.message, v.message);
        assert v.Msg? && DefaultValue(f) == Msg(Defaults(f.ltype.message));
        assert NormalItem(f.ltype, v) == DefaultValue(f);
        hide NormalItem, DefaultValue;
      } else {
        assert NormalItem(f.ltype, v) == v && DefaultValue(f) == f.initial;
        ZeroIsInitial(mt, m, i);
        hide NormalItem, DefaultValue;
      }
    }
  }

  lemma ZeroIsInitial(mt: MessageType, m: Message, i: nat)
    requires i < |mt.fields| == |m.slots| && mt.fields[i].htype.Singular? && !mt.fields[i].ltype.Submessage?
    requires FieldFits(mt, m, i) && IsZero(mt, m, i)
    ensures Item(m, i) == mt.fields[i].initial
  {
    var f, v := mt.fields[i], m.slots[i].items[0];
    assert ItemFits(f.ltype, v) && ScalarFits(f.ltype, v);
    assert v == ZeroOf(f.ltype);
  }

  /** One string: it is read back exactly when it is shorter than its buffer. */
  lemma StringComesBack(size: nat, s: Bytes, rest: Bytes)
    requires 0 !in s && |s| <= size < TWO_32
    ensures DecodedScalar(Text(size), EncodedScalar(Text(size), Str(s)) + rest) == Some((Str(s), rest)) <==> |s| < size
  {
    hide DecodedScalar, EncodedScalar;
    ScalarRoundTrip(Text(size), Str(s), rest);
  }

  const FOUR_LETTERS: MessageType := MessageType([Field(1, Required, Text(4), Str([]))])

  /** Four letters in a buffer of four bytes are written, and refused when read back. */
  lemma UnterminatedStringRejected()
    ensures var m := Message([Slot(false, [Str([97, 98, 99, 100])])], map[]);
            && Fits(FOUR_LETTERS, m)
            && Decoded(FOUR_LETTERS, Encoded(FOUR_LETTERS, m, 0), Defaults(FOUR_LETTERS), START) == None
  {
    var m := Message([Slot(false, [Str([97, 98, 99, 100])])], map[]);
    assert Fits(FOUR_LETTERS, m);
    assert !Terminated(FOUR_LETTERS, m);
    RoundTrip(FOUR_LETTERS, m);
  }
}
