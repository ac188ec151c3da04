/** Decoding nanopb messages, and why it undoes encoding. */
module PbDecoding {
  import opened Options
  import opened PbScalars
  import opened PbMessages

  const MAX_REQUIRED_FIELDS: nat := 64

  /** What the decoder's loop keeps: where the field iterator stands, the fixed-length array last seen
      and how much of it has come, and the required fields seen. */
  datatype State = State(position: nat, fixedField: Option<nat>, fixedCount: nat, seen: set<nat>)

  const START: State := State(0, None, 0, {})

  function IndexOf(fields: seq<Field>, tag: nat): (i: nat)
    ensures i <= |fields| && (i < |fields| ==> fields[i].tag == tag)
    ensures forall j :: 0 <= j < i ==> fields[j].tag != tag
  {
    if fields == [] || fields[0].tag == tag then 0 else 1 + IndexOf(fields[1..], tag)
  }

  /** The first field of a tag from a place on, around the end; the number of fields if there is none. */
  function IndexFrom(fields: seq<Field>, start: nat, tag: nat): (i: nat)
    ensures i <= |fields| && (i < |fields| ==> fields[i].tag == tag)
    ensures i == |fields| ==> forall j :: 0 <= j < |fields| ==> fields[j].tag != tag
  {
    var i := if start < |fields| then start + IndexOf(fields[start..], tag) else |fields|;
    if i < |fields| then i else IndexOf(fields, tag)
  }

  /** The iterator stands on a field, or the message type has none. */
  predicate Standing(fields: seq<Field>, position: nat) {
    if fields == [] then position == 0 else position < |fields|
  }

  /** The field iterator goes on from where it stands, around the end; it finds what is there. */
  method FieldIterFind(fields: seq<Field>, start: nat, tag: nat) returns (found: bool, position: nat)
    requires Standing(fields, start)
    ensures Standing(fields, position)
    ensures found <==> exists i :: 0 <= i < |fields| && fields[i].tag == tag
    ensures position == if found then IndexFrom(fields, start, tag) else start
  {
    position := start;
    if fields == [] {
      return false, position;
    }
    ghost var steps := 0;
    while true
      invariant position < |fields| && steps < |fields|
      invariant position == if start + steps < |fields| then start + steps else start + steps - |fields|
      invariant forall i :: start <= i < |fields| && i < start + steps ==> fields[i].tag != tag
      invariant forall i :: 0 <= i < start + steps - |fields| ==> fields[i].tag != tag
      decreases |fields| - steps
    {
      if fields[position].tag == tag {
        return true, position;
      }
      position := if position + 1 == |fields| then 0 else position + 1;
      steps := steps + 1;
      if position == start {
        return false, position;
      }
    }
  }

  function RequiredBefore(fields: seq<Field>, i: nat): nat
    requires i <= |fields|
  {
    if i == 0 then 0 else RequiredBefore(fields, i - 1) + if fields[i - 1].htype.Required? then 1 else 0
  }

  // ------------------------------------------------------------------ skipping unknown fields

  function SkipVarint(s: Bytes): (r: Option<Bytes>)
    ensures r.Some? ==> |r.value| < |s|
  {
    if s == [] then None else if s[0] >= 128 then SkipVarint(s[1..]) else Some(s[1..])
  }

  function Skip(s: Bytes, wire: nat): (r: Option<Bytes>)
    ensures r.Some? ==> |r.value| <= |s|
  {
    if wire == 0 then SkipVarint(s)
    else if wire == 1 then if |s| < 8 then None else Some(s[8..])
    else if wire == 2 then
      match DecodedString(s)
      case None => None
      case Some(b) => Some(b.1)
    else if wire == 5 then if |s| < 4 then None else Some(s[4..])
    else None
  }

  // ------------------------------------------------------------------ fields

  function StoreAt(items: seq<Value>, k: nat, v: Value): seq<Value> {
    if k < |items| then items[k := v] else items + [v]
  }

  /** Array entries that came packed; entries left over are an overflow. */
  function DecodedPacked(lt: LType, s: Bytes, items: seq<Value>, count: nat, max: nat): Option<(seq<Value>, nat)>
    decreases |s|
  {
    if s == [] then Some((items, count))
    else if count >= max then None
    else
      match DecodedScalar(lt, s)
      case None => None
      case Some(v) => DecodedPacked(lt, v.1, StoreAt(items, count, v.0), count + 1, max)
  }

  /** One value.  A submessage is read into what is there already, unless it is a new array entry. */
  function DecodedItem(lt: LType, s: Bytes, current: Value, fresh_: bool): (r: Option<(Value, Bytes)>)
    ensures r.Some? ==> |r.value.1| < |s|
    decreases |s|, 0
  {
    if lt.Submessage? then
      match DecodedString(s)
      case None => None
      case Some(sub) =>
        var start := if fresh_ then Defaults(lt.message) else if current.Msg? then current.message
          else Message([], map[]);
        if |start.slots| != |lt.message.fields| then None
        else
          match Decoded(lt.message, sub.0, start, START)
          case None => None
          case Some(m) => Some((Msg(m), sub.1))
    else DecodedScalar(lt, s)
  }

  function WithSlot(m: Message, i: nat, s: Slot): Message
    requires i < |m.slots|
  {
    m.(slots := m.slots[i := s])
  }

  /** Array entries, packed or one at a time. */
  function DecodedEntries(lt: LType, wire: nat, s: Bytes, items: seq<Value>, count: nat,
      max: nat): (r: Option<(seq<Value>, nat, Bytes)>)
    ensures r.Some? ==> |r.value.2| < |s|
    decreases |s|, 1
  {
    if wire == 2 && Packable(lt) then
      match DecodedString(s)
      case None => None
      case Some(sub) =>
        match DecodedPacked(lt, sub.0, items, count, max)
        case None => None
        case Some(r) => Some((r.0, r.1, sub.1))
    else if count >= max then None
    else
      match DecodedItem(lt, s, NOTHING, true)
      case None => None
      case Some(v) => Some((StoreAt(items, count, v.0), count + 1, v.1))
  }

  function FixedMax(fields: seq<Field>, i: nat): nat {
    if i < |fields| && fields[i].htype.FixedCount? then fields[i].htype.count else 0
  }

  function FixedComplete(fields: seq<Field>, st: State): bool {
    st.fixedField.Some? ==> st.fixedCount == FixedMax(fields, st.fixedField.value)
  }

  function SeenAfter(fields: seq<Field>, i: nat, seen: set<nat>): set<nat>
    requires i < |fields|
  {
    var index := RequiredBefore(fields, i);
    if fields[i].htype.Required? && index < MAX_REQUIRED_FIELDS then seen + {index} else seen
  }

  /** One field of the message, its tag already read. */
  function DecodedField(mt: MessageType, i: nat, wire: nat, s: Bytes, m: Message,
      st: State): (r: Option<(Message, State, Bytes)>)
    requires i < |mt.fields| == |m.slots|
    ensures r.Some? ==> |r.value.2| < |s| && |r.value.0.slots| == |mt.fields| && r.value.1.position == st.position
    decreases |s|, 2
  {
    var f := mt.fields[i];
    var slot := m.slots[i];
    match f.htype
    case Repeated(max) =>
      (match DecodedEntries(f.ltype, wire, s, slot.items, |slot.items|, max)
       case None => None
       case Some(r) => Some((WithSlot(m, i, slot.(items := r.0)), st, r.2)))
    case FixedCount(n) =>
      if st.fixedField != Some(i) && !FixedComplete(mt.fields, st) then None
      else
        var count := if st.fixedField == Some(i) then st.fixedCount else 0;
        (match DecodedEntries(f.ltype, wire, s, slot.items, count, n)
         case None => None
         case Some(r) => Some((WithSlot(m, i, slot.(items := r.0)), st.(fixedField := Some(i), fixedCount := r.1),
           r.2)))
    case Oneof(g) =>
      var same := g in m.which && m.which[g].tag == f.tag;
      var current := if same then m.which[g].value else DefaultValue(f);
      (match DecodedItem(f.ltype, s, current, false)
       case None => None
       case Some(v) => Some((m.(which := m.which[g := Choice(f.tag, v.0)]), st, v.1)))
    case _ =>
      (match DecodedItem(f.ltype, s, Item(m, i), false)
       case None => None
       case Some(v) =>
         Some((WithSlot(m, i, Slot(slot.has || f.htype.Optional?, [v.0])),
           st.(seen := SeenAfter(mt.fields, i, st.seen)), v.1)))
  }

  /** The last fixed-length array is complete, and every required field that is tracked came. */
  function AtEnd(mt: MessageType, m: Message, st: State): Option<Message> {
    if !FixedComplete(mt.fields, st) then None
    else if forall k :: 0 <= k < RequiredBefore(mt.fields, |mt.fields|) && k < MAX_REQUIRED_FIELDS ==>
        k in st.seen then Some(m)
    else None
  }

  /** A message, from the front of the stream; a zero tag ends it early. */
  function Decoded(mt: MessageType, s: Bytes, m: Message, st: State): (r: Option<Message>)
    requires |m.slots| == |mt.fields|
    decreases |s|, 3
  {
    if s == [] then AtEnd(mt, m, st)
    else
      match DecodeVarint32(s)
      case None => None
      case Some(t) =>
        if t.0 == 0 then AtEnd(mt, m, st)
        else
          var i := IndexFrom(mt.fields, st.position, t.0 / 8);
          if i == |mt.fields| then
            match Skip(t.1, t.0 % 8)
            case None => None
            case Some(rest) => Decoded(mt, rest, m, st)
          else
            match DecodedField(mt, i, t.0 % 8, t.1, m, st.(position := i))
            case None => None
            case Some(r) => Decoded(mt, r.2, r.0, r.1)
  }

  /** The decoder's loop over the stream. */
  method DecodeNoInit(mt: MessageType, stream: Bytes, dest: Message) returns (r: Option<Message>)
    requires |dest.slots| == |mt.fields|
    ensures r == Decoded(mt, stream, dest, START)
  {
    hide DecodeVarint32, Skip, DecodedField, AtEnd;
    var s, m, st := stream, dest, START;
    var ended := false;
    while s != [] && !ended
      invariant |m.slots| == |mt.fields| && Standing(mt.fields, st.position)
      invariant Decoded(mt, stream, dest, START) == if ended then AtEnd(mt, m, st) else Decoded(mt, s, m, st)
      decreases |s|, !ended
    {
      var t := DecodeVarint32(s);
      if t.None? {
        return None;
      }
      if t.value.0 == 0 {
        // Messages may end with a zero
        ended := true;
      } else {
        var found, i := FieldIterFind(mt.fields, st.position, t.value.0 / 8);
        if !found {
          var rest := Skip(t.value.1, t.value.0 % 8);
          if rest.None? {
            return None;
          }
          s := rest.value;
        } else {
          var field := DecodedField(mt, i, t.value.0 % 8, t.value.1, m, st.(position := i));
          if field.None? {
            return None;
          }
          m, st, s := field.value.0, field.value.1, field.value.2;
        }
      }
    }
    r := AtEnd(mt, m, st);
  }

  /** Sets the structure to defaults and decodes into it. */
  method Decode(mt: MessageType, stream: Bytes) returns (r: Option<Message>)
    ensures |Defaults(mt).slots| == |mt.fields| && r == Decoded(mt, stream, Defaults(mt), START)
  {
    r := DecodeNoInit(mt, stream, Defaults(mt));
  }

  // ------------------------------------------------------------------ what comes back

  function NormalItem(lt: LType, v: Value): Value
    decreases lt, 0
  {
    match lt
    case Submessage(mt) => if v.Msg? then Msg(Normal(mt, v.message)) else v
    case _ => v
  }

  function NormalItems(lt: LType, items: seq<Value>): (r: seq<Value>)
    ensures |r| == |items|
    decreases lt, 1, |items|
  {
    if items == [] then [] else NormalItems(lt, items[..|items| - 1]) + [NormalItem(lt, items[|items| - 1])]
  }

  /** What was written, or the default. */
  function NormalSlot(mt: MessageType, m: Message, i: nat): Slot
    requires i < |mt.fields|
    decreases mt, 0
  {
    var f := mt.fields[i];
    var one := [NormalItem(f.ltype, Item(m, i))];
    match f.htype
    case Required => Slot(false, one)
    case Optional => if i < |m.slots| && m.slots[i].has then Slot(true, one) else DefaultSlot(f)
    case Singular => if IsZero(mt, m, i) then DefaultSlot(f) else Slot(false, one)
    case Repeated(_) => Slot(false, if i < |m.slots| then NormalItems(f.ltype, m.slots[i].items) else [])
    case FixedCount(_) => Slot(false, if i < |m.slots| then NormalItems(f.ltype, m.slots[i].items) else [])
    case Oneof(_) => DefaultSlot(f)
  }

  /** The first i slots as they come back. */
  function NormalSlots(mt: MessageType, m: Message, i: nat): (slots: seq<Slot>)
    requires i <= |mt.fields|
    ensures |slots| == i
    decreases mt, 1, i
  {
    if i == 0 then [] else NormalSlots(mt, m, i - 1) + [NormalSlot(mt, m, i - 1)]
  }

  predicate Chosen(mt: MessageType, m: Message, i: nat)
    requires i < |mt.fields|
  {
    var f := mt.fields[i];
    f.htype.Oneof? && f.htype.group in m.which && m.which[f.htype.group].tag == f.tag
  }

  /** The oneof members among the first i fields as they come back. */
  function NormalWhich(mt: MessageType, m: Message, i: nat): map<nat, Choice>
    requires i <= |mt.fields|
    decreases mt, 1, i
  {
    if i == 0 then map[]
    else
      var before := NormalWhich(mt, m, i - 1);
      var f := mt.fields[i - 1];
      if Chosen(mt, m, i - 1) then before[f.htype.group :=
        Choice(f.tag, NormalItem(f.ltype, m.which[f.htype.group].value))]
      else before
  }

  /** The message up to defaults: what was not written reads as its default. */
  function Normal(mt: MessageType, m: Message): Message
    decreases mt, 2
  {
    Message(NormalSlots(mt, m, |mt.fields|), NormalWhich(mt, m, |mt.fields|))
  }

  /** The structure when the first i fields have been decoded. */
  function Partial(mt: MessageType, m: Message, i: nat): (r: Message)
    requires i <= |mt.fields|
    ensures |r.slots| == |mt.fields|
  {
    Message(NormalSlots(mt, m, i) + DefaultSlots(mt, i), NormalWhich(mt, m, i))
  }

  // ------------------------------------------------------------------ well-formed messages

  ghost predicate ItemFits(lt: LType, v: Value)
    decreases lt, 0
  {
    match lt
    case Submessage(mt) => v.Msg? && Fits(mt, v.message)
    case _ => ScalarFits(lt, v)
  }

  ghost predicate AllFit(lt: LType, items: seq<Value>)
    decreases lt, 1, |items|
  {
    items == [] || (AllFit(lt, items[..|items| - 1]) && ItemFits(lt, items[|items| - 1]))
  }

  function ZeroOf(lt: LType): Value {
    match lt
    case ByteArray(_) => Str([])
    case Text(_) => Str([])
    case FixedBytes(n) => Str(Zeros(n))
    case _ => Int(0)
  }

  ghost predicate FieldFits(mt: MessageType, m: Message, i: nat)
    requires i < |mt.fields| == |m.slots|
    decreases mt, 0
  {
    var f, slot := mt.fields[i], m.slots[i];
    && 0 < f.tag < 0x2000_0000
    && (f.htype.Required? ==> |slot.items| == 1 && ItemFits(f.ltype, slot.items[0]))
    && (f.htype.Optional? && slot.has ==> |slot.items| == 1 && ItemFits(f.ltype, slot.items[0]))
    // A zero that is not written must be the default
    && (f.htype.Singular? ==> |slot.items| == 1 && ItemFits(f.ltype, slot.items[0])
                              && (!f.ltype.Submessage? ==> f.initial == ZeroOf(f.ltype)))
    && (f.htype.Repeated? ==> |slot.items| <= f.htype.max && AllFit(f.ltype, slot.items))
    && (f.htype.FixedCount? ==> 0 < |slot.items| == f.htype.count && AllFit(f.ltype, slot.items))
    && (Chosen(mt, m, i) ==> ItemFits(f.ltype, m.which[f.htype.group].value))
  }

  ghost predicate FieldsFit(mt: MessageType, m: Message, i: nat)
    requires i <= |mt.fields| == |m.slots|
    decreases mt, 1, i
  {
    i == 0 || (FieldsFit(mt, m, i - 1) && FieldFits(mt, m, i - 1))
  }

  ghost predicate Fits(mt: MessageType, m: Message)
    decreases mt, 2
  {
    && |m.slots| == |mt.fields|
    && (forall i, j :: 0 <= i < j < |mt.fields| ==> mt.fields[i].tag != mt.fields[j].tag)
    && FieldsFit(mt, m, |mt.fields|)
  }
}
