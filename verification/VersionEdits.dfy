/** Version edits, the records of the manifest, and their encoding. */
module VersionEdits {
  import opened Options
  import opened InternalKeys
  import opened Coding

  type Bytes = seq<Byte>

  const NUM_LEVELS: nat := 7

  const COMPARATOR: nat := 1
  const LOG_NUMBER: nat := 2
  const NEXT_FILE_NUMBER: nat := 3
  const LAST_SEQUENCE: nat := 4
  const COMPACT_POINTER: nat := 5
  const DELETED_FILE: nat := 6
  const NEW_FILE: nat := 7
  const PREV_LOG_NUMBER: nat := 9

  /** A table file as the manifest describes it; the keys are encoded internal keys. */
  datatype Meta = Meta(number: nat, size: nat, smallest: Bytes, largest: Bytes)

  datatype Pointer = Pointer(level: nat, key: Bytes)
  datatype Deleted = Deleted(level: nat, number: nat)
  datatype New = New(level: nat, file: Meta)

  /** The deleted files are an ordered set, kept here as its ascending listing. */
  datatype Edit = Edit(
    comparator: Option<Bytes>,
    logNumber: Option<nat>,
    prevLogNumber: Option<nat>,
    nextFile: Option<nat>,
    lastSequence: Option<nat>,
    pointers: seq<Pointer>,
    deleted: seq<Deleted>,
    added: seq<New>)

  const EMPTY_EDIT: Edit := Edit(None, None, None, None, None, [], [], [])

  /** One tagged field of the encoding. */
  datatype Field =
    | Comparator(name: Bytes)
    | LogNumber(n: nat)
    | PrevLogNumber(n: nat)
    | NextFile(n: nat)
    | LastSequence(n: nat)
    | CompactPointer(pointer: Pointer)
    | DeletedFile(deleted: Deleted)
    | NewFile(file: New)

  // ------------------------------------------------------------------ one field

  function Payload(f: Field): Bytes {
    match f
    case Comparator(name) => LengthPrefixed(name)
    case LogNumber(n) => Varint(n)
    case PrevLogNumber(n) => Varint(n)
    case NextFile(n) => Varint(n)
    case LastSequence(n) => Varint(n)
    case CompactPointer(p) => Varint(p.level) + LengthPrefixed(p.key)
    case DeletedFile(d) => Varint(d.level) + Varint(d.number)
    case NewFile(f) =>
      Varint(f.level) + (Varint(f.file.number)
        + (Varint(f.file.size) + (LengthPrefixed(f.file.smallest) + LengthPrefixed(f.file.largest))))
  }

  function TagOf(f: Field): nat {
    match f
    case Comparator(_) => COMPARATOR
    case LogNumber(_) => LOG_NUMBER
    case PrevLogNumber(_) => PREV_LOG_NUMBER
    case NextFile(_) => NEXT_FILE_NUMBER
    case LastSequence(_) => LAST_SEQUENCE
    case CompactPointer(_) => COMPACT_POINTER
    case DeletedFile(_) => DELETED_FILE
    case NewFile(_) => NEW_FILE
  }

  function EncodedField(f: Field): (bytes: Bytes)
    ensures |bytes| > 0
  {
    Varint(TagOf(f)) + Payload(f)
  }

  predicate KeyFits(key: Bytes) {
    0 < |key| < TWO_32
  }

  predicate Fits(f: Field) {
    match f
    case Comparator(name) => |name| < TWO_32
    case LogNumber(n) => n < TWO_64
    case PrevLogNumber(n) => n < TWO_64
    case NextFile(n) => n < TWO_64
    case LastSequence(n) => n < TWO_64
    case CompactPointer(p) => p.level < NUM_LEVELS && KeyFits(p.key)
    case DeletedFile(d) => d.level < NUM_LEVELS && d.number < TWO_64
    case NewFile(f) =>
      f.level < NUM_LEVELS && f.file.number < TWO_64 && f.file.size < TWO_64 && KeyFits(f.file.smallest)
        && KeyFits(f.file.largest)
  }

  function GetLevel(s: Bytes): (r: Option<(nat, Bytes)>)
    ensures r.Some? ==> |r.value.1| < |s|
  {
    match GetVarint32(s)
    case Some(v) => if v.0 < NUM_LEVELS then Some(v) else None
    case None => None
  }

  /** An internal key may not be empty. */
  function GetInternalKey(s: Bytes): (r: Option<(Bytes, Bytes)>)
    ensures r.Some? ==> |r.value.1| < |s|
  {
    match GetLengthPrefixed(s)
    case Some(k) => if k.0 != [] then Some(k) else None
    case None => None
  }

  function GetNewFile(s: Bytes): (r: Option<(New, Bytes)>)
    ensures r.Some? ==> |r.value.1| < |s|
  {
    match GetLevel(s)
    case None => None
    case Some(level) =>
      match GetVarint64(level.1)
      case None => None
      case Some(number) =>
        match GetVarint64(number.1)
        case None => None
        case Some(size) =>
          match GetInternalKey(size.1)
          case None => None
          case Some(smallest) =>
            match GetInternalKey(smallest.1)
            case None => None
            case Some(largest) =>
              Some((New(level.0, Meta(number.0, size.0, smallest.0, largest.0)), largest.1))
  }

  function GetNumber(s: Bytes, make: nat -> Field): (r: Option<(Field, Bytes)>)
    ensures r.Some? ==> |r.value.1| < |s|
  {
    match GetVarint64(s)
    case Some(v) => Some((make(v.0), v.1))
    case None => None
  }

  /** The field with this tag; none if it is malformed or the tag is unknown. */
  function GetPayload(tag: nat, s: Bytes): (r: Option<(Field, Bytes)>)
    ensures r.Some? ==> |r.value.1| < |s|
  {
    if tag == COMPARATOR then
      match GetLengthPrefixed(s)
      case Some(name) => Some((Comparator(name.0), name.1))
      case None => None
    else if tag == LOG_NUMBER then GetNumber(s, (n: nat) => LogNumber(n))
    else if tag == PREV_LOG_NUMBER then GetNumber(s, (n: nat) => PrevLogNumber(n))
    else if tag == NEXT_FILE_NUMBER then GetNumber(s, (n: nat) => NextFile(n))
    else if tag == LAST_SEQUENCE then GetNumber(s, (n: nat) => LastSequence(n))
    else if tag == COMPACT_POINTER then
      match GetLevel(s)
      case None => None
      case Some(level) =>
        match GetInternalKey(level.1)
        case None => None
        case Some(key) => Some((CompactPointer(Pointer(level.0, key.0)), key.1))
    else if tag == DELETED_FILE then
      match GetLevel(s)
      case None => None
      case Some(level) =>
        match GetVarint64(level.1)
        case None => None
        case Some(number) => Some((DeletedFile(Deleted(level.0, number.0)), number.1))
    else if tag == NEW_FILE then
      match GetNewFile(s)
      case None => None
      case Some(file) => Some((NewFile(file.0), file.1))
    else None
  }

  lemma NewFileRoundTrip(f: New, rest: Bytes)
    requires Fits(NewFile(f))
    ensures GetNewFile(Payload(NewFile(f)) + rest) == Some((f, rest))
  {
    hide Varint, LengthPrefixed, GetVarint32, GetVarint64, GetLengthPrefixed, GetNewFile;
    var m := f.file;
    var e := LengthPrefixed(m.largest) + rest;
    var d := LengthPrefixed(m.smallest) + e;
    var c := Varint(m.size) + d;
    var b := Varint(m.number) + c;
    assert Payload(NewFile(f)) + rest == Varint(f.level) + b by {
      Regroup(Varint(f.level), Varint(m.number), Varint(m.size), LengthPrefixed(m.smallest), LengthPrefixed(m.largest),
        rest);
    }
    Varint32RoundTrip(f.level, b);
    Varint64RoundTrip(m.number, c);
    Varint64RoundTrip(m.size, d);
    LengthPrefixedRoundTrip(m.smallest, e);
    LengthPrefixedRoundTrip(m.largest, rest);
    NewFileStep(Varint(f.level) + b, b, c, d, e, rest, f);
  }

  lemma Regroup(a: Bytes, b: Bytes, c: Bytes, d: Bytes, e: Bytes, rest: Bytes)
    ensures (a + (b + (c + (d + e)))) + rest == a + (b + (c + (d + (e + rest))))
  {
  }

  lemma NewFileStep(a: Bytes, b: Bytes, c: Bytes, d: Bytes, e: Bytes, rest: Bytes, f: New)
    requires f.level < NUM_LEVELS && f.file.smallest != [] && f.file.largest != []
    requires GetVarint32(a) == Some((f.level, b)) && GetVarint64(b) == Some((f.file.number, c))
             && GetVarint64(c) == Some((f.file.size, d))
    requires GetLengthPrefixed(d) == Some((f.file.smallest, e)) && GetLengthPrefixed(e) == Some((f.file.largest, rest))
    ensures GetNewFile(a) == Some((f, rest))
  {
    hide GetVarint32, GetVarint64, GetLengthPrefixed;
  }

  lemma PayloadRoundTrip(f: Field, rest: Bytes)
    requires Fits(f)
    ensures GetPayload(TagOf(f), Payload(f) + rest) == Some((f, rest))
  {
    hide Varint, LengthPrefixed, GetVarint32, GetVarint64, GetLengthPrefixed, GetNewFile;
    match f
    case Comparator(name) => LengthPrefixedRoundTrip(name, rest);
    case LogNumber(n) => Varint64RoundTrip(n, rest);
    case PrevLogNumber(n) => Varint64RoundTrip(n, rest);
    case NextFile(n) => Varint64RoundTrip(n, rest);
    case LastSequence(n) => Varint64RoundTrip(n, rest);
    case CompactPointer(p) =>
      assert Payload(f) + rest == Varint(p.level) + (LengthPrefixed(p.key) + rest);
      Varint32RoundTrip(p.level, LengthPrefixed(p.key) + rest);
      LengthPrefixedRoundTrip(p.key, rest);
    case DeletedFile(d) =>
      assert Payload(f) + rest == Varint(d.level) + (Varint(d.number) + rest);
      Varint32RoundTrip(d.level, Varint(d.number) + rest);
      Varint64RoundTrip(d.number, rest);
    case NewFile(n) => NewFileRoundTrip(n, rest);
  }

  // ------------------------------------------------------------------ a whole edit

  predicate DeletedBefore(a: Deleted, b: Deleted) {
    a.level < b.level || (a.level == b.level && a.number < b.number)
  }

  /** Insertion into the ordered set of deleted files. */
  function InsertDeleted(s: seq<Deleted>, d: Deleted): seq<Deleted> {
    if s == [] then [d]
    else
      var last := s[|s| - 1];
      if DeletedBefore(last, d) then s + [d]
      else if last == d then s
      else InsertDeleted(s[..|s| - 1], d) + [last]
  }

  function ApplyField(e: Edit, f: Field): Edit {
    match f
    case Comparator(name) => e.(comparator := Some(name))
    case LogNumber(n) => e.(logNumber := Some(n))
    case PrevLogNumber(n) => e.(prevLogNumber := Some(n))
    case NextFile(n) => e.(nextFile := Some(n))
    case LastSequence(n) => e.(lastSequence := Some(n))
    case CompactPointer(p) => e.(pointers := e.pointers + [p])
    case DeletedFile(d) => e.(deleted := InsertDeleted(e.deleted, d))
    case NewFile(f) => e.(added := e.added + [f])
  }

  function ApplyFields(e: Edit, fs: seq<Field>): Edit {
    if fs == [] then e else ApplyField(ApplyFields(e, fs[..|fs| - 1]), fs[|fs| - 1])
  }

  function Optional(n: Option<nat>, make: nat -> Field): seq<Field> {
    if n.Some? then [make(n.value)] else []
  }

  /** The fixed fields in the order in which they are written. */
  function Scalars(e: Edit): seq<Field> {
    (if e.comparator.Some? then [Comparator(e.comparator.value)] else [])
    + Optional(e.logNumber, (n: nat) => LogNumber(n))
    + Optional(e.prevLogNumber, (n: nat) => PrevLogNumber(n))
    + Optional(e.nextFile, (n: nat) => NextFile(n))
    + Optional(e.lastSequence, (n: nat) => LastSequence(n))
  }

  function Pointers(ps: seq<Pointer>): (fs: seq<Field>)
    ensures |fs| == |ps|
  {
    seq(|ps|, i requires 0 <= i < |ps| => CompactPointer(ps[i]))
  }

  function Deletions(ds: seq<Deleted>): (fs: seq<Field>)
    ensures |fs| == |ds|
  {
    seq(|ds|, i requires 0 <= i < |ds| => DeletedFile(ds[i]))
  }

  function Additions(ns: seq<New>): (fs: seq<Field>)
    ensures |fs| == |ns|
  {
    seq(|ns|, i requires 0 <= i < |ns| => NewFile(ns[i]))
  }

  function Fields(e: Edit): seq<Field> {
    Scalars(e) + Pointers(e.pointers) + Deletions(e.deleted) + Additions(e.added)
  }

  function Encoded(fs: seq<Field>): Bytes {
    if fs == [] then [] else Encoded(fs[..|fs| - 1]) + EncodedField(fs[|fs| - 1])
  }

  function Encoding(e: Edit): Bytes {
    Encoded(Fields(e))
  }

  ghost predicate EditFits(e: Edit) {
    && (forall f :: f in Fields(e) ==> Fits(f))
    && (forall i, j :: 0 <= i < j < |e.deleted| ==> DeletedBefore(e.deleted[i], e.deleted[j]))
  }

  /** Reads fields until the input ends; none if any is malformed. */
  function Decode(s: Bytes, e: Edit): Option<Edit>
    decreases |s|
  {
    if s == [] then Some(e)
    else
      match GetVarint32(s)
      case None => None
      case Some(tag) =>
        match GetPayload(tag.0, tag.1)
        case None => None
        case Some(field) => Decode(field.1, ApplyField(e, field.0))
  }

  lemma {:induction false} EncodedFront(f: Field, fs: seq<Field>)
    ensures Encoded([f] + fs) == EncodedField(f) + Encoded(fs)
  {
    hide EncodedField;
    var all := [f] + fs;
    if fs == [] {
      assert all[..0] == [] && Encoded([]) == [];
    } else {
      EncodedFront(f, fs[..|fs| - 1]);
      assert all[..|all| - 1] == [f] + fs[..|fs| - 1];
    }
  }

  lemma {:induction false} ApplyFront(e: Edit, f: Field, fs: seq<Field>)
    ensures ApplyFields(e, [f] + fs) == ApplyFields(ApplyField(e, f), fs)
  {
    hide ApplyField;
    var all := [f] + fs;
    if fs == [] {
      assert all[..0] == [];
    } else {
      ApplyFront(e, f, fs[..|fs| - 1]);
      assert all[..|all| - 1] == [f] + fs[..|fs| - 1];
    }
  }

  lemma {:induction false} DecodeEncoded(e: Edit, fs: seq<Field>)
    requires forall f :: f in fs ==> Fits(f)
    ensures Decode(Encoded(fs), e) == Some(ApplyFields(e, fs))
    decreases |fs|
  {
    if fs != [] {
      var f, rest := fs[0], fs[1..];
      assert fs == [f] + rest;
      DecodeFirst(e, f, rest);
      DecodeEncoded(ApplyField(e, f), rest);
      ApplyFront(e, f, rest);
    }
  }

  lemma DecodeFirst(e: Edit, f: Field, rest: seq<Field>)
    requires Fits(f)
    ensures Decode(Encoded([f] + rest), e) == Decode(Encoded(rest), ApplyField(e, f))
  {
    hide Varint, Payload, Encoded, GetPayload, ApplyField, GetVarint32, TagOf, Decode, EncodedField;
    var tail := Payload(f) + Encoded(rest);
    assert Encoded([f] + rest) == Varint(TagOf(f)) + tail by {
      EncodedFront(f, rest);
      FieldParts(f);
    }
    TagSmall(f);
    Varint32RoundTrip(TagOf(f), tail);
    PayloadRoundTrip(f, Encoded(rest));
    DecodeStep(Encoded([f] + rest), e, TagOf(f), tail, f, Encoded(rest));
  }

  lemma TagSmall(f: Field)
    ensures TagOf(f) < TWO_32
  {
  }

  lemma FieldParts(f: Field)
    ensures EncodedField(f) == Varint(TagOf(f)) + Payload(f)
  {
  }

  lemma DecodeStep(s: Bytes, e: Edit, tag: nat, t: Bytes, f: Field, u: Bytes)
    requires GetVarint32(s) == Some((tag, t)) && GetPayload(tag, t) == Some((f, u))
    ensures Decode(s, e) == Decode(u, ApplyField(e, f))
  {
    hide GetVarint32, GetPayload, ApplyField;
  }

  lemma {:induction false} ApplySplit(e: Edit, a: seq<Field>, b: seq<Field>)
    ensures ApplyFields(e, a + b) == ApplyFields(ApplyFields(e, a), b)
  {
    hide ApplyField;
    if b == [] {
      assert a + b == a;
    } else {
      ApplySplit(e, a, b[..|b| - 1]);
      assert (a + b)[..|a + b| - 1] == a + b[..|b| - 1];
    }
  }

  lemma ApplyOne(e: Edit, f: Field)
    ensures ApplyFields(e, [f]) == ApplyField(e, f)
  {
    hide ApplyField;
    assert [f][..0] == [];
    assert ApplyFields(e, []) == e;
  }

  lemma ApplyScalars(e: Edit)
    ensures ApplyFields(EMPTY_EDIT, Scalars(e)) == EMPTY_EDIT.(comparator := e.comparator, logNumber := e.logNumber,
                                                            prevLogNumber := e.prevLogNumber, nextFile := e.nextFile,
                                                              lastSequence := e.lastSequence)
  {
    var a: seq<Field> := if e.comparator.Some? then [Comparator(e.comparator.value)] else [];
    var b := Optional(e.logNumber, (n: nat) => LogNumber(n));
    var c := Optional(e.prevLogNumber, (n: nat) => PrevLogNumber(n));
    var d := Optional(e.nextFile, (n: nat) => NextFile(n));
    var f := Optional(e.lastSequence, (n: nat) => LastSequence(n));
    var e1 := EMPTY_EDIT.(comparator := e.comparator);
    var e2 := e1.(logNumber := e.logNumber);
    var e3 := e2.(prevLogNumber := e.prevLogNumber);
    var e4 := e3.(nextFile := e.nextFile);
    hide Optional;
    assert Scalars(e) == a + b + c + d + f;
    ApplySplit(EMPTY_EDIT, a + b + c + d, f);
    ApplySplit(EMPTY_EDIT, a + b + c, d);
    ApplySplit(EMPTY_EDIT, a + b, c);
    ApplySplit(EMPTY_EDIT, a, b);
    hide ApplyFields, Scalars;
    assert ApplyFields(EMPTY_EDIT, a) == e1 by { AtMostOne(EMPTY_EDIT, a); }
    assert ApplyFields(e1, b) == e2 by { OptionalApplied(e1, e.logNumber, (n: nat) => LogNumber(n)); }
    assert ApplyFields(e2, c) == e3 by { OptionalApplied(e2, e.prevLogNumber, (n: nat) => PrevLogNumber(n)); }
    assert ApplyFields(e3, d) == e4 by { OptionalApplied(e3, e.nextFile, (n: nat) => NextFile(n)); }
    OptionalApplied(e4, e.lastSequence, (n: nat) => LastSequence(n));
  }

  lemma OptionalApplied(e: Edit, n: Option<nat>, make: nat -> Field)
    ensures ApplyFields(e, Optional(n, make)) == if n.Some? then ApplyField(e, make(n.value)) else e
  {
    AtMostOne(e, Optional(n, make));
  }

  lemma AtMostOne(e: Edit, fs: seq<Field>)
    requires |fs| <= 1
    ensures ApplyFields(e, fs) == if fs == [] then e else ApplyField(e, fs[0])
  {
    if fs != [] {
      assert fs == [fs[0]];
      ApplyOne(e, fs[0]);
    }
  }

  lemma {:induction false} ApplyPointers(e: Edit, ps: seq<Pointer>)
    ensures ApplyFields(e, Pointers(ps)) == e.(pointers := e.pointers + ps)
  {
    if ps == [] {
      assert e.pointers + ps == e.pointers;
    } else {
      var front := ps[..|ps| - 1];
      ApplyPointers(e, front);
      assert Pointers(ps)[..|ps| - 1] == Pointers(front);
      assert e.pointers + ps == e.pointers + front + [ps[|ps| - 1]];
    }
  }

  lemma {:induction false} ApplyDeletions(e: Edit, ds: seq<Deleted>)
    requires e.deleted == [] && forall i, j :: 0 <= i < j < |ds| ==> DeletedBefore(ds[i], ds[j])
    ensures ApplyFields(e, Deletions(ds)) == e.(deleted := ds)
  {
    if ds != [] {
      var front := ds[..|ds| - 1];
      ApplyDeletions(e, front);
      assert Deletions(ds)[..|ds| - 1] == Deletions(front);
      assert ds == front + [ds[|ds| - 1]];
      assert front != [] ==> DeletedBefore(front[|front| - 1], ds[|ds| - 1]);
    }
  }

  lemma {:induction false} ApplyAdditions(e: Edit, ns: seq<New>)
    ensures ApplyFields(e, Additions(ns)) == e.(added := e.added + ns)
  {
    if ns == [] {
      assert e.added + ns == e.added;
    } else {
      var front := ns[..|ns| - 1];
      ApplyAdditions(e, front);
      assert Additions(ns)[..|ns| - 1] == Additions(front);
      assert e.added + ns == e.added + front + [ns[|ns| - 1]];
    }
  }

  /** Decoding an encoded edit gives the edit back. */
  lemma EditRoundTrip(e: Edit)
    requires EditFits(e)
    ensures Decode(Encoding(e), EMPTY_EDIT) == Some(e)
  {
    hide Scalars, Pointers, Deletions, Additions, Encoded, Decode, ApplyFields;
    DecodeEncoded(EMPTY_EDIT, Fields(e));
    var a, b, c, d := Scalars(e), Pointers(e.pointers), Deletions(e.deleted), Additions(e.added);
    ApplySplit(EMPTY_EDIT, a + b + c, d);
    ApplySplit(EMPTY_EDIT, a + b, c);
    ApplySplit(EMPTY_EDIT, a, b);
    ApplyScalars(e);
    var e1 := ApplyFields(EMPTY_EDIT, a);
    ApplyPointers(e1, e.pointers);
    var e2 := e1.(pointers := e.pointers);
    assert e1.pointers + e.pointers == e.pointers;
    ApplyDeletions(e2, e.deleted);
    var e3 := e2.(deleted := e.deleted);
    ApplyAdditions(e3, e.added);
    assert e3.added + e.added == e.added;
  }

  // ------------------------------------------------------------------ the loops

  lemma {:induction false} EncodedSplit(a: seq<Field>, b: seq<Field>)
    ensures Encoded(a + b) == Encoded(a) + Encoded(b)
  {
    hide EncodedField;
    if b == [] {
      assert a + b == a;
    } else {
      EncodedSplit(a, b[..|b| - 1]);
      assert (a + b)[..|a + b| - 1] == a + b[..|b| - 1];
    }
  }

  lemma EncodedNext(a: seq<Field>, f: Field)
    ensures Encoded(a + [f]) == Encoded(a) + EncodedField(f)
  {
    hide EncodedField;
    assert (a + [f])[..|a|] == a;
  }

  method PutNumber(dst: Bytes, tag: nat, n: Option<nat>, ghost make: nat -> Field, ghost fs: seq<Field>)
      returns (longer: Bytes)
    requires dst == Encoded(fs)
    requires n.Some? ==> EncodedField(make(n.value)) == Varint(tag) + Varint(n.value)
    ensures longer == Encoded(fs + Optional(n, make))
  {
    hide Varint, EncodedField;
    longer := dst;
    if n.Some? {
      EncodedNext(fs, make(n.value));
      longer := longer + Varint(tag);
      longer := longer + Varint(n.value);
      assert longer == dst + (Varint(tag) + Varint(n.value));
    } else {
      assert fs + [] == fs;
    }
  }

  method PutFields(dst: Bytes, fs: seq<Field>, ghost before: seq<Field>) returns (longer: Bytes)
    requires dst == Encoded(before)
    ensures longer == Encoded(before + fs)
  {
    hide Encoded, EncodedField;
    longer := dst;
    assert before + fs[..0] == before;
    for i := 0 to |fs|
      invariant longer == Encoded(before + fs[..i])
    {
      EncodedNext(before + fs[..i], fs[i]);
      assert before + fs[..i + 1] == before + fs[..i] + [fs[i]];
      longer := longer + EncodedField(fs[i]);
    }
    assert fs[..|fs|] == fs;
  }

  /** Writes an edit as a manifest record: the fixed fields that are set, then every compaction
      pointer, every deleted file and every new file. */
  method EncodeTo(e: Edit) returns (dst: Bytes)
    ensures dst == Encoding(e)
  {
    assert Encoded([]) == [];
    hide Encoded, Varint, LengthPrefixed;
    dst := [];
    ghost var fs: seq<Field> := [];
    if e.comparator.Some? {
      EncodedNext([], Comparator(e.comparator.value));
      dst := Varint(COMPARATOR) + LengthPrefixed(e.comparator.value);
      fs := [Comparator(e.comparator.value)];
      assert [] + fs == fs;
    }
    dst := PutNumber(dst, LOG_NUMBER, e.logNumber, (n: nat) => LogNumber(n), fs);
    fs := fs + Optional(e.logNumber, (n: nat) => LogNumber(n));
    dst := PutNumber(dst, PREV_LOG_NUMBER, e.prevLogNumber, (n: nat) => PrevLogNumber(n), fs);
    fs := fs + Optional(e.prevLogNumber, (n: nat) => PrevLogNumber(n));
    dst := PutNumber(dst, NEXT_FILE_NUMBER, e.nextFile, (n: nat) => NextFile(n), fs);
    fs := fs + Optional(e.nextFile, (n: nat) => NextFile(n));
    dst := PutNumber(dst, LAST_SEQUENCE, e.lastSequence, (n: nat) => LastSequence(n), fs);
    fs := fs + Optional(e.lastSequence, (n: nat) => LastSequence(n));
    assert fs == Scalars(e);
    hide Scalars, Optional;
    dst := PutFields(dst, Pointers(e.pointers), fs);
    dst := PutFields(dst, Deletions(e.deleted), fs + Pointers(e.pointers));
    dst := PutFields(dst, Additions(e.added), fs + Pointers(e.pointers) + Deletions(e.deleted));
  }

  /** Reads an edit from a manifest record. */
  method DecodeFrom(src: Bytes) returns (r: Option<Edit>)
    ensures r == Decode(src, EMPTY_EDIT)
  {
    var input, e, good := src, EMPTY_EDIT, true;
    while good && input != []
      invariant if good then Decode(src, EMPTY_EDIT) == Decode(input, e) else Decode(src, EMPTY_EDIT) == None
      decreases |input|, good
    {
      match GetVarint32(input) {
        case None => good := false;
        case Some(tag) =>
          match GetPayload(tag.0, tag.1) {
            case None => good := false;
            case Some(field) => input, e := field.1, ApplyField(e, field.0);
          }
      }
    }
    r := if good then Some(e) else None;
  }
}
