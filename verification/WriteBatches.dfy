/** Write batches: an 8-byte sequence number, a 4-byte count, and the operations one after another. */
module WriteBatches {
  import opened Options
  import opened InternalKeys
  import opened Coding

  type Bytes = seq<Byte>

  const HEADER: nat := 12

  datatype BatchOp = Put(key: Bytes, value: Bytes) | Delete(key: Bytes) {
    predicate Fits() {
      |key| < TWO_32 && (Put? ==> |value| < TWO_32)
    }
  }

  function EncodedOp(op: BatchOp): (bytes: Bytes)
    ensures |bytes| >= 2
  {
    match op
    case Put(key, value) => [TYPE_VALUE] + LengthPrefixed(key) + LengthPrefixed(value)
    case Delete(key) => [TYPE_DELETION] + LengthPrefixed(key)
  }

  function Body(ops: seq<BatchOp>): (bytes: Bytes)
    ensures |bytes| >= 2 * |ops|
  {
    if ops == [] then [] else EncodedOp(ops[0]) + Body(ops[1..])
  }

  predicate AllFit(ops: seq<BatchOp>) {
    forall op :: op in ops ==> op.Fits()
  }

  lemma Regroup(x: Bytes, y: Bytes, z: Bytes)
    ensures x + (y + z) == (x + y) + z
  {
  }

  lemma {:induction false} BodyAppend(a: seq<BatchOp>, b: seq<BatchOp>)
    ensures Body(a + b) == Body(a) + Body(b)
  {
    hide EncodedOp;
    if a == [] {
      assert a + b == b;
    } else {
      BodyAppend(a[1..], b);
      assert (a + b)[1..] == a[1..] + b && (a + b)[0] == a[0];
      Regroup(EncodedOp(a[0]), Body(a[1..]), Body(b));
    }
  }

  lemma BodyOfOne(ops: seq<BatchOp>, op: BatchOp)
    ensures Body(ops + [op]) == Body(ops) + EncodedOp(op)
  {
    BodyAppend(ops, [op]);
    hide EncodedOp;
    assert [op][1..] == [];
    assert Body([op]) == EncodedOp(op) + Body([]);
  }

  lemma SingleBody(op: BatchOp)
    ensures Body([op]) == EncodedOp(op)
  {
    BodyOfOne([], op);
    assert [] + [op] == [op];
  }

  // ------------------------------------------------------------------ parsing

  /** The operations handed over before the end or the first malformed byte, and which it was. */
  datatype Parsed = Parsed(ops: seq<BatchOp>, ok: bool)

  function ParseOne(input: Bytes): (r: Option<(BatchOp, Bytes)>)
    requires input != []
    ensures r.Some? ==> |r.value.1| < |input|
  {
    if input[0] == TYPE_VALUE then
      match GetLengthPrefixed(input[1..])
      case None => None
      case Some(k) =>
        match GetLengthPrefixed(k.1)
        case None => None
        case Some(v) => Some((Put(k.0, v.0), v.1))
    else if input[0] == TYPE_DELETION then
      match GetLengthPrefixed(input[1..])
      case None => None
      case Some(k) => Some((Delete(k.0), k.1))
    else None
  }

  function ParseBody(input: Bytes): Parsed
    decreases |input|
  {
    if input == [] then Parsed([], true)
    else
      match ParseOne(input)
      case None => Parsed([], false)
      case Some(one) =>
        var rest := ParseBody(one.1);
        Parsed([one.0] + rest.ops, rest.ok)
  }

  lemma ParseOneRoundTrip(op: BatchOp, rest: Bytes)
    requires op.Fits()
    ensures ParseOne(EncodedOp(op) + rest) == Some((op, rest))
  {
    hide LengthPrefixed, GetLengthPrefixed;
    var input := EncodedOp(op) + rest;
    match op
    case Put(key, value) =>
      assert input[1..] == LengthPrefixed(key) + (LengthPrefixed(value) + rest);
      LengthPrefixedRoundTrip(key, LengthPrefixed(value) + rest);
      LengthPrefixedRoundTrip(value, rest);
    case Delete(key) =>
      assert input[1..] == LengthPrefixed(key) + rest;
      LengthPrefixedRoundTrip(key, rest);
  }

  /** Reading back what was put in gives the same operations in the same order. */
  lemma {:induction false} BodyRoundTrip(ops: seq<BatchOp>)
    requires AllFit(ops)
    ensures ParseBody(Body(ops)) == Parsed(ops, true)
  {
    if ops != [] {
      hide EncodedOp, ParseOne;
      ParseOneRoundTrip(ops[0], Body(ops[1..]));
      BodyRoundTrip(ops[1..]);
    }
  }

  /** The entries a batch adds to the memtable: consecutive sequence numbers in order. */
  datatype Added = Added(sequence: nat, op: BatchOp)

  function Stamped(first: nat, ops: seq<BatchOp>): seq<Added> {
    seq(|ops|, i requires 0 <= i < |ops| => Added(first + i, ops[i]))
  }

  /** The count is kept in a 32-bit word. */
  function Wrapped(n: nat): (w: nat)
    ensures w < TWO_32
  {
    n % TWO_32
  }

  lemma WrappedSum(a: nat, b: nat)
    ensures Wrapped(Wrapped(a) + Wrapped(b)) == Wrapped(a + b)
    ensures Wrapped(Wrapped(a) + 1) == Wrapped(a + 1) && Wrapped(0) == 0
  {
  }

  ghost predicate HoldsIn(rep: Bytes, ops: seq<BatchOp>) {
    && |rep| >= HEADER && AllFit(ops)
    && rep[8..HEADER] == Fixed32(Wrapped(|ops|))
    && rep[HEADER..] == Body(ops)
  }

  /** The bytes of a batch with another count and more at the end. */
  function Extended(rep: Bytes, count: nat, extra: Bytes): (r: Bytes)
    requires |rep| >= HEADER && count < TWO_32
    ensures |r| == |rep| + |extra| && r[..8] == rep[..8]
  {
    rep[..8] + Fixed32(count) + (rep[HEADER..] + extra)
  }

  lemma ExtendedParts(rep: Bytes, count: nat, extra: Bytes)
    requires |rep| >= HEADER && count < TWO_32
    ensures var r := Extended(rep, count, extra); r[8..HEADER] == Fixed32(count) && r[HEADER..] == rep[HEADER..] + extra
  {
    hide Fixed32;
  }

  lemma Held(rep: Bytes, ops: seq<BatchOp>)
    requires HoldsIn(rep, ops)
    ensures |rep| >= HEADER && AllFit(ops) && rep[HEADER..] == Body(ops)
  {
    hide Body, Fixed32, AllFit;
  }

  lemma Holding(rep: Bytes, ops: seq<BatchOp>)
    requires |rep| >= HEADER && AllFit(ops)
    requires rep[8..HEADER] == Fixed32(Wrapped(|ops|)) && rep[HEADER..] == Body(ops)
    ensures HoldsIn(rep, ops)
  {
    hide Body, Fixed32, AllFit;
  }

  lemma ExtendedHolds(rep: Bytes, ops: seq<BatchOp>, more: seq<BatchOp>)
    requires HoldsIn(rep, ops) && AllFit(more)
    ensures HoldsIn(Extended(rep, Wrapped(|ops| + |more|), Body(more)), ops + more)
  {
    hide Body, Fixed32, AllFit, Extended, HoldsIn;
    Held(rep, ops);
    var n, all, body := Wrapped(|ops| + |more|), ops + more, Body(more);
    var r := Extended(rep, n, body);
    assert Wrapped(|all|) == n && AllFit(all) by {
      AllFitAppend(ops, more);
    }
    assert Body(all) == rep[HEADER..] + body by {
      BodyAppend(ops, more);
    }
    ExtendedParts(rep, n, body);
    Holding(r, all);
  }

  lemma ExtendedMore(rep: Bytes, count: nat, extra: Bytes, more: Bytes)
    requires |rep| >= HEADER && count < TWO_32
    ensures Extended(rep, count, extra) + more == Extended(rep, count, extra + more)
  {
    hide Fixed32;
  }

  lemma AllFitAppend(a: seq<BatchOp>, b: seq<BatchOp>)
    requires AllFit(a) && AllFit(b)
    ensures AllFit(a + b)
  {
  }

  class WriteBatch {
    var rep: Bytes

    predicate Valid()
      reads this
    {
      |rep| >= HEADER
    }

    /** The batch holds these operations, with the count to match. */
    ghost predicate Holds(ops: seq<BatchOp>)
      reads this
    {
      HoldsIn(rep, ops)
    }

    constructor ()
      ensures Holds([]) && |rep| == HEADER
    {
      rep := seq(HEADER, _ => 0);
    }

    method Clear()
      modifies this
      ensures Holds([]) && |rep| == HEADER
    {
      rep := seq(HEADER, _ => 0);
    }

    function Count(): nat
      requires Valid()
      reads this
    {
      DecodeFixed32(rep[8..HEADER])
    }

    function Sequence(): nat
      requires Valid()
      reads this
    {
      DecodeFixed64(rep[..8])
    }

    lemma CountHeld(ops: seq<BatchOp>)
      requires HoldsIn(rep, ops)
      ensures Count() == Wrapped(|ops|)
    {
      Fixed32RoundTrip(Wrapped(|ops|));
    }

    /** The count is a 32-bit word. */
    method SetCount(n: nat)
      requires Valid() && n < TWO_32
      modifies this
      ensures rep == Extended(old(rep), n, [])
    {
      hide Fixed32;
      assert rep[HEADER..] + [] == rep[HEADER..];
      rep := rep[..8] + Fixed32(n) + rep[HEADER..];
    }

    method SetSequence(sequence: nat)
      requires Valid() && sequence < TWO_64
      modifies this
      ensures Valid() && Sequence() == sequence && rep[8..] == old(rep[8..])
      ensures forall ops :: old(Holds(ops)) ==> Holds(ops)
    {
      ghost var before := rep;
      rep := Fixed64(sequence) + rep[8..];
      Fixed64RoundTrip(sequence);
      assert rep[..8] == Fixed64(sequence);
      SameFromCount(before, rep);
      hide HoldsIn;
    }

    static lemma SameFromCount(before: Bytes, after: Bytes)
      requires |before| >= HEADER && |after| >= HEADER && after[8..] == before[8..]
      ensures forall ops :: HoldsIn(before, ops) ==> HoldsIn(after, ops)
    {
      hide Fixed32, Body;
      assert after[8..HEADER] == after[8..][..4] && before[8..HEADER] == before[8..][..4];
      assert after[HEADER..] == after[8..][4..] && before[HEADER..] == before[8..][4..];
    }

    method PutOp(key: Bytes, value: Bytes, ghost ops: seq<BatchOp>)
      requires Holds(ops) && Put(key, value).Fits()
      modifies this
      ensures Holds(ops + [Put(key, value)]) && rep[..8] == old(rep[..8])
    {
      hide Count, LengthPrefixed, Body, HoldsIn, Extended, Wrapped;
      ghost var op := Put(key, value);
      CountHeld(ops);
      WrappedSum(|ops|, 1);
      ExtendedHolds(rep, ops, [op]);
      SingleBody(op);
      Held(rep, ops);
      OpFollows(rep, Wrapped(|ops| + 1), [TYPE_VALUE], LengthPrefixed(key), LengthPrefixed(value));
      SetCount(Wrapped(Count() + 1));
      rep := rep + [TYPE_VALUE];
      rep := rep + LengthPrefixed(key);
      rep := rep + LengthPrefixed(value);
    }

    static lemma OpFollows(rep: Bytes, n: nat, a: Bytes, b: Bytes, c: Bytes)
      requires |rep| >= HEADER && n < TWO_32
      ensures Extended(rep, n, []) + a + b + c == Extended(rep, n, a + b + c)
      ensures Extended(rep, n, []) + a + b == Extended(rep, n, a + b)
    {
      hide Extended;
      ExtendedMore(rep, n, [], a);
      assert [] + a == a;
      ExtendedMore(rep, n, a, b);
      ExtendedMore(rep, n, a + b, c);
    }

    method DeleteOp(key: Bytes, ghost ops: seq<BatchOp>)
      requires Holds(ops) && Delete(key).Fits()
      modifies this
      ensures Holds(ops + [Delete(key)]) && rep[..8] == old(rep[..8])
    {
      hide Count, LengthPrefixed, Body, HoldsIn, Extended, Wrapped;
      ghost var op := Delete(key);
      CountHeld(ops);
      WrappedSum(|ops|, 1);
      ExtendedHolds(rep, ops, [op]);
      SingleBody(op);
      Held(rep, ops);
      OpFollows(rep, Wrapped(|ops| + 1), [TYPE_DELETION], LengthPrefixed(key), []);
      SetCount(Wrapped(Count() + 1));
      rep := rep + [TYPE_DELETION];
      rep := rep + LengthPrefixed(key);
    }

    /** The other batch's operations after this one's; the other batch is not touched.  A batch can be
        appended to itself. */
    method Append(source: WriteBatch, ghost ops: seq<BatchOp>, ghost more: seq<BatchOp>)
      requires Holds(ops) && source.Holds(more)
      modifies this
      ensures Holds(ops + more) && rep[..8] == old(rep[..8])
      ensures |rep| == old(|rep| + |source.rep|) - HEADER
    {
      hide HoldsIn, Extended, Count, Body, AllFit, Fixed32, Wrapped;
      Held(rep, ops);
      Held(source.rep, more);
      CountHeld(ops);
      source.CountHeld(more);
      WrappedSum(|ops|, |more|);
      ExtendedHolds(rep, ops, more);
      BodyFollows(rep, source.rep, ops, more, Wrapped(|ops| + |more|));
      ghost var body := source.rep[HEADER..];
      ExtendedParts(rep, Wrapped(|ops| + |more|), []);
      SetCount(Wrapped(Count() + source.Count()));
      assert source.rep[HEADER..] == body;
      rep := rep + source.rep[HEADER..];
    }

    static lemma BodyFollows(rep: Bytes, source: Bytes, ops: seq<BatchOp>, more: seq<BatchOp>, n: nat)
      requires HoldsIn(rep, ops) && HoldsIn(source, more) && n < TWO_32
      ensures Extended(rep, n, []) + source[HEADER..] == Extended(rep, n, Body(more))
    {
      hide Body, Extended, Fixed32, AllFit;
      ExtendedMore(rep, n, [], source[HEADER..]);
      assert [] + source[HEADER..] == Body(more);
    }

    /** Reading a batch that holds some operations finds exactly those. */
    lemma HeldIsParsed(ops: seq<BatchOp>)
      requires Holds(ops)
      ensures ParseBody(rep[HEADER..]) == Parsed(ops, true) && Count() == Wrapped(|ops|)
    {
      hide Body, ParseBody;
      BodyRoundTrip(ops);
      CountHeld(ops);
    }

    /** What a reader of the batch is handed before the end or an error, and whether it is all well. */
    function Reading(): Parsed
      reads this
    {
      if |rep| < HEADER then Parsed([], false)
      else
        var p := ParseBody(rep[HEADER..]);
        Parsed(p.ops, p.ok && Wrapped(|p.ops|) == Count())
    }

    /** Hands the operations over one by one; stops at the first malformed one, and a count that
        does not match, as 32-bit words, is an error too. */
    method Iterate() returns (ops: seq<BatchOp>, ok: bool)
      ensures Parsed(ops, ok) == Reading()
    {
      hide ParseOne, Count, Wrapped;
      WrappedSum(0, 0);
      ops := [];
      if |rep| < HEADER {
        return [], false;
      }
      var input := rep[HEADER..];
      var found := 0;
      while input != []
        invariant found == Wrapped(|ops|) && found < TWO_32
        invariant ParseBody(rep[HEADER..]) == Parsed(ops + ParseBody(input).ops, ParseBody(input).ok)
        decreases |input|
      {
        WrappedSum(|ops|, 1);
        found := Wrapped(found + 1);
        match ParseOne(input) {
          case None =>
            return ops, false;
          case Some(one) =>
            ops, input := ops + [one.0], one.1;
        }
      }
      ok := found == Count();
    }

    lemma HeldIsRead(ops: seq<BatchOp>)
      requires Holds(ops)
      ensures Reading() == Parsed(ops, true)
    {
      HeldIsParsed(ops);
    }

    /** What the batch adds to the memtable. */
    method InsertInto() returns (added: seq<Added>, ok: bool)
      requires Valid()
      ensures ok == Reading().ok && added == Stamped(Sequence(), Reading().ops)
    {
      hide Reading, Sequence;
      var ops;
      ops, ok := Iterate();
      var sequence := Sequence();
      added := [];
      for i := 0 to |ops|
        invariant added == Stamped(Sequence(), ops)[..i] && sequence == Sequence() + i
      {
        added := added + [Added(sequence, ops[i])];
        sequence := sequence + 1;
      }
    }
  }
}
