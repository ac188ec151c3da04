/** The bytes of a table file: keys, block handles, blocks with their trailers, and the footer. */
module TableFormat {
  import opened Options
  import opened InternalKeys
  import opened Coding
  import opened Bytewise
  import opened KeyFormat
  import opened BlockFormat
  import opened BlockBuilding
  import opened BlockIters
  import opened Cursors
  import Crc32c

  // ------------------------------------------------------------------ keys

  function KeyBytes(k: StoredKey): (bytes: Bytes)
    requires k.packed < TWO_64
    ensures |bytes| == |k.user| + 8
  {
    k.user + Fixed64(k.packed)
  }

  function KeyOf(bytes: Bytes): StoredKey
    requires |bytes| >= 8
  {
    StoredKey(bytes[..|bytes| - 8], DecodeFixed64(bytes[|bytes| - 8..]))
  }

  lemma KeyRoundTrip(k: StoredKey)
    requires k.packed < TWO_64
    ensures KeyOf(KeyBytes(k)) == k
  {
    hide Fixed64, DecodeFixed64;
    Fixed64RoundTrip(k.packed);
    var bytes := KeyBytes(k);
    assert bytes[|bytes| - 8..] == Fixed64(k.packed);
  }

  /** The comparator of internal keys, on their bytes. */
  const INTERNAL_LESS: Comparator := (a: Bytes, b: Bytes) => |a| >= 8 && |b| >= 8 && EncodedLess(a, b)

  const BYTES_LESS: Comparator := (a: Bytes, b: Bytes) => BytesLess(a, b)

  lemma InternalOrder(a: StoredKey, b: StoredKey)
    requires a.packed < TWO_64 && b.packed < TWO_64
    ensures INTERNAL_LESS(KeyBytes(a), KeyBytes(b)) <==> StoredLess(a, b)
  {
    KeyRoundTrip(a);
    KeyRoundTrip(b);
    hide KeyBytes, DecodeFixed64, BytesLess;
  }

  lemma InternalTransitive()
    ensures BlockFormat.Transitive(INTERNAL_LESS)
  {
    forall a, b, c | INTERNAL_LESS(a, b) && INTERNAL_LESS(b, c)
      ensures INTERNAL_LESS(a, c)
    {
      hide DecodeFixed64, BytesLess;
      StoredOrder(KeyOf(a), KeyOf(b), KeyOf(c));
    }
  }

  lemma BytesTransitive()
    ensures BlockFormat.Transitive(BYTES_LESS)
  {
    forall a, b, c | BYTES_LESS(a, b) && BYTES_LESS(b, c)
      ensures BYTES_LESS(a, c)
    {
      Bytewise.Transitive(a, b, c);
    }
  }

  // ------------------------------------------------------------------ handles

  datatype Handle = Handle(offset: nat, size: nat)

  predicate HandleFits(h: Handle) {
    h.offset < TWO_64 && h.size < TWO_64
  }

  function HandleBytes(h: Handle): Bytes {
    Varint(h.offset) + Varint(h.size)
  }

  /** What follows the handle is left for later versions of the format. */
  function DecodeHandle(s: Bytes): Option<(Handle, Bytes)> {
    match GetVarint64(s)
    case None => None
    case Some(a) =>
      match GetVarint64(a.1)
      case None => None
      case Some(b) => Some((Handle(a.0, b.0), b.1))
  }

  lemma HandleRoundTrip(h: Handle, rest: Bytes)
    requires HandleFits(h)
    ensures DecodeHandle(HandleBytes(h) + rest) == Some((h, rest))
  {
    hide Varint, GetVarint64;
    Varint64RoundTrip(h.offset, Varint(h.size) + rest);
    Varint64RoundTrip(h.size, rest);
    assert HandleBytes(h) + rest == Varint(h.offset) + (Varint(h.size) + rest);
  }

  lemma {:induction false} VarintWithin(v: nat, n: nat)
    requires v < 128 * Power128(n)
    ensures |Varint(v)| <= n + 1
    decreases n
  {
    if v >= 128 && n > 0 {
      VarintWithin(v / 128, n - 1);
    }
  }

  lemma HandleShort(h: Handle)
    requires HandleFits(h)
    ensures |HandleBytes(h)| <= 20
  {
    assert Power128(4) == 128 * (128 * (128 * (128 * Power128(0))));
    assert Power128(9) == 128 * (128 * (128 * (128 * (128 * Power128(4)))));
    VarintWithin(h.offset, 9);
    VarintWithin(h.size, 9);
  }

  // ------------------------------------------------------------------ blocks in a file

  const TRAILER_SIZE: nat := 5
  const NO_COMPRESSION: Byte := 0

  /** The block's type and its masked checksum, which covers both. */
  function Trailer(contents: Bytes): (bytes: Bytes)
    ensures |bytes| == TRAILER_SIZE
  {
    [NO_COMPRESSION] + FixedWord(Crc32c.Mask(Crc32c.Extend(Crc32c.Value(contents), [NO_COMPRESSION])))
  }

  ghost predicate BlockAt(file: Bytes, h: Handle, contents: Bytes) {
    && h.size == |contents| && h.offset + h.size + TRAILER_SIZE <= |file|
    && file[h.offset..h.offset + h.size] == contents
    && file[h.offset + h.size..h.offset + h.size + TRAILER_SIZE] == Trailer(contents)
  }

  lemma BlockStays(file: Bytes, more: Bytes, h: Handle, contents: Bytes)
    requires BlockAt(file, h, contents)
    ensures BlockAt(file + more, h, contents)
  {
    hide Trailer;
    var all, n := file + more, h.offset + h.size;
    assert all[h.offset..n] == file[h.offset..n];
    assert all[n..n + TRAILER_SIZE] == file[n..n + TRAILER_SIZE];
  }

  lemma BlockAppended(file: Bytes, contents: Bytes)
    ensures BlockAt(file + contents + Trailer(contents), Handle(|file|, |contents|), contents)
  {
    hide Trailer;
    var all, n := file + contents + Trailer(contents), |file| + |contents|;
    assert all[|file|..n] == contents;
    assert all[n..n + TRAILER_SIZE] == Trailer(contents);
  }

  /** None if the file ends too early, the checksum is wanted and wrong, or the block is compressed. */
  function ReadBlock(file: Bytes, h: Handle, verify: bool): Option<Bytes> {
    var n := h.offset + h.size;
    if n + TRAILER_SIZE > |file| then None
    else
      var contents, trailer := file[h.offset..n], file[n..n + TRAILER_SIZE];
      if verify && Crc32c.Unmask(DecodeWord(trailer[1..])) != Crc32c.Value(contents + [trailer[0]]) then None
      else if trailer[0] == NO_COMPRESSION then Some(contents)
      else None
  }

  lemma ReadsBack(file: Bytes, h: Handle, contents: Bytes, verify: bool)
    requires BlockAt(file, h, contents)
    ensures ReadBlock(file, h, verify) == Some(contents)
  {
    hide FixedWord, DecodeWord, Crc32c.Mask, Crc32c.Unmask, Crc32c.Extend;
    var crc := Crc32c.Extend(Crc32c.Value(contents), [NO_COMPRESSION]);
    Crc32c.ExtendExtend(0, contents, [NO_COMPRESSION]);
    Crc32c.UnmaskMask(crc);
    WordRoundTrip(Crc32c.Mask(crc));
    assert Trailer(contents)[1..] == FixedWord(Crc32c.Mask(crc));
  }

  // ------------------------------------------------------------------ the footer

  datatype Footer = Footer(metaindex: Handle, index: Handle)

  const FOOTER_SIZE: nat := 48
  const MAGIC_LOW: nat := 0x8b80_fb57
  const MAGIC_HIGH: nat := 0xdb47_7524

  function ZeroBytes(n: nat): Bytes {
    seq(n, _ => 0)
  }

  function FooterBytes(f: Footer): Bytes
    requires |HandleBytes(f.metaindex)| + |HandleBytes(f.index)| <= 40
  {
    var handles := HandleBytes(f.metaindex) + HandleBytes(f.index);
    handles + ZeroBytes(40 - |handles|) + Fixed32(MAGIC_LOW) + Fixed32(MAGIC_HIGH)
  }

  function DecodeFooter(s: Bytes): Option<Footer>
    requires |s| == FOOTER_SIZE
  {
    if DecodeFixed32(s[40..44]) != MAGIC_LOW || DecodeFixed32(s[44..]) != MAGIC_HIGH then None
    else
      match DecodeHandle(s)
      case None => None
      case Some(m) =>
        match DecodeHandle(m.1)
        case None => None
        case Some(i) => Some(Footer(m.0, i.0))
  }

  lemma FooterRoundTrip(f: Footer)
    requires HandleFits(f.metaindex) && HandleFits(f.index)
    ensures |HandleBytes(f.metaindex)| + |HandleBytes(f.index)| <= 40
    ensures |FooterBytes(f)| == FOOTER_SIZE && DecodeFooter(FooterBytes(f)) == Some(f)
  {
    HandleShort(f.metaindex);
    HandleShort(f.index);
    hide HandleBytes, DecodeHandle, Fixed32, DecodeFixed32;
    var m, i := HandleBytes(f.metaindex), HandleBytes(f.index);
    var tail := ZeroBytes(40 - |m + i|) + Fixed32(MAGIC_LOW) + Fixed32(MAGIC_HIGH);
    FooterParts(f, m, i, tail);
    HandleRoundTrip(f.metaindex, i + tail);
    HandleRoundTrip(f.index, tail);
    Fixed32RoundTrip(MAGIC_LOW);
    Fixed32RoundTrip(MAGIC_HIGH);
  }

  lemma FooterParts(f: Footer, m: Bytes, i: Bytes, tail: Bytes)
    requires m == HandleBytes(f.metaindex) && i == HandleBytes(f.index) && |m| + |i| <= 40
    requires tail == ZeroBytes(40 - |m + i|) + Fixed32(MAGIC_LOW) + Fixed32(MAGIC_HIGH)
    ensures var s := FooterBytes(f);
            |s| == FOOTER_SIZE && s == m + (i + tail) && s[40..44] == Fixed32(MAGIC_LOW)
              && s[44..] == Fixed32(MAGIC_HIGH)
  {
    hide HandleBytes, Fixed32;
  }

  // ------------------------------------------------------------------ a block's entries

  /** The bytes are a finished block with these entries. */
  ghost predicate IsBlock(block: Bytes, entries: seq<Pair>) {
    exists data, restarts, layout :: IsBlockOf(block, entries, data, restarts, layout)
  }

  ghost predicate IsBlockOf(block: Bytes, entries: seq<Pair>, data: Bytes, restarts: seq<Word>, layout: Layout) {
    Finished(block, data, restarts) && LaidOut(data, layout) && RestartsHold(restarts, layout)
      && layout.entries == entries
  }

  /** Finishes a block and starts the builder anew. */
  method FinishBlock(builder: BlockBuilder) returns (block: Bytes)
    requires builder.Valid()
    modifies builder
    ensures builder.Valid() && builder.layout.entries == [] && builder.buffer == []
    ensures IsBlock(block, old(builder.layout.entries)) && |block| == old(builder.CurrentSizeEstimate()) < 4 * TWO_32
  {
    hide Finished, LaidOut, RestartsHold;
    ghost var data := builder.buffer;
    block := builder.Finish();
    assert IsBlockOf(block, old(builder.layout.entries), data, builder.restarts, builder.layout);
    builder.Reset();
  }

  /** Looks a key up in a block through an iterator over its bytes. */
  method SeekBlock(less: Comparator, block: Bytes, target: Bytes, ghost entries: seq<Pair>)
      returns (found: Option<Pair>)
    requires IsBlock(block, entries) && BlockFormat.Transitive(less) && Ascending(less, entries)
    ensures found == ElementAt(entries, Place(entries, KeyBefore(less), target))
  {
    hide Finished, LaidOut, RestartsHold;
    ghost var data, restarts, layout :| IsBlockOf(block, entries, data, restarts, layout);
    var it := new BlockIter(less, block, data, restarts, layout);
    found := Make(it, SeekTo(target));
  }
}
