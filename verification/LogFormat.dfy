/** The log format: records cut into fragments that never straddle a 32 KiB block, each with a
    checksummed header. */
module LogFormat {
  import opened InternalKeys
  import opened Coding
  import Crc32c

  const BLOCK_SIZE: nat := 32768
  const HEADER_SIZE: nat := 7

  const ZERO_TYPE: Byte := 0
  const FULL_TYPE: Byte := 1
  const FIRST_TYPE: Byte := 2
  const MIDDLE_TYPE: Byte := 3
  const LAST_TYPE: Byte := 4

  type Bytes = seq<Byte>

  /** One physical record and the file offset it starts at. */
  datatype Piece = Piece(start: nat, kind: Byte, payload: Bytes) {
    function End(): nat {
      start + HEADER_SIZE + |payload|
    }
  }

  /** The writer extends the checksum of the type byte over the payload. */
  function StoredChecksum(kind: Byte, payload: Bytes): (bytes: Bytes)
    ensures |bytes| == 4
  {
    FixedWord(Crc32c.Mask(Crc32c.Extend(Crc32c.Value([kind]), payload)))
  }

  /** The reader computes it over type and payload together. */
  predicate ChecksumMatches(stored: Bytes, kind: Byte, payload: Bytes)
    requires |stored| == 4
  {
    Crc32c.Unmask(DecodeWord(stored)) == Crc32c.Value([kind] + payload)
  }

  lemma ChecksumRoundTrip(kind: Byte, payload: Bytes)
    ensures ChecksumMatches(StoredChecksum(kind, payload), kind, payload)
  {
    hide FixedWord, DecodeWord, Crc32c.Mask, Crc32c.Unmask, Crc32c.Extend;
    var crc := Crc32c.Extend(Crc32c.Value([kind]), payload);
    Crc32c.ExtendExtend(0, [kind], payload);
    Crc32c.UnmaskMask(crc);
    WordRoundTrip(Crc32c.Mask(crc));
  }

  /** Only the checksum the writer stores matches. */
  lemma OnlyStoredMatches(stored: Bytes, kind: Byte, payload: Bytes)
    requires |stored| == 4 && ChecksumMatches(stored, kind, payload)
    ensures stored == StoredChecksum(kind, payload)
  {
    hide FixedWord, DecodeWord, Crc32c.Mask, Crc32c.Unmask, Crc32c.Extend;
    Crc32c.ExtendExtend(0, [kind], payload);
    Crc32c.MaskUnmask(DecodeWord(stored));
    WordOfDecoded(stored);
  }

  function Header(kind: Byte, payload: Bytes): (bytes: Bytes)
    requires |payload| < 0x1_0000
    ensures |bytes| == HEADER_SIZE
  {
    StoredChecksum(kind, payload) + [|payload| % 0x100, |payload| / 0x100, kind]
  }

  function Encoded(kind: Byte, payload: Bytes): (bytes: Bytes)
    requires |payload| < 0x1_0000
    ensures |bytes| == HEADER_SIZE + |payload|
  {
    Header(kind, payload) + payload
  }

  // ------------------------------------------------------------------ where pieces go

  /** Room left in the block that offset a falls in; a full block at its start. */
  function Leftover(a: nat): nat {
    BLOCK_SIZE - a % BLOCK_SIZE
  }

  /** A header never starts in the last six bytes of a block. */
  function StartAt(a: nat): nat {
    if Leftover(a) < HEADER_SIZE then a + Leftover(a) else a
  }

  lemma StartHasRoom(a: nat)
    ensures a <= StartAt(a) && StartAt(a) - a < HEADER_SIZE
    ensures Leftover(StartAt(a)) >= HEADER_SIZE
    ensures StartAt(StartAt(a)) == StartAt(a)
  {
    if Leftover(a) < HEADER_SIZE {
      assert (a + Leftover(a)) % BLOCK_SIZE == 0;
    }
  }

  function Available(a: nat): (n: nat)
    ensures n <= BLOCK_SIZE - HEADER_SIZE
  {
    StartHasRoom(a);
    Leftover(StartAt(a)) - HEADER_SIZE
  }

  function KindOf(begin: bool, end: bool): Byte {
    if begin && end then FULL_TYPE else if begin then FIRST_TYPE else if end then LAST_TYPE else MIDDLE_TYPE
  }

  function FragmentLength(left: nat, a: nat): (n: nat)
    ensures n <= left && n <= Available(a)
  {
    if left < Available(a) then left else Available(a)
  }

  /** The first piece of what is left of a record, written from offset a on. */
  function FirstPiece(data: Bytes, a: nat, begin: bool): Piece {
    var n := FragmentLength(|data|, a);
    Piece(StartAt(a), KindOf(begin, n == |data|), data[..n])
  }

  /** Either payload is used up, or the piece was empty at the very end of a block and the next one
      starts a fresh block. */
  lemma PieceProgress(data: Bytes, a: nat, begin: bool)
    requires FragmentLength(|data|, a) < |data|
    ensures var p := FirstPiece(data, a, begin);
            FragmentLength(|data|, a) == 0 ==> Available(p.End()) > 0
  {
    StartHasRoom(a);
    var p := FirstPiece(data, a, begin);
    if FragmentLength(|data|, a) == 0 {
      assert Leftover(StartAt(a)) == HEADER_SIZE;
      assert p.End() % BLOCK_SIZE == 0;
    }
  }

  /** The pieces of a record written from offset a on. */
  function Pieces(data: Bytes, a: nat, begin: bool): (ps: seq<Piece>)
    ensures |ps| > 0
    decreases |data|, if Available(a) == 0 then 1 else 0
  {
    var n := FragmentLength(|data|, a);
    var p := FirstPiece(data, a, begin);
    if n == |data| then [p]
    else
      PieceProgress(data, a, begin);
      [p] + Pieces(data[n..], p.End(), false)
  }

  /** A record is cut only where a block ends: every fragment but its last one fills its block. */
  lemma {:induction false} FragmentsFillBlocks(data: Bytes, a: nat, begin: bool, k: nat)
    requires k + 1 < |Pieces(data, a, begin)|
    ensures Pieces(data, a, begin)[k].End() % BLOCK_SIZE == 0
    decreases |data|, if Available(a) == 0 then 1 else 0
  {
    var n, p := FragmentLength(|data|, a), FirstPiece(data, a, begin);
    PieceProgress(data, a, begin);
    StartHasRoom(a);
    if k == 0 {
      assert p.End() == StartAt(a) + Leftover(StartAt(a));
    } else {
      hide Available, Leftover, StartAt;
      FragmentsFillBlocks(data[n..], p.End(), false, k - 1);
    }
  }

  function Zeros(n: nat): (bytes: Bytes)
    ensures |bytes| == n
  {
    seq(n, _ => 0)
  }

  /** The bytes appended for a record when the file is a bytes long: trailer padding where a block
      is left, then header and payload, piece after piece. */
  function Framed(data: Bytes, a: nat, begin: bool): Bytes
    decreases |data|, if Available(a) == 0 then 1 else 0
  {
    var n := FragmentLength(|data|, a);
    var p := FirstPiece(data, a, begin);
    StartHasRoom(a);
    var bytes := Zeros(p.start - a) + Encoded(p.kind, p.payload);
    if n == |data| then bytes
    else
      PieceProgress(data, a, begin);
      bytes + Framed(data[n..], p.End(), false)
  }

  /** The log holding a list of records. */
  function LogOf(records: seq<Bytes>): Bytes {
    if records == [] then []
    else
      var front := LogOf(records[..|records| - 1]);
      front + Framed(records[|records| - 1], |front|, true)
  }

  // ------------------------------------------------------------------ pieces in place

  /** The piece's bytes are in the file where they should be, inside one block. */
  ghost predicate Placed(file: Bytes, p: Piece) {
    && p.End() <= |file| && |p.payload| < 0x1_0000
    && Leftover(p.start) >= HEADER_SIZE + |p.payload|
    && p.kind != ZERO_TYPE
    && file[p.start..p.End()] == Encoded(p.kind, p.payload)
  }

  /** Where the k-th piece's predecessor ends. */
  function EndBefore(ps: seq<Piece>, k: nat, a: nat): nat
    requires k <= |ps|
  {
    if k == 0 then a else ps[k - 1].End()
  }

  /** The pieces follow one another from offset a on, all in place. */
  ghost predicate Chain(file: Bytes, ps: seq<Piece>, a: nat) {
    forall k :: 0 <= k < |ps| ==>
      && Placed(file, ps[k])
      && ps[k].start == StartAt(EndBefore(ps, k, a))
  }

  function Assembled(ps: seq<Piece>): Bytes {
    if ps == [] then [] else Assembled(ps[..|ps| - 1]) + ps[|ps| - 1].payload
  }

  lemma PlacedInLonger(file: Bytes, more: Bytes, p: Piece)
    requires Placed(file, p)
    ensures Placed(file + more, p)
  {
    assert (file + more)[p.start..p.End()] == file[p.start..p.End()];
  }

  lemma FirstPiecePlaced(before: Bytes, data: Bytes, begin: bool)
    ensures var p := FirstPiece(data, |before|, begin);
            && p.start >= |before| && p.start == StartAt(|before|)
            && |before + Zeros(p.start - |before|) + Encoded(p.kind, p.payload)| == p.End()
            && Placed(before + Zeros(p.start - |before|) + Encoded(p.kind, p.payload), p)
  {
    StartHasRoom(|before|);
  }

  lemma ChainCons(file: Bytes, p: Piece, rest: seq<Piece>, a: nat)
    requires Placed(file, p) && p.start == StartAt(a) && Chain(file, rest, p.End())
    ensures Chain(file, [p] + rest, a)
  {
    hide Placed, StartAt;
    var ps := [p] + rest;
    forall k | 0 <= k < |ps|
      ensures Placed(file, ps[k])
      ensures ps[k].start == StartAt(EndBefore(ps, k, a))
    {
      if k > 0 {
        assert ps[k] == rest[k - 1];
        assert EndBefore(ps, k, a) == EndBefore(rest, k - 1, p.End());
      }
    }
  }

  /** Framing puts the pieces of the record in place after what was there. */
  lemma {:induction false} FramedPlacesPieces(before: Bytes, data: Bytes, begin: bool)
    ensures Chain(before + Framed(data, |before|, begin), Pieces(data, |before|, begin), |before|)
    ensures var ps := Pieces(data, |before|, begin);
            ps[|ps| - 1].End() == |before + Framed(data, |before|, begin)|
    decreases |data|, if Available(|before|) == 0 then 1 else 0
  {
    hide Chain, Placed, Leftover, Encoded, StartAt, Available, Zeros;
    var n := FragmentLength(|data|, |before|);
    var p := FirstPiece(data, |before|, begin);
    FirstPiecePlaced(before, data, begin);
    var middle := before + Zeros(p.start - |before|) + Encoded(p.kind, p.payload);
    if n < |data| {
      PieceProgress(data, |before|, begin);
      FramedPlacesPieces(middle, data[n..], false);
      var rest := Pieces(data[n..], p.End(), false);
      var tail := Framed(data[n..], p.End(), false);
      assert before + Framed(data, |before|, begin) == middle + tail;
      PlacedInLonger(middle, tail, p);
      assert |middle| == p.End() && Chain(middle + tail, rest, p.End());
      ChainCons(middle + tail, p, rest, |before|);
      assert Pieces(data, |before|, begin) == [p] + rest;
    } else {
      assert before + Framed(data, |before|, begin) == middle;
      ChainOne(middle, p, |before|);
    }
  }

  lemma ChainOne(file: Bytes, p: Piece, a: nat)
    requires Placed(file, p) && p.start == StartAt(a)
    ensures Chain(file, [p], a)
  {
  }
}
