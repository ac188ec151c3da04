/** The log writer. */
module LogWriter {
  import opened InternalKeys
  import opened LogFormat

  class Writer {
    /** The destination file, only ever appended to. */
    var dest: Bytes
    var blockOffset: nat

    /** Starts or continues a log after what the file already holds. */
    constructor (dest: Bytes)
      ensures Valid() && this.dest == dest
    {
      this.dest := dest;
      blockOffset := |dest| % BLOCK_SIZE;
    }

    /** The offset may stand at the very end of a block. */
    ghost predicate Valid()
      reads this
    {
      && blockOffset <= BLOCK_SIZE
      && (blockOffset == |dest| % BLOCK_SIZE || (blockOffset == BLOCK_SIZE && |dest| % BLOCK_SIZE == 0))
    }

    method EmitPhysicalRecord(kind: Byte, payload: Bytes)
      requires |payload| < 0x1_0000 && blockOffset + HEADER_SIZE + |payload| <= BLOCK_SIZE
      requires Valid() && blockOffset == |dest| % BLOCK_SIZE
      modifies this
      ensures Valid() && dest == old(dest) + Encoded(kind, payload)
    {
      dest := dest + Header(kind, payload);
      dest := dest + payload;
      OffsetAfter(|old(dest)|, blockOffset, HEADER_SIZE + |payload|);
      blockOffset := blockOffset + HEADER_SIZE + |payload|;
      assert dest == old(dest) + Encoded(kind, payload);
    }

    lemma OffsetAfter(a: nat, offset: nat, n: nat)
      requires offset == a % BLOCK_SIZE && offset + n <= BLOCK_SIZE
      ensures offset + n == (a + n) % BLOCK_SIZE || (offset + n == BLOCK_SIZE && (a + n) % BLOCK_SIZE == 0)
    {
    }

    /** Moves on to a fresh block when no header fits in the current one. */
    method SwitchBlock()
      requires Valid()
      modifies this
      ensures Valid() && blockOffset == |dest| % BLOCK_SIZE
      ensures dest == old(dest) + Zeros(StartAt(|old(dest)|) - |old(dest)|)
      ensures |dest| == StartAt(|old(dest)|) && Available(|old(dest)|) == BLOCK_SIZE - blockOffset - HEADER_SIZE
    {
      StartHasRoom(|dest|);
      var leftover := BLOCK_SIZE - blockOffset;
      if leftover < HEADER_SIZE {
        if leftover > 0 {
          // Too little room for a header is filled with zeros
          dest := dest + Zeros(leftover);
        } else {
          assert dest == dest + Zeros(0);
        }
        blockOffset := 0;
      } else {
        assert dest == dest + Zeros(0);
      }
    }

    /** Cuts the record into fragments; an empty record still makes one. */
    method AddRecord(slice: Bytes)
      requires Valid()
      modifies this
      ensures Valid() && dest == old(dest) + Framed(slice, |old(dest)|, true)
    {
      hide Framed, AfterPiece, Leftover;
      var data := slice;
      var begin, more := true, true;
      while more
        invariant Valid()
        invariant if more then dest + Framed(data, |dest|, begin) == old(dest) + Framed(slice, |old(dest)|, true)
                  else dest == old(dest) + Framed(slice, |old(dest)|, true)
        decreases more, |data|, if Available(|dest|) == 0 then 1 else 0
      {
        ghost var before := dest;
        var fragmentLength := WritePiece(data, begin);
        if fragmentLength == |data| {
          FramedLast(before, data, begin);
        } else {
          FramedMore(before, data, begin);
        }
        data := data[fragmentLength..];
        begin := false;
        more := |data| > 0;
      }
    }

    /** As much of what is left of a record as the block has room for. */
    method WritePiece(data: Bytes, begin: bool) returns (fragmentLength: nat)
      requires Valid()
      modifies this
      ensures Valid() && dest == AfterPiece(old(dest), data, begin)
      ensures fragmentLength == FragmentLength(|data|, |old(dest)|)
    {
      hide Encoded, Leftover;
      SwitchBlock();
      var avail := BLOCK_SIZE - blockOffset - HEADER_SIZE;
      fragmentLength := if |data| < avail then |data| else avail;
      var end := |data| == fragmentLength;
      var kind := if begin && end then FULL_TYPE else if begin then FIRST_TYPE else if end then LAST_TYPE
        else MIDDLE_TYPE;
      EmitPhysicalRecord(kind, data[..fragmentLength]);
    }
  }

  /** The file after the first piece of what is left of a record. */
  function AfterPiece(before: Bytes, data: Bytes, begin: bool): Bytes {
    var p := FirstPiece(data, |before|, begin);
    StartHasRoom(|before|);
    before + Zeros(p.start - |before|) + Encoded(p.kind, p.payload)
  }

  lemma FramedLast(before: Bytes, data: Bytes, begin: bool)
    requires FragmentLength(|data|, |before|) == |data|
    ensures before + Framed(data, |before|, begin) == AfterPiece(before, data, begin)
  {
    hide Encoded, Available, Leftover, StartAt, Zeros;
    var p := FirstPiece(data, |before|, begin);
    StartHasRoom(|before|);
    assert Framed(data, |before|, begin) == Zeros(p.start - |before|) + Encoded(p.kind, p.payload);
  }

  lemma FramedMore(before: Bytes, data: Bytes, begin: bool)
    requires FragmentLength(|data|, |before|) < |data|
    ensures var n, after := FragmentLength(|data|, |before|), AfterPiece(before, data, begin);
            && before + Framed(data, |before|, begin) == after + Framed(data[n..], |after|, false)
            && (n == 0 ==> Available(|after|) > 0 && Available(|before|) == 0)
  {
    hide Encoded, Available, Leftover, StartAt, Zeros, Placed;
    var p := FirstPiece(data, |before|, begin);
    FirstPiecePlaced(before, data, begin);
    PieceProgress(data, |before|, begin);
    var tail := Framed(data[FragmentLength(|data|, |before|)..], p.End(), false);
    assert Framed(data, |before|, begin) == Zeros(p.start - |before|) + Encoded(p.kind, p.payload) + tail;
  }
}
