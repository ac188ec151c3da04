/** The log reader, and the round trip: any byte prefix of a log reads back as exactly the records
    it contains whole, and no corruption is reported. */
module LogReader {
  import opened Options
  import opened InternalKeys
  import opened LogFormat
  import opened LogWriter

  /** Results of reading a physical record beside the record types. */
  const EOF: nat := 5
  const BAD_RECORD: nat := 6

  datatype Progress = More | Complete(record: Bytes) | Exhausted

  predicate Known(kind: nat) {
    FULL_TYPE <= kind <= LAST_TYPE
  }

  /** The record's pieces lie in the file one after another, each with its checksum, as a writer would
      have framed them. */
  ghost predicate WrittenAt(file: Bytes, record: Bytes, from: nat, to: nat) {
    exists ps :: IsRecord(file, ps, from, to) && record == Assembled(ps)
  }

  ghost predicate IsRecord(file: Bytes, ps: seq<Piece>, from: nat, to: nat) {
    && ps != [] && Kinded(ps) && Chain(file, ps, ps[0].start)
    && from <= ps[0].start && ps[|ps| - 1].End() == to
  }

  /** While a record is being put together its first pieces are: one that begins it, and middle ones. */
  ghost predicate Gathered(file: Bytes, got: seq<Piece>, scratch: Bytes, from: nat, to: nat) {
    && got != [] && Chain(file, got, got[0].start)
    && from <= got[0].start && got[|got| - 1].End() == to
    && (forall k :: 0 <= k < |got| ==> got[k].kind == KindOf(k == 0, false))
    && scratch == Assembled(got)
  }

  /** What one more physical record makes of what has been put together. */
  function Assembling(kind: nat, fragment: Bytes, scratch: Bytes, inFragmentedRecord: bool): (Progress, Bytes, bool) {
    if kind == FULL_TYPE then (Complete(fragment), scratch, inFragmentedRecord)
    else if kind == FIRST_TYPE then (More, fragment, true)
    else if kind == MIDDLE_TYPE then
      (More, if inFragmentedRecord then scratch + fragment else scratch, inFragmentedRecord)
    else if kind == LAST_TYPE then
      (if inFragmentedRecord then Complete(scratch + fragment) else More, scratch, inFragmentedRecord)
    else if kind == EOF then (Exhausted, scratch, inFragmentedRecord)
    else if kind == BAD_RECORD && !inFragmentedRecord then (More, scratch, false)
    else (More, [], false)
  }

  lemma AssembledNext(ps: seq<Piece>, p: Piece)
    ensures Assembled(ps + [p]) == Assembled(ps) + p.payload
  {
    assert (ps + [p])[..|ps|] == ps;
  }

  lemma ChainNext(file: Bytes, ps: seq<Piece>, a: nat, p: Piece)
    requires ps != [] && Chain(file, ps, a) && Placed(file, p) && p.start == StartAt(ps[|ps| - 1].End())
    ensures Chain(file, ps + [p], a)
  {
    hide Placed, StartAt;
  }

  lemma ChainOfOne(file: Bytes, p: Piece, before: nat)
    requires Placed(file, p) && p.start == StartAt(before)
    ensures Chain(file, [p], p.start) && before <= p.start && Assembled([p]) == p.payload
  {
    hide Placed, Leftover;
    StartHasRoom(before);
    assert [p][..0] == [];
  }

  /** Whatever the file holds, what is being put together stays a beginning of a record in it, and what
      is complete is a record in it. */
  lemma GatherNext(file: Bytes, got: seq<Piece>, scratch: Bytes, inFragmentedRecord: bool, from: nat, before: nat,
      kind: nat, fragment: Bytes, start: nat, after: nat) returns (got': seq<Piece>)
    requires from <= before && (inFragmentedRecord ==> Gathered(file, got, scratch, from, before))
    requires Known(kind) ==>
               var p := Piece(start, kind, fragment);
               Placed(file, p) && start == StartAt(before) && p.End() == after
    ensures var (progress, scratch', inFragmentedRecord') := Assembling(kind, fragment, scratch, inFragmentedRecord);
            && (progress.Complete? ==> WrittenAt(file, progress.record, from, after))
            && (progress.More? && inFragmentedRecord' ==> Gathered(file, got', scratch', from, after))
  {
    hide Placed, StartAt, Chain, Assembled;
    got' := got;
    if Known(kind) {
      var p := Piece(start, kind, fragment);
      ChainOfOne(file, p, before);
      if kind == FULL_TYPE {
        assert IsRecord(file, [p], from, after);
      } else if kind == FIRST_TYPE {
        got' := [p];
      } else if inFragmentedRecord {
        got' := got + [p];
        AssembledNext(got, p);
        ChainNext(file, got, got[0].start, p);
        assert kind == LAST_TYPE ==> IsRecord(file, got', from, after);
      }
    }
  }

  // ------------------------------------------------------------------ what any bytes are read as

  /** One physical record read: its kind or EOF or BAD_RECORD, its payload, where reading goes on, and whether
      corruption was reported. */
  datatype Physical = Physical(kind: nat, fragment: Bytes, end: nat, reported: bool)

  /** Where the block that holds offset s ends, or the file. */
  function BlockEnd(file: Bytes, s: nat): nat {
    if s + Leftover(s) <= |file| then s + Leftover(s) else |file|
  }

  /** What is read at offset a.  Where a record does not fit its block, was set aside and never written,
      or does not match its checksum, the rest of the block is dropped, and that only; at the end of a
      file whose last block is short, a record that does not fit was never finished. */
  function PhysicalAt(file: Bytes, a: nat): (r: Physical)
    requires a <= |file|
    ensures r.end <= |file| && (r.kind != EOF ==> a < r.end)
  {
    var s := StartAt(a);
    StartHasRoom(a);
    if s + HEADER_SIZE > |file| then Physical(EOF, [], |file|, false)
    else
      var end, length := BlockEnd(file, s), LengthOf(file[s + 4], file[s + 5]);
      if s + HEADER_SIZE + length > end then
        if end % BLOCK_SIZE != 0 then Physical(EOF, [], end, false) else Physical(BAD_RECORD, [], end, true)
      else
        var payload := file[s + HEADER_SIZE..s + HEADER_SIZE + length];
        if file[s + 6] == ZERO_TYPE && length == 0 then Physical(BAD_RECORD, [], end, false)
        else if !ChecksumMatches(file[s..s + 4], file[s + 6], payload) then Physical(BAD_RECORD, [], end, true)
        else Physical(file[s + 6], payload, s + HEADER_SIZE + length, false)
  }

  /** The records read from offset a on, when so much of one has been put together. */
  function RecordsFrom(file: Bytes, a: nat, scratch: Bytes, inFragmentedRecord: bool): seq<Bytes>
    requires a <= |file|
    decreases |file| - a
  {
    var p := PhysicalAt(file, a);
    var (progress, scratch', inFragmentedRecord') := Assembling(p.kind, p.fragment, scratch, inFragmentedRecord);
    match progress
    case Complete(record) => [record] + RecordsFrom(file, p.end, [], false)
    case Exhausted => []
    case More => RecordsFrom(file, p.end, scratch', inFragmentedRecord')
  }

  lemma OneMoreRead(file: Bytes, a: nat, scratch: Bytes, inFragmentedRecord: bool)
    requires a <= |file|
    ensures var p := PhysicalAt(file, a);
            var (progress, scratch', inFragmentedRecord') :=
              Assembling(p.kind, p.fragment, scratch, inFragmentedRecord);
            RecordsFrom(file, a, scratch, inFragmentedRecord)
            == match progress
               case Complete(record) => [record] + RecordsFrom(file, p.end, [], false)
               case Exhausted => []
               case More => RecordsFrom(file, p.end, scratch', inFragmentedRecord')
    ensures var p := PhysicalAt(file, a);
            var (progress, scratch', inFragmentedRecord') :=
              Assembling(p.kind, p.fragment, scratch, inFragmentedRecord);
            ReportsFrom(file, a, scratch, inFragmentedRecord)
            == (if p.reported then 1 else 0) + (if Complains(p.kind, scratch, inFragmentedRecord) then 1 else 0)
               + match progress
                 case Complete(record) => ReportsFrom(file, p.end, [], false)
                 case Exhausted => 0
                 case More => ReportsFrom(file, p.end, scratch', inFragmentedRecord')
  {
    hide PhysicalAt, Assembling, Complains;
  }

  /** What is still to be read from one offset on is what is still to be read from the other, now that so
      much of a record has been put together and so much has been reported. */
  ghost predicate SoFar(file: Bytes, from: nat, at: nat, scratch: Bytes, inFragmentedRecord: bool, before: nat,
      reports: nat)
    requires from <= |file| && at <= |file|
  {
    && RecordsFrom(file, from, [], false) == RecordsFrom(file, at, scratch, inFragmentedRecord)
    && before + ReportsFrom(file, from, [], false) == reports + ReportsFrom(file, at, scratch, inFragmentedRecord)
  }

  lemma ReadOn(file: Bytes, from: nat, at: nat, scratch: Bytes, inFragmentedRecord: bool, before: nat, reports: nat,
      p: Physical, after: nat)
    requires from <= |file| && at <= |file| && p == PhysicalAt(file, at)
    requires SoFar(file, from, at, scratch, inFragmentedRecord, before, reports)
    requires after == reports + (if p.reported then 1 else 0)
                      + (if Complains(p.kind, scratch, inFragmentedRecord) then 1 else 0)
    ensures var (progress, scratch', inFragmentedRecord') :=
              Assembling(p.kind, p.fragment, scratch, inFragmentedRecord);
            match progress
            case Complete(record) => RestIs(file, from, [record], p.end, before, after)
            case Exhausted => RecordsFrom(file, from, [], false) == []
              && before + ReportsFrom(file, from, [], false) == after
            case More => SoFar(file, from, p.end, scratch', inFragmentedRecord', before, after)
  {
    OneMoreRead(file, at, scratch, inFragmentedRecord);
    hide PhysicalAt, RecordsFrom, ReportsFrom, Complains, Assembling;
  }

  lemma StartsFresh(file: Bytes, at: nat, reports: nat)
    requires at <= |file|
    ensures SoFar(file, at, at, [], false, reports, reports)
  {
  }

  ghost predicate RestIs(file: Bytes, from: nat, records: seq<Bytes>, to: nat, before: nat, after: nat)
    requires from <= |file| && to <= |file|
  {
    && RecordsFrom(file, from, [], false) == records + RecordsFrom(file, to, [], false)
    && before + ReportsFrom(file, from, [], false) == after + ReportsFrom(file, to, [], false)
  }

  /** What is read depends on where the next record may start only. */
  lemma SameStart(file: Bytes, a: nat, b: nat)
    requires a <= |file| && b <= |file| && (a == b || b == StartAt(a))
    ensures PhysicalAt(file, a) == PhysicalAt(file, b)
  {
    hide ChecksumMatches, Leftover;
    StartHasRoom(a);
  }

  /** Whether what a physical record is found next to is reported. */
  predicate Complains(kind: nat, scratch: Bytes, inFragmentedRecord: bool) {
    if kind == FULL_TYPE || kind == FIRST_TYPE then inFragmentedRecord && scratch != []
    else if kind == MIDDLE_TYPE || kind == LAST_TYPE then !inFragmentedRecord
    else if kind == EOF then false
    else kind == BAD_RECORD ==> inFragmentedRecord
  }

  /** How many times corruption is reported on the way. */
  function ReportsFrom(file: Bytes, a: nat, scratch: Bytes, inFragmentedRecord: bool): nat
    requires a <= |file|
    decreases |file| - a
  {
    var p := PhysicalAt(file, a);
    var (progress, scratch', inFragmentedRecord') := Assembling(p.kind, p.fragment, scratch, inFragmentedRecord);
    (if p.reported then 1 else 0) + (if Complains(p.kind, scratch, inFragmentedRecord) then 1 else 0)
      + match progress
        case Complete(record) => ReportsFrom(file, p.end, [], false)
        case Exhausted => 0
        case More => ReportsFrom(file, p.end, scratch', inFragmentedRecord')
  }

  function AllRecords(file: Bytes): seq<Bytes> {
    RecordsFrom(file, 0, [], false)
  }

  /** The types the writer gives to the pieces of one record. */
  ghost predicate Kinded(ps: seq<Piece>) {
    forall k :: 0 <= k < |ps| ==> ps[k].kind == KindOf(k == 0, k == |ps| - 1)
  }

  class Reader {
    const file: Bytes
    var buffer: Bytes
    var eof: bool
    var lastRecordOffset: int
    /** How far into the file the reader has read: where the buffer ends. */
    var endOfBufferOffset: nat
    /** How many times corruption has been reported. */
    var reports: nat

    constructor (file: Bytes)
      ensures this.file == file && Valid() && Pos() == 0 && reports == 0
    {
      this.file := file;
      buffer, eof, lastRecordOffset, endOfBufferOffset, reports := [], false, 0, 0, 0;
    }

    /** The buffer is the unread rest of one block; only the last one may be short. */
    ghost predicate Valid()
      reads this
    {
      && |buffer| <= endOfBufferOffset <= |file|
      && buffer == file[endOfBufferOffset - |buffer|..endOfBufferOffset]
      && |buffer| <= BLOCK_SIZE
      && (if eof then endOfBufferOffset == |file| && |buffer| <= Leftover(Pos())
                      && (buffer == [] || |file| % BLOCK_SIZE != 0)
          else endOfBufferOffset % BLOCK_SIZE == 0)
    }

    /** The offset of the next unread byte. */
    ghost function Pos(): nat
      reads this
    {
      if |buffer| <= endOfBufferOffset then endOfBufferOffset - |buffer| else 0
    }

    method ReportCorruption()
      modifies this`reports
      ensures reports == old(reports) + 1
    {
      reports := reports + 1;
    }

    /** Reads the next block, dropping what is left of the trailer of the current one. */
    method ReadBlock()
      requires Valid() && !eof && |buffer| < HEADER_SIZE
      modifies this
      ensures Valid() && reports == old(reports) && lastRecordOffset == old(lastRecordOffset)
      ensures Pos() == old(endOfBufferOffset) >= old(Pos())
      ensures Pos() == StartAt(old(Pos()))
      ensures |buffer| < HEADER_SIZE ==> eof
    {
      BlockEnds(Pos(), endOfBufferOffset);
      var n := if |file| - endOfBufferOffset < BLOCK_SIZE then |file| - endOfBufferOffset else BLOCK_SIZE;
      buffer := file[endOfBufferOffset..endOfBufferOffset + n];
      endOfBufferOffset := endOfBufferOffset + n;
      if |buffer| < BLOCK_SIZE {
        eof := true;
      }
    }

    lemma BlockEnds(a: nat, end: nat)
      requires a <= end && end - a < HEADER_SIZE && end % BLOCK_SIZE == 0
      ensures StartAt(a) == end
      ensures Leftover(end) == BLOCK_SIZE
    {
    }

    /** What an intact log promises at the current offset: either the next piece follows, though the
        file may have been cut off inside or before it, or nothing is left. */
    ghost predicate Expects(whole: Bytes, next: Option<Piece>)
      requires Valid()
      reads this
    {
      && file <= whole
      && (next.Some? ==> Placed(whole, next.value) && next.value.start == StartAt(Pos()))
      && (next.None? ==> Pos() == |file|)
    }

    ghost predicate Cut(next: Option<Piece>) {
      next.None? || next.value.End() > |file|
    }

    /** The physical record read last lies in the file where a record may start, and was read to its
        end. */
    ghost predicate ReadAt(start: nat, kind: nat, fragment: Bytes)
      requires Known(kind)
      reads this
    {
      var p := Piece(start, kind, fragment);
      Placed(file, p) && p.End() == Pos()
    }

    /** A physical record whose checksum matches is one as a writer places it. */
    lemma PlacedHere(kind: Byte, length: nat)
      requires Valid() && HEADER_SIZE + length <= |buffer| && kind == buffer[6] && kind != ZERO_TYPE
      requires length == LengthOf(buffer[4], buffer[5])
      requires ChecksumMatches(buffer[..4], kind, buffer[HEADER_SIZE..HEADER_SIZE + length])
      ensures Placed(file, Piece(Pos(), kind, buffer[HEADER_SIZE..HEADER_SIZE + length]))
    {
      hide ChecksumMatches, StoredChecksum;
      var payload := buffer[HEADER_SIZE..HEADER_SIZE + length];
      OnlyStoredMatches(buffer[..4], kind, payload);
      assert buffer[..HEADER_SIZE] == Header(kind, payload);
      assert buffer[..HEADER_SIZE + length] == Header(kind, payload) + payload;
      var from := Pos();
      assert file[from..from + HEADER_SIZE + length] == buffer[..HEADER_SIZE + length];
      if !eof {
        BlockRest(from, endOfBufferOffset);
      }
    }

    /** What an intact piece looks like from the front of the buffer. */
    lemma PieceInBuffer(whole: Bytes, p: Piece)
      requires Valid() && |buffer| >= HEADER_SIZE && Expects(whole, Some(p)) && p.start == Pos()
      ensures LengthOf(buffer[4], buffer[5]) == |p.payload| && buffer[6] == p.kind && p.kind != ZERO_TYPE
      ensures p.End() > |file| <==> HEADER_SIZE + |p.payload| > |buffer|
      ensures p.End() > |file| ==> eof
      ensures p.End() <= |file| ==> buffer[HEADER_SIZE..HEADER_SIZE + |p.payload|] == p.payload
      ensures ChecksumMatches(buffer[..4], p.kind, p.payload)
    {
      hide Header, Leftover, StartAt, ChecksumMatches, StoredChecksum;
      HeaderInBuffer(whole, p);
      HeaderParts(p.kind, p.payload);
      CutShows(whole, p);
      ChecksumRoundTrip(p.kind, p.payload);
      var h := buffer[..HEADER_SIZE];
      assert h[4] == buffer[4] && h[5] == buffer[5] && h[6] == buffer[6] && h[..4] == buffer[..4];
      if p.End() <= |file| {
        PayloadInBuffer(whole, p);
      }
    }

    /** What is read at the front of the buffer, in terms of the buffer. */
    lemma PhysicalHere()
      requires Valid() && |buffer| >= HEADER_SIZE
      ensures var length := LengthOf(buffer[4], buffer[5]);
              PhysicalAt(file, Pos())
              == if HEADER_SIZE + length > |buffer| then
                   Physical(if eof then EOF else BAD_RECORD, [], endOfBufferOffset, !eof)
                 else if buffer[6] == ZERO_TYPE && length == 0 then Physical(BAD_RECORD, [], endOfBufferOffset, false)
                 else if !ChecksumMatches(buffer[..4], buffer[6], buffer[HEADER_SIZE..HEADER_SIZE + length]) then
                   Physical(BAD_RECORD, [], endOfBufferOffset, true)
                 else Physical(buffer[6], buffer[HEADER_SIZE..HEADER_SIZE + length], Pos() + HEADER_SIZE + length,
                   false)
    {
      hide ChecksumMatches;
      HeaderFits();
      var s, length := Pos(), LengthOf(buffer[4], buffer[5]);
      if !eof {
        BlockRest(s, endOfBufferOffset);
      }
      hide StartAt, Leftover;
      assert BlockEnd(file, s) == endOfBufferOffset by { BlockEndHere(); }
      assert forall k :: 0 <= k < |buffer| ==> buffer[k] == file[s + k];
      assert buffer[..4] == file[s..s + 4];
      if HEADER_SIZE + length <= |buffer| {
        SliceOfSlice(file, s, endOfBufferOffset, HEADER_SIZE, HEADER_SIZE + length);
      }
    }

    static lemma SliceOfSlice(file: Bytes, s: nat, end: nat, i: nat, j: nat)
      requires s <= end <= |file| && i <= j <= end - s
      ensures file[s..end][i..j] == file[s + i..s + j]
    {
      var a, b := file[s..end][i..j], file[s + i..s + j];
      forall k | 0 <= k < |a|
        ensures a[k] == b[k]
      {
        assert a[k] == file[s..end][i + k];
      }
    }

    lemma BlockEndHere()
      requires Valid() && |buffer| >= HEADER_SIZE
      ensures BlockEnd(file, Pos()) == endOfBufferOffset && (eof <==> endOfBufferOffset % BLOCK_SIZE != 0)
    {
      if !eof {
        BlockRest(Pos(), endOfBufferOffset);
      } else {
        LeftoverEnds(Pos());
      }
    }

    lemma LeftoverEnds(a: nat)
      ensures (a + Leftover(a)) % BLOCK_SIZE == 0
    {
    }

    /** Parses the physical record at the front of the buffer. */
    method ParseRecord(ghost intact: bool, ghost whole: Bytes, ghost next: Option<Piece>)
        returns (kind: nat, fragment: Bytes)
      requires Valid() && |buffer| >= HEADER_SIZE
      requires intact ==> Expects(whole, next) && next.Some? && next.value.start == Pos()
      modifies this
      ensures Valid() && lastRecordOffset == old(lastRecordOffset) && Pos() > old(Pos())
      ensures intact ==> reports == old(reports)
      ensures intact && Cut(next) ==> kind == EOF
      ensures intact && !Cut(next) ==> kind == next.value.kind && fragment == next.value.payload
                                       && Pos() == next.value.End()
      ensures Known(kind) ==> ReadAt(old(Pos()), kind, fragment)
      ensures PhysicalAt(file, old(Pos())) == Physical(kind, fragment, Pos(), reports > old(reports))
      ensures old(reports) <= reports <= old(reports) + 1
    {
      hide Leftover, StartAt, ChecksumMatches, Placed, Expects, PhysicalAt;
      fragment := [];
      PhysicalHere();
      if intact {
        PieceInBuffer(whole, next.value);
      }
      LeftoverPositive(endOfBufferOffset);
      var length := LengthOf(buffer[4], buffer[5]);
      var kindByte := buffer[6];
      if HEADER_SIZE + length > |buffer| {
        buffer := [];
        if !eof {
          ReportCorruption();
          kind := BAD_RECORD;
        } else {
          // The record was never finished
          kind := EOF;
        }
        return;
      }
      if kindByte == ZERO_TYPE && length == 0 {
        // Space set aside but never written
        buffer := [];
        kind := BAD_RECORD;
        return;
      }
      if !ChecksumMatches(buffer[..4], kindByte, buffer[HEADER_SIZE..HEADER_SIZE + length]) {
        buffer := [];
        ReportCorruption();
        kind := BAD_RECORD;
        return;
      }
      fragment := buffer[HEADER_SIZE..HEADER_SIZE + length];
      if Known(kindByte) {
        PlacedHere(kindByte, length);
      }
      LeftoverAfter(Pos(), HEADER_SIZE + length);
      buffer := buffer[HEADER_SIZE + length..];
      kind := kindByte;
    }

    method ReadPhysicalRecord(ghost intact: bool, ghost whole: Bytes, ghost next: Option<Piece>)
        returns (kind: nat, fragment: Bytes)
      requires Valid() && (intact ==> Expects(whole, next))
      modifies this
      ensures Valid() && lastRecordOffset == old(lastRecordOffset)
      ensures Pos() >= old(Pos()) && (kind != EOF ==> Pos() > old(Pos()))
      ensures intact ==> reports == old(reports)
      ensures intact && Cut(next) ==> kind == EOF
      ensures intact && !Cut(next) ==> kind == next.value.kind && fragment == next.value.payload
                                       && Pos() == next.value.End()
      ensures Known(kind) ==> ReadAt(StartAt(old(Pos())), kind, fragment)
      ensures PhysicalAt(file, old(Pos())) == Physical(kind, fragment, Pos(), reports > old(reports))
      ensures old(reports) <= reports <= old(reports) + 1
    {
      hide Placed, Leftover, StartAt, PhysicalAt;
      ghost var from := Pos();
      StartHasRoom(from);
      while |buffer| < HEADER_SIZE
        invariant Valid() && Pos() >= from && lastRecordOffset == old(lastRecordOffset)
        invariant Pos() == from || Pos() == StartAt(from)
        invariant reports == old(reports) && (intact ==> Expects(whole, next))
        decreases if eof then 0 else if |buffer| < HEADER_SIZE then 2 else 1
      {
        if !eof {
          // The block is whole, so what is left of it is its trailer
          StartHasRoom(Pos());
          ReadBlock();
        } else {
          // Too few bytes for a header, and no more to come: the writer was cut off
          if intact {
            ShortTail(whole, next);
          }
          NothingMore(from);
          buffer := [];
          LeftoverPositive(endOfBufferOffset);
          return EOF, [];
        }
      }
      HeaderFits();
      if intact {
        StartsHere(whole, next);
      }
      SameStart(file, from, Pos());
      kind, fragment := ParseRecord(intact, whole, next);
    }

    /** With too few bytes left for a header the end has come. */
    lemma NothingMore(from: nat)
      requires Valid() && eof && |buffer| < HEADER_SIZE && (Pos() == from || Pos() == StartAt(from))
      requires from <= |file|
      ensures PhysicalAt(file, from) == Physical(EOF, [], |file|, false)
    {
      StartHasRoom(from);
    }

    /** With too little for a header and nothing more to read, the next piece is cut off. */
    lemma ShortTail(whole: Bytes, next: Option<Piece>)
      requires Valid() && eof && |buffer| < HEADER_SIZE && Expects(whole, next)
      ensures Cut(next)
    {
      StartHasRoom(Pos());
    }

    /** With room for a header in the buffer, one may start here. */
    lemma HeaderFits()
      requires Valid() && |buffer| >= HEADER_SIZE
      ensures StartAt(Pos()) == Pos()
    {
      if !eof {
        BlockRest(Pos(), endOfBufferOffset);
      }
    }

    lemma StartsHere(whole: Bytes, next: Option<Piece>)
      requires Valid() && |buffer| >= HEADER_SIZE && Expects(whole, next)
      ensures next.Some? && next.value.start == Pos()
    {
      if !eof {
        BlockRest(Pos(), endOfBufferOffset);
      }
    }

    // ---------------------------------------------------------------- logical records

    /** What an intact log promises before a record: all its pieces, the first of them next, or the
        end of the file. */
    ghost predicate ExpectsRecord(whole: Bytes, ps: seq<Piece>, done: nat, from: nat)
      requires Valid() && done <= |ps|
      reads this
    {
      && file <= whole
      && (ps == [] ==> Pos() == |file|)
      && Chain(whole, ps, from) && Kinded(ps)
      && (ps != [] ==> Pos() == EndBefore(ps, done, from))
    }

    ghost function NextPiece(ps: seq<Piece>, done: nat): Option<Piece> {
      if done < |ps| then Some(ps[done]) else None
    }

    lemma RecordExpectsPiece(whole: Bytes, ps: seq<Piece>, done: nat, from: nat)
      requires Valid() && done <= |ps| && ExpectsRecord(whole, ps, done, from)
      requires done == |ps| ==> ps == []
      ensures Expects(whole, NextPiece(ps, done))
    {
    }

    /** Adds one physical record to what has been assembled. */
    method Assemble(kind: nat, fragment: Bytes, scratch: Bytes, inFragmentedRecord: bool, offset: int)
      returns (progress: Progress, scratch': Bytes, inFragmentedRecord': bool, offset': int)
      modifies this`reports, this`lastRecordOffset
      ensures kind == FULL_TYPE && !(inFragmentedRecord && scratch != []) ==>
                progress == Complete(fragment) && lastRecordOffset == PieceStart(fragment) && reports == old(reports)
      ensures kind == FIRST_TYPE && !(inFragmentedRecord && scratch != []) ==>
                progress == More && scratch' == fragment && inFragmentedRecord' && offset' == PieceStart(fragment)
                  && reports == old(reports)
      ensures kind == MIDDLE_TYPE && inFragmentedRecord ==>
                progress == More && scratch' == scratch + fragment && inFragmentedRecord' && offset' == offset
                  && reports == old(reports)
      ensures kind == LAST_TYPE && inFragmentedRecord ==>
                progress == Complete(scratch + fragment) && lastRecordOffset == offset && reports == old(reports)
      ensures (progress, scratch', inFragmentedRecord') == Assembling(kind, fragment, scratch, inFragmentedRecord)
      ensures reports == old(reports) + if Complains(kind, scratch, inFragmentedRecord) then 1 else 0
      ensures kind == EOF ==> reports == old(reports)
    {
      progress, scratch', inFragmentedRecord', offset' := More, scratch, inFragmentedRecord, offset;
      if kind == FULL_TYPE {
        if inFragmentedRecord && scratch != [] {
          ReportCorruption();
        }
        lastRecordOffset := PieceStart(fragment);
        progress := Complete(fragment);
      } else if kind == FIRST_TYPE {
        if inFragmentedRecord && scratch != [] {
          ReportCorruption();
        }
        scratch', inFragmentedRecord', offset' := fragment, true, PieceStart(fragment);
      } else if kind == MIDDLE_TYPE {
        if !inFragmentedRecord {
          ReportCorruption();
        } else {
          scratch' := scratch + fragment;
        }
      } else if kind == LAST_TYPE {
        if !inFragmentedRecord {
          ReportCorruption();
        } else {
          lastRecordOffset := offset;
          progress := Complete(scratch + fragment);
        }
      } else if kind == EOF {
        // A record cut short by the writer dying is ignored, not reported
        progress := Exhausted;
      } else if kind == BAD_RECORD {
        if inFragmentedRecord {
          ReportCorruption();
          scratch', inFragmentedRecord' := [], false;
        }
      } else {
        ReportCorruption();
        scratch', inFragmentedRecord' := [], false;
      }
    }

    /** Offset of the physical record just read, counting its header. */
    function PieceStart(fragment: Bytes): int
      reads this
    {
      endOfBufferOffset - |buffer| - HEADER_SIZE - |fragment|
    }

    /** In an intact log: how much of the expected record has been put together. */
    ghost predicate OnTrack(whole: Bytes, ps: seq<Piece>, done: nat, from: nat, scratch: Bytes,
        inFragmentedRecord: bool, offset: int)
      requires Valid()
      reads this
    {
      && done <= |ps| && ExpectsRecord(whole, ps, done, from) && (done == |ps| ==> ps == [])
      && inFragmentedRecord == (done > 0) && scratch == Assembled(ps[..done]) && (done > 0 ==> offset == ps[0].start)
    }

    lemma TrackStarts(whole: Bytes, ps: seq<Piece>)
      requires Valid() && ExpectsRecord(whole, ps, 0, Pos())
      ensures OnTrack(whole, ps, 0, Pos(), [], false, 0)
    {
      AssembledStep(ps, 0);
    }

    lemma TrackExpects(whole: Bytes, ps: seq<Piece>, done: nat, from: nat, scratch: Bytes, inFragmentedRecord: bool,
        offset: int)
      requires Valid() && OnTrack(whole, ps, done, from, scratch, inFragmentedRecord, offset)
      ensures Expects(whole, NextPiece(ps, done))
      ensures done <= |ps| && Chain(whole, ps, from) && Kinded(ps) && scratch == Assembled(ps[..done])
      ensures done < |ps| ==>
                ps[done].kind == KindOf(done == 0, done == |ps| - 1) && ps[done].End() <= ps[|ps| - 1].End()
      ensures done == |ps| ==> ps == []
      ensures inFragmentedRecord == (done > 0) && (done == 0 ==> scratch == [])
      ensures done < |ps| && done == |ps| - 1 ==> scratch + ps[done].payload == Assembled(ps)
      ensures done > 0 ==> offset == ps[0].start
    {
      RecordExpectsPiece(whole, ps, done, from);
      EndsAscend(whole, ps, done, from);
      AssembledStep(ps, done);
    }

    /** After another piece of it. */
    lemma TrackNext(whole: Bytes, ps: seq<Piece>, done: nat, from: nat, scratch: Bytes, offset: int)
      requires Valid() && file <= whole && done + 1 < |ps| && Chain(whole, ps, from) && Kinded(ps)
      requires Pos() == ps[done].End() && scratch == Assembled(ps[..done]) + ps[done].payload && offset == ps[0].start
      ensures OnTrack(whole, ps, done + 1, from, scratch, true, offset)
    {
      hide Chain, Kinded;
      AssembledStep(ps, done);
    }

    /** Reassembles the next record from its fragments.  Returns false at the end of the file.  Whatever
        the file holds, a record that is returned lies in it as a writer would have put it there. */
    method ReadRecord(ghost intact: bool, ghost whole: Bytes, ghost ps: seq<Piece>) returns (ok: bool, record: Bytes)
      requires Valid() && (intact ==> ExpectsRecord(whole, ps, 0, Pos()))
      modifies this
      ensures Valid() && Pos() >= old(Pos()) && (ok ==> Pos() > old(Pos()))
      ensures ok ==> WrittenAt(file, record, old(Pos()), Pos())
      ensures intact ==> reports == old(reports)
      ensures intact ==> (ok <==> ps != [] && ps[|ps| - 1].End() <= |file|)
      ensures intact && ok ==> record == Assembled(ps) && Pos() == ps[|ps| - 1].End() && lastRecordOffset == ps[0].start
      ensures ok ==> RestIs(file, old(Pos()), [record], Pos(), old(reports), reports)
      ensures !ok ==> RecordsFrom(file, old(Pos()), [], false) == []
      ensures !ok ==> old(reports) + ReportsFrom(file, old(Pos()), [], false) == reports
    {
      hide Placed, Leftover, StartAt, OnTrack, Gathered, WrittenAt, Chain, Assembled, PhysicalAt, RecordsFrom,
           ReportsFrom, Complains, SoFar, RestIs;
      StartsFresh(file, Pos(), reports);
      ghost var from := Pos();
      var scratch: Bytes := [];
      var inFragmentedRecord := false;
      var offset: int := 0;
      ghost var done, got := 0, [];
      if intact {
        TrackStarts(whole, ps);
      }
      while true
        invariant Valid() && Pos() >= from
        invariant inFragmentedRecord ==> Gathered(file, got, scratch, from, Pos())
        invariant SoFar(file, from, Pos(), scratch, inFragmentedRecord, old(reports), reports)
        invariant intact ==> reports == old(reports)
        invariant intact ==> OnTrack(whole, ps, done, from, scratch, inFragmentedRecord, offset)
        decreases |file| - Pos()
      {
        ghost var before, scratch0, inFragmented0, reports0 := Pos(), scratch, inFragmentedRecord, reports;
        if intact {
          TrackExpects(whole, ps, done, from, scratch, inFragmentedRecord, offset);
        }
        var kind, fragment := ReadPhysicalRecord(intact, whole, NextPiece(ps, done));
        ghost var after := Pos();
        var progress;
        progress, scratch, inFragmentedRecord, offset := Assemble(kind, fragment, scratch, inFragmentedRecord, offset);
        got := GatherNext(file, got, scratch0, inFragmented0, from, before, kind, fragment, StartAt(before), after);
        ReadOn(file, from, before, scratch0, inFragmented0, old(reports), reports0, PhysicalAt(file, before), reports);
        if progress.Complete? {
          return true, progress.record;
        } else if progress.Exhausted? {
          return false, [];
        }
        if intact {
          TrackNext(whole, ps, done, from, scratch, offset);
        }
        done := done + 1;
      }
    }

    lemma EndsAscend(whole: Bytes, ps: seq<Piece>, k: nat, from: nat)
      requires Chain(whole, ps, from) && k <= |ps|
      ensures k < |ps| ==> ps[k].End() <= ps[|ps| - 1].End()
      decreases |ps| - k
    {
      hide Chain;
      if k + 1 < |ps| {
        EndsAscend(whole, ps, k + 1, from);
        NextStarts(whole, ps, k, from);
      }
    }

    lemma NextStarts(whole: Bytes, ps: seq<Piece>, k: nat, from: nat)
      requires Chain(whole, ps, from) && k + 1 < |ps|
      ensures ps[k].End() <= ps[k + 1].start
    {
      hide Placed, Leftover, StartAt;
      ghost var next := k + 1;
      StartHasRoom(ps[k].End());
      assert ps[next].start == StartAt(EndBefore(ps, next, from));
    }

    lemma AssembledStep(ps: seq<Piece>, k: nat)
      requires k <= |ps|
      ensures k < |ps| ==> Assembled(ps[..k + 1]) == Assembled(ps[..k]) + ps[k].payload
      ensures Assembled(ps[..0]) == [] && ps[..|ps|] == ps
    {
      if k < |ps| {
        assert ps[..k + 1][..k] == ps[..k];
      }
    }

    lemma LeftoverPositive(a: nat)
      ensures Leftover(a) > 0
    {
    }

    lemma LeftoverAfter(a: nat, n: nat)
      ensures n <= Leftover(a) ==> Leftover(a + n) >= Leftover(a) - n
    {
    }

    lemma BufferSlice(whole: Bytes, i: nat, j: nat)
      requires Valid() && file <= whole && i <= j <= |buffer|
      ensures buffer[i..j] == whole[Pos() + i..Pos() + j]
    {
      forall k | 0 <= k < |buffer|
        ensures buffer[k] == whole[Pos() + k]
      {
        assert buffer[k] == file[Pos() + k];
      }
    }

    /** Whether the piece is complete shows in the buffer, because pieces keep to one block. */
    lemma CutShows(whole: Bytes, p: Piece)
      requires Valid() && |buffer| >= HEADER_SIZE
      requires Expects(whole, Some(p)) && p.start == Pos()
      ensures p.End() > |file| <==> HEADER_SIZE + |p.payload| > |buffer|
      ensures p.End() > |file| ==> eof
    {
      if !eof {
        BlockRest(Pos(), endOfBufferOffset);
      }
    }

    lemma BlockRest(a: nat, end: nat)
      requires a < end && end - a <= BLOCK_SIZE && end % BLOCK_SIZE == 0
      ensures Leftover(a) == end - a
    {
    }

    /** The bytes at the front of the buffer are those of the next piece, as far as they go. */
    lemma HeaderInBuffer(whole: Bytes, p: Piece)
      requires Valid() && |buffer| >= HEADER_SIZE
      requires Expects(whole, Some(p)) && p.start == Pos()
      ensures buffer[..HEADER_SIZE] == Header(p.kind, p.payload)
    {
      hide Header, Leftover, StartAt;
      BufferSlice(whole, 0, HEADER_SIZE);
      var encoded := whole[p.start..p.End()];
      assert whole[p.start..p.start + HEADER_SIZE] == encoded[..HEADER_SIZE];
    }

    lemma PayloadInBuffer(whole: Bytes, p: Piece)
      requires Valid() && HEADER_SIZE + |p.payload| <= |buffer|
      requires Expects(whole, Some(p)) && p.start == Pos()
      ensures buffer[HEADER_SIZE..HEADER_SIZE + |p.payload|] == p.payload
    {
      hide Header, Leftover, StartAt;
      BufferSlice(whole, HEADER_SIZE, HEADER_SIZE + |p.payload|);
      var encoded := whole[p.start..p.End()];
      assert whole[p.start + HEADER_SIZE..p.End()] == encoded[HEADER_SIZE..];
    }
  }

  function LengthOf(low: Byte, high: Byte): nat {
    var a: int, b: int := low, high;
    a + b * 0x100
  }

  lemma HeaderParts(kind: Byte, payload: Bytes)
    requires |payload| < 0x1_0000
    ensures var h := Header(kind, payload);
            h[..4] == StoredChecksum(kind, payload) && LengthOf(h[4], h[5]) == |payload| && h[6] == kind
  {
  }

  // ------------------------------------------------------------------ whole logs

  lemma {:induction false} AssembledCons(p: Piece, rest: seq<Piece>)
    ensures Assembled([p] + rest) == p.payload + Assembled(rest)
  {
    var ps := [p] + rest;
    if rest == [] {
      assert ps[..|ps| - 1] == [];
    } else {
      AssembledCons(p, rest[..|rest| - 1]);
      assert ps[..|ps| - 1] == [p] + rest[..|rest| - 1];
    }
  }

  lemma {:induction false} PiecesAssemble(data: Bytes, a: nat, begin: bool)
    ensures Assembled(Pieces(data, a, begin)) == data
    decreases |data|, if Available(a) == 0 then 1 else 0
  {
    hide Available, Leftover, StartAt, KindOf;
    var n := FragmentLength(|data|, a);
    var p := FirstPiece(data, a, begin);
    hide FragmentLength;
    if n < |data| {
      PieceProgress(data, a, begin);
      PieceNeedsSpace(data, a);
      PiecesAssemble(data[n..], p.End(), false);
      AssembledCons(p, Pieces(data[n..], p.End(), false));
    } else {
      AssembledCons(p, []);
    }
  }

  lemma PieceNeedsSpace(data: Bytes, a: nat)
    ensures FragmentLength(|data|, a) == 0 && |data| > 0 ==> Available(a) == 0
  {
  }

  lemma {:induction false} PiecesKinds(data: Bytes, a: nat, begin: bool, k: nat)
    requires k < |Pieces(data, a, begin)|
    ensures Pieces(data, a, begin)[k].kind == KindOf(begin && k == 0, k == |Pieces(data, a, begin)| - 1)
    decreases |data|, if Available(a) == 0 then 1 else 0
  {
    hide Available, Leftover, StartAt;
    var n := FragmentLength(|data|, a);
    if n < |data| && k > 0 {
      PieceProgress(data, a, begin);
      PieceNeedsSpace(data, a);
      PiecesKinds(data[n..], FirstPiece(data, a, begin).End(), false, k - 1);
    }
  }

  lemma PiecesKinded(data: Bytes, a: nat)
    ensures Kinded(Pieces(data, a, true))
  {
    forall k | 0 <= k < |Pieces(data, a, true)|
      ensures Pieces(data, a, true)[k].kind == KindOf(k == 0, k == |Pieces(data, a, true)| - 1)
    {
      PiecesKinds(data, a, true, k);
    }
  }

  /** How long the log is after its first i records. */
  ghost function LengthAfter(records: seq<Bytes>, i: nat): nat
    requires i <= |records|
  {
    |LogOf(records[..i])|
  }

  lemma LogOfStep(records: seq<Bytes>, i: nat)
    requires i < |records|
    ensures var front := LogOf(records[..i]);
            LogOf(records[..i + 1]) == front + Framed(records[i], |front|, true)
  {
    assert records[..i + 1][..i] == records[..i];
  }

  lemma {:induction false} LogOfPrefix(records: seq<Bytes>, i: nat)
    requires i <= |records|
    ensures LogOf(records[..i]) <= LogOf(records)
    decreases |records| - i
  {
    if i < |records| {
      LogOfStep(records, i);
      LogOfPrefix(records, i + 1);
    } else {
      assert records[..i] == records;
    }
  }

  lemma ChainInLonger(file: Bytes, longer: Bytes, ps: seq<Piece>, a: nat)
    requires Chain(file, ps, a) && file <= longer
    ensures Chain(longer, ps, a)
  {
    hide StartAt, Placed;
    assert longer == file + longer[|file|..];
    forall k | 0 <= k < |ps|
      ensures Placed(longer, ps[k])
    {
      PlacedInLonger(file, longer[|file|..], ps[k]);
    }
  }

  /** The pieces of the i-th record stand in the log where the first i records end, and end where
      the first i + 1 records end. */
  lemma RecordInLog(records: seq<Bytes>, i: nat)
    requires i < |records|
    ensures var ps := Pieces(records[i], LengthAfter(records, i), true);
            && Chain(LogOf(records), ps, LengthAfter(records, i)) && Kinded(ps)
            && ps[|ps| - 1].End() == LengthAfter(records, i + 1)
            && Assembled(ps) == records[i]
  {
    hide Chain, Kinded, Assembled, Pieces, Framed;
    var front := LogOf(records[..i]);
    LogOfStep(records, i);
    FramedPlacesPieces(front, records[i], true);
    LogOfPrefix(records, i + 1);
    ChainInLonger(LogOf(records[..i + 1]), LogOf(records), Pieces(records[i], |front|, true), |front|);
    PiecesKinded(records[i], |front|);
    PiecesAssemble(records[i], |front|, true);
  }

  /** How many records a file of n bytes contains whole. */
  function Contained(records: seq<Bytes>, n: nat): (k: nat)
    ensures k <= |records|
  {
    if records == [] then 0
    else if |LogOf(records)| <= n then |records|
    else Contained(records[..|records| - 1], n)
  }

  lemma {:induction false} ContainedIs(records: seq<Bytes>, n: nat, i: nat)
    requires i <= |records| && LengthAfter(records, i) <= n
    requires i < |records| ==> n < LengthAfter(records, i + 1)
    ensures Contained(records, n) == i
    decreases |records|
  {
    hide LogOf;
    if i < |records| {
      LogOfPrefix(records, i + 1);
      var front := records[..|records| - 1];
      assert front[..i] == records[..i];
      if i < |front| {
        assert front[..i + 1] == records[..i + 1];
      }
      ContainedIs(front, n, i);
    } else {
      assert records[..i] == records;
    }
  }

  method WriteLog(records: seq<Bytes>) returns (file: Bytes)
    ensures file == LogOf(records)
  {
    var writer := new Writer([]);
    for i := 0 to |records|
      invariant fresh(writer) && writer.Valid() && writer.dest == LogOf(records[..i])
    {
      LogOfStep(records, i);
      writer.AddRecord(records[i]);
    }
    assert records[..|records|] == records;
    file := writer.dest;
  }

  /** Reading whatever prefix of a log survives a crash of the writer gives back exactly the records
      that the prefix contains whole, without a single corruption report. */
  method ReadLog(file: Bytes, ghost written: seq<Bytes>) returns (records: seq<Bytes>, reports: nat)
    requires file <= LogOf(written)
    ensures records == written[..Contained(written, |file|)]
    ensures file == LogOf(written) ==> records == written
    ensures reports == 0
  {
    hide Chain, Kinded, Assembled, Pieces, Framed, StartAt, Leftover, RecordsFrom, PhysicalAt, ReportsFrom;
    var reader := new Reader(file);
    records := [];
    ghost var i := 0;
    while true
      invariant fresh(reader) && reader.file == file && reader.Valid() && reader.reports == 0
      invariant i <= |written| && records == written[..i]
      invariant reader.Pos() == LengthAfter(written, i) <= |file|
      decreases |file| - reader.Pos()
    {
      ghost var ps: seq<Piece> := [];
      if i < |written| {
        ps := Pieces(written[i], LengthAfter(written, i), true);
        RecordInLog(written, i);
      } else {
        assert written[..i] == written;
        EmptyChain(LogOf(written), reader.Pos());
      }
      var ok, record := reader.ReadRecord(true, LogOf(written), ps);
      if !ok {
        break;
      }
      records := records + [record];
      i := i + 1;
    }
    ContainedIs(written, |file|, i);
    reports := reader.reports;
  }

  /** The records lie in the file in this order, before the given place. */
  ghost predicate InOrder(file: Bytes, records: seq<Bytes>, end: nat) {
    records == [] ||
    var last, front := records[|records| - 1], records[..|records| - 1];
    exists from: nat, to: nat :: from <= to <= end && WrittenAt(file, last, from, to) && InOrder(file, front, from)
  }

  /** Reading any bytes at all, a damaged log among them, ends, and gives only records that lie in them
      whole, with their checksums, in their order: nothing is made up, put together from parts of
      different records, or read twice. */
  method ReadAnything(file: Bytes) returns (records: seq<Bytes>, reports: nat)
    ensures InOrder(file, records, |file|)
    ensures records == AllRecords(file) && reports == ReportsFrom(file, 0, [], false)
  {
    hide InOrder, WrittenAt, Chain, Assembled, Kinded, RecordsFrom, ReportsFrom;
    NoneInOrder(file);
    var reader := new Reader(file);
    records := [];
    while true
      invariant fresh(reader) && reader.file == file && reader.Valid()
      invariant InOrder(file, records, reader.Pos())
      invariant records + RecordsFrom(file, reader.Pos(), [], false) == AllRecords(file)
      invariant reader.reports + ReportsFrom(file, reader.Pos(), [], false) == ReportsFrom(file, 0, [], false)
      decreases |file| - reader.Pos()
    {
      ghost var before := reader.Pos();
      var ok, record := reader.ReadRecord(false, [], []);
      if !ok {
        OrderWithin(file, records, before, |file|);
        return records, reader.reports;
      }
      OneMoreInOrder(file, records, record, before, reader.Pos());
      records := records + [record];
    }
  }

  lemma NoneInOrder(file: Bytes)
    ensures InOrder(file, [], 0)
  {
  }

  lemma OneMoreInOrder(file: Bytes, records: seq<Bytes>, record: Bytes, from: nat, to: nat)
    requires InOrder(file, records, from) && from <= to && WrittenAt(file, record, from, to)
    ensures InOrder(file, records + [record], to)
  {
    hide WrittenAt;
    var longer := records + [record];
    assert longer[..|records|] == records && longer[|longer| - 1] == record;
    assert WrittenAt(file, longer[|longer| - 1], from, to) && InOrder(file, longer[..|longer| - 1], from);
  }

  lemma OrderWithin(file: Bytes, records: seq<Bytes>, end: nat, later: nat)
    requires InOrder(file, records, end) && end <= later
    ensures InOrder(file, records, later)
  {
  }

  lemma EmptyChain(file: Bytes, a: nat)
    ensures Chain(file, [], a) && Kinded([])
  {
  }
}
