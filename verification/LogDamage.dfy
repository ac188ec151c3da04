/** Reading a damaged log: damage keeps to the blocks it is in. */
module LogDamage {
  import opened LogFormat
  import opened LogReader

  /** A piece in place is read for what it is. */
  lemma PieceRead(file: Bytes, p: Piece, a: nat)
    requires Placed(file, p) && a <= p.start == StartAt(a) && Known(p.kind)
    ensures PhysicalAt(file, a) == Physical(p.kind, p.payload, p.End(), false)
  {
    hide ChecksumMatches, StoredChecksum, Leftover, StartAt;
    var s, n := p.start, |p.payload|;
    assert Leftover(s) >= HEADER_SIZE + n;
    var encoded := file[s..p.End()];
    HeaderParts(p.kind, p.payload);
    ChecksumRoundTrip(p.kind, p.payload);
    assert encoded[..HEADER_SIZE] == Header(p.kind, p.payload) && encoded[HEADER_SIZE..] == p.payload;
    assert file[s..s + HEADER_SIZE] == encoded[..HEADER_SIZE];
    assert file[s + HEADER_SIZE..s + HEADER_SIZE + n] == encoded[HEADER_SIZE..];
    var h := file[s..s + HEADER_SIZE];
    assert h[4] == file[s + 4] && h[5] == file[s + 5] && h[6] == file[s + 6] && h[..4] == file[s..s + 4];
  }

  /** The pieces from the n-th on are in place. */
  ghost predicate ChainFrom(file: Bytes, ps: seq<Piece>, from: nat, n: nat) {
    forall k :: n <= k < |ps| ==> Placed(file, ps[k]) && ps[k].start == StartAt(EndBefore(ps, k, from))
  }

  lemma LinkAt(file: Bytes, ps: seq<Piece>, from: nat, n: nat, k: nat)
    requires ChainFrom(file, ps, from, n) && n <= k < |ps|
    ensures Placed(file, ps[k]) && ps[k].start == StartAt(EndBefore(ps, k, from))
    ensures EndBefore(ps, k, from) <= ps[k].start && ps[k].End() <= |file|
  {
    StartHasRoom(EndBefore(ps, k, from));
    hide StartAt, Leftover, Encoded;
  }

  lemma ShorterChain(file: Bytes, ps: seq<Piece>, from: nat, n: nat)
    requires ChainFrom(file, ps, from, n)
    ensures ChainFrom(file, ps, from, n + 1)
  {
    hide Placed, StartAt;
  }

  lemma KindAt(ps: seq<Piece>, k: nat)
    requires Kinded(ps) && k < |ps|
    ensures ps[k].kind == KindOf(k == 0, k == |ps| - 1)
  {
  }

  /** Pieces that continue a record are read through; if they end it and its beginning was not lost, it is
      returned. */
  lemma {:induction false} PiecesRead(file: Bytes, ps: seq<Piece>, k: nat, from: nat, scratch: Bytes,
      inFragmentedRecord: bool)
    requires ChainFrom(file, ps, from, k) && Kinded(ps) && 0 < k < |ps| && EndBefore(ps, k, from) <= |file|
    ensures ps[|ps| - 1].End() <= |file|
    ensures RecordsFrom(file, EndBefore(ps, k, from), scratch, inFragmentedRecord)
         == if inFragmentedRecord
            then [scratch + Assembled(ps[k..])] + RecordsFrom(file, ps[|ps| - 1].End(), [], false)
            else RecordsFrom(file, ps[|ps| - 1].End(), scratch, false)
    decreases |ps| - k
  {
    hide Placed, StartAt, Leftover, ChainFrom, Kinded, PhysicalAt, RecordsFrom, Assembled;
    var a, p := EndBefore(ps, k, from), ps[k];
    LinkAt(file, ps, from, k, k);
    ShorterChain(file, ps, from, k);
    KindAt(ps, k);
    PieceRead(file, p, a);
    NoneAssembled();
    OneMoreRead(file, a, scratch, inFragmentedRecord);
    if k < |ps| - 1 {
      PiecesRead(file, ps, k + 1, from, scratch + p.payload, true);
      PiecesRead(file, ps, k + 1, from, scratch, false);
    } else {
      assert ps[k + 1..] == [] && scratch + p.payload + [] == scratch + p.payload;
    }
    AssembledOn(ps, k, scratch);
  }

  lemma AssembledOn(ps: seq<Piece>, k: nat, scratch: Bytes)
    requires k < |ps|
    ensures scratch + Assembled(ps[k..]) == scratch + ps[k].payload + Assembled(ps[k + 1..])
  {
    hide Assembled;
    assert ps[k..] == [ps[k]] + ps[k + 1..];
    AssembledCons(ps[k], ps[k + 1..]);
  }

  /** A whole record in place is read, whatever has been put together before it. */
  lemma WholeRecordRead(file: Bytes, ps: seq<Piece>, from: nat, scratch: Bytes, inFragmentedRecord: bool)
    requires ChainFrom(file, ps, from, 0) && Kinded(ps) && ps != [] && from <= |file|
    ensures ps[|ps| - 1].End() <= |file|
    ensures RecordsFrom(file, from, scratch, inFragmentedRecord)
            == [Assembled(ps)] + RecordsFrom(file, ps[|ps| - 1].End(), [], false)
  {
    hide Placed, StartAt, Leftover, ChainFrom, Kinded, PhysicalAt, RecordsFrom, Assembled;
    var p := ps[0];
    LinkAt(file, ps, from, 0, 0);
    ShorterChain(file, ps, from, 0);
    KindAt(ps, 0);
    PieceRead(file, p, from);
    OneMoreRead(file, from, scratch, inFragmentedRecord);
    assert ps == [p] + ps[1..];
    AssembledCons(p, ps[1..]);
    if |ps| > 1 {
      PiecesRead(file, ps, 1, from, p.payload, true);
    } else {
      NoneAssembled();
      assert ps[1..] == [] && p.payload + [] == p.payload;
    }
  }

  lemma NoneAssembled()
    ensures Assembled([]) == []
  {
  }

  /** Two files that agree from some offset on hold the same pieces there. */
  lemma PlacedBeyond(file: Bytes, other: Bytes, p: Piece, b: nat)
    requires Placed(other, p) && b <= p.start && |file| == |other| && b <= |file| && file[b..] == other[b..]
    ensures Placed(file, p)
  {
    hide Leftover, Encoded;
    SliceBeyond(file, other, b, p.start, p.End());
  }

  lemma SliceBeyond(file: Bytes, other: Bytes, b: nat, i: nat, j: nat)
    requires |file| == |other| && b <= i <= j <= |file| && file[b..] == other[b..]
    ensures file[i..j] == other[i..j]
  {
    forall k | i <= k < j
      ensures file[k] == other[k]
    {
      assert file[k] == file[b..][k - b] && other[k] == other[b..][k - b];
    }
  }

  /** The undamaged end of a log is read whole: every record that starts beyond the damage. */
  lemma {:induction false} RestIsRead(file: Bytes, written: seq<Bytes>, i: nat, b: nat, scratch: Bytes,
      inFragmentedRecord: bool)
    requires |file| == |LogOf(written)| && b <= |file| && file[b..] == LogOf(written)[b..]
    requires i <= |written| && b <= LengthAfter(written, i) <= |file|
    ensures RecordsFrom(file, LengthAfter(written, i), scratch, inFragmentedRecord) == written[i..]
    decreases |written| - i
  {
    hide Chain, Kinded, Assembled, Pieces, Framed, StartAt, Leftover, Placed, PhysicalAt, LogOf;
    var a := LengthAfter(written, i);
    if i == |written| {
      assert written[..i] == written;
      NothingLeft(file, scratch, inFragmentedRecord);
    } else {
      var ps := Pieces(written[i], a, true);
      RecordInLog(written, i);
      ChainBeyond(file, LogOf(written), ps, a, b);
      WholeChain(file, ps, a);
      WholeRecordRead(file, ps, a, scratch, inFragmentedRecord);
      StartsBeyond(LogOf(written), ps, a, |ps| - 1);
      RestIsRead(file, written, i + 1, b, [], false);
      assert written[i..] == [written[i]] + written[i + 1..];
    }
  }

  lemma NothingLeft(file: Bytes, scratch: Bytes, inFragmentedRecord: bool)
    ensures RecordsFrom(file, |file|, scratch, inFragmentedRecord) == []
  {
    StartHasRoom(|file|);
  }

  lemma {:induction false} ChainBeyond(file: Bytes, other: Bytes, ps: seq<Piece>, a: nat, b: nat)
    requires Chain(other, ps, a) && b <= a <= |file| == |other| && file[b..] == other[b..]
    ensures Chain(file, ps, a)
  {
    forall k | 0 <= k < |ps|
      ensures Placed(file, ps[k])
    {
      StartsBeyond(other, ps, a, k);
      PlacedBeyond(file, other, ps[k], b);
    }
    hide Placed, StartAt;
  }

  lemma {:induction false} StartsBeyond(file: Bytes, ps: seq<Piece>, a: nat, k: nat)
    requires Chain(file, ps, a) && k < |ps|
    ensures a <= EndBefore(ps, k, a) <= ps[k].start
    decreases k
  {
    hide Placed, StartAt, Chain;
    WholeChain(file, ps, a);
    LinkAt(file, ps, a, 0, k);
    if k > 0 {
      StartsBeyond(file, ps, a, k - 1);
    }
  }

  /** Reading physical records from one offset on ends before the other: one of them has the type that the
      reader takes for the end of the file. */
  ghost predicate StopsBefore(file: Bytes, a: nat, b: nat)
    requires a <= |file|
    decreases |file| - a
  {
    StartAt(a) < b && (PhysicalAt(file, a).kind == EOF || StopsBefore(file, PhysicalAt(file, a).end, b))
  }

  /** A physical record keeps to its block, whatever it holds. */
  lemma StaysInBlock(file: Bytes, a: nat, b: nat)
    requires a <= b <= |file| && b % BLOCK_SIZE == 0 && StartAt(a) < b
    ensures PhysicalAt(file, a).end <= b
  {
    hide ChecksumMatches;
    var s := StartAt(a);
    StartHasRoom(a);
    BlockWithin(s, b);
  }

  lemma BlockWithin(s: nat, b: nat)
    requires s < b && b % BLOCK_SIZE == 0
    ensures s + Leftover(s) <= b
  {
  }

  lemma StartWithin(a: nat, b: nat)
    requires a <= b && b % BLOCK_SIZE == 0
    ensures StartAt(a) <= b
  {
    if a < b {
      BlockWithin(a, b);
    }
  }

  /** Whatever the blocks before offset b hold, unless reading ends in them it goes on from there. */
  lemma {:induction false} ReachesBoundary(file: Bytes, a: nat, b: nat, scratch: Bytes, inFragmentedRecord: bool)
      returns (before: seq<Bytes>, scratch': Bytes, inFragmentedRecord': bool)
    requires a <= b <= |file| && b % BLOCK_SIZE == 0 && !StopsBefore(file, a, b)
    ensures RecordsFrom(file, a, scratch, inFragmentedRecord)
            == before + RecordsFrom(file, b, scratch', inFragmentedRecord')
    decreases |file| - a
  {
    hide PhysicalAt, StartAt, RecordsFrom;
    StartWithin(a, b);
    OneMoreRead(file, a, scratch, inFragmentedRecord);
    if StartAt(a) == b {
      SameStart(file, a, b);
      OneMoreRead(file, b, scratch, inFragmentedRecord);
      before, scratch', inFragmentedRecord' := [], scratch, inFragmentedRecord;
    } else {
      StaysInBlock(file, a, b);
      var p := PhysicalAt(file, a);
      var (progress, s, f) := Assembling(p.kind, p.fragment, scratch, inFragmentedRecord);
      if progress.Complete? {
        before, scratch', inFragmentedRecord' := ReachesBoundary(file, p.end, b, [], false);
        before := [progress.record] + before;
      } else {
        before, scratch', inFragmentedRecord' := ReachesBoundary(file, p.end, b, s, f);
      }
    }
  }

  /** Where the log goes on in a block: with a record, or in the middle of one. */
  lemma PieceAtBoundary(file: Bytes, ps: seq<Piece>, from: nat, b: nat) returns (k: nat)
    requires ChainFrom(file, ps, from, 0) && ps != [] && from < b < ps[|ps| - 1].End() && b % BLOCK_SIZE == 0
    ensures k < |ps| && StartAt(EndBefore(ps, k, from)) == b && EndBefore(ps, k, from) <= b
  {
    hide ChainFrom, Placed, StartAt, Leftover;
    k := |ps|;
    while k > 0 && ps[k - 1].start >= b
      invariant 0 <= k <= |ps|
      invariant k < |ps| ==> ps[k].start >= b
    {
      k := k - 1;
    }
    if k > 0 {
      LinkAt(file, ps, from, 0, k - 1);
      PieceWithin(file, ps[k - 1], b);
    }
    LinkAt(file, ps, from, 0, k);
    StartWithin(EndBefore(ps, k, from), b);
  }

  lemma PieceWithin(file: Bytes, p: Piece, b: nat)
    requires Placed(file, p) && p.start < b && b % BLOCK_SIZE == 0
    ensures p.End() <= b
  {
    BlockWithin(p.start, b);
  }

  lemma SameRecords(file: Bytes, a: nat, b: nat, scratch: Bytes, inFragmentedRecord: bool)
    requires a <= |file| && b <= |file| && b == StartAt(a)
    ensures RecordsFrom(file, a, scratch, inFragmentedRecord) == RecordsFrom(file, b, scratch, inFragmentedRecord)
  {
    hide PhysicalAt, RecordsFrom, StartAt;
    SameStart(file, a, b);
    OneMoreRead(file, a, scratch, inFragmentedRecord);
    OneMoreRead(file, b, scratch, inFragmentedRecord);
  }

  /** From the boundary on: perhaps the end of a record whose beginning was damaged, and then every record
      that starts there or later. */
  lemma ReadFromBoundary(file: Bytes, written: seq<Bytes>, j: nat, b: nat, scratch: Bytes, inFragmentedRecord: bool)
      returns (before: seq<Bytes>)
    requires |file| == |LogOf(written)| && b <= |file| && file[b..] == LogOf(written)[b..] && b % BLOCK_SIZE == 0
    requires j <= |written| && b <= LengthAfter(written, j) <= |file|
    requires j > 0 ==> LengthAfter(written, j - 1) < b
    ensures RecordsFrom(file, b, scratch, inFragmentedRecord) == before + written[j..]
  {
    hide Chain, Kinded, Assembled, Pieces, Framed, StartAt, Leftover, Placed, PhysicalAt, LogOf, RecordsFrom;
    before := [];
    if LengthAfter(written, j) == b {
      RestIsRead(file, written, j, b, scratch, inFragmentedRecord);
    } else {
      NoRecordsYet(written);
      var from := LengthAfter(written, j - 1);
      var ps := Pieces(written[j - 1], from, true);
      RecordInLog(written, j - 1);
      WholeChain(LogOf(written), ps, from);
      var k := PieceAtBoundary(LogOf(written), ps, from, b);
      ChainPast(file, LogOf(written), ps, from, k, b);
      SameRecords(file, EndBefore(ps, k, from), b, scratch, inFragmentedRecord);
      if k == 0 {
        WholeRecordRead(file, ps, from, scratch, inFragmentedRecord);
        RestIsRead(file, written, j, b, [], false);
        before := [Assembled(ps)];
      } else {
        PiecesRead(file, ps, k, from, scratch, inFragmentedRecord);
        RestIsRead(file, written, j, b, [], false);
        RestIsRead(file, written, j, b, scratch, false);
        before := if inFragmentedRecord then [scratch + Assembled(ps[k..])] else [];
      }
    }
  }

  lemma NoRecordsYet(written: seq<Bytes>)
    ensures LengthAfter(written, 0) == 0
  {
  }

  lemma WholeChain(file: Bytes, ps: seq<Piece>, from: nat)
    requires Chain(file, ps, from)
    ensures ChainFrom(file, ps, from, 0)
  {
    hide Placed, StartAt;
  }

  lemma ChainPast(file: Bytes, other: Bytes, ps: seq<Piece>, from: nat, k: nat, b: nat)
    requires ChainFrom(other, ps, from, 0) && k < |ps| && StartAt(EndBefore(ps, k, from)) == b
    requires |file| == |other| && b <= |file| && file[b..] == other[b..]
    ensures ChainFrom(file, ps, from, k)
  {
    hide Placed, StartAt, Leftover;
    forall m | k <= m < |ps|
      ensures Placed(file, ps[m])
    {
      StartsPast(other, ps, from, k, m);
      PlacedBeyond(file, other, ps[m], b);
    }
  }

  lemma {:induction false} StartsPast(file: Bytes, ps: seq<Piece>, from: nat, k: nat, m: nat)
    requires ChainFrom(file, ps, from, 0) && k <= m < |ps|
    ensures Placed(file, ps[m]) && StartAt(EndBefore(ps, k, from)) <= ps[m].start
    decreases m
  {
    hide Placed, StartAt, ChainFrom;
    LinkAt(file, ps, from, 0, m);
    if k < m {
      StartsPast(file, ps, from, k, m - 1);
    }
  }

  /** Damage keeps to the blocks it is in: a log that is intact from a block boundary on reads back every
      record that starts at or after it, whatever is found before, unless a physical record there has the
      type that the reader takes for the end of the file. */
  lemma DamageKeepsToItsBlocks(file: Bytes, written: seq<Bytes>, i: nat, b: nat) returns (before: seq<Bytes>)
    requires |file| == |LogOf(written)| && b <= |file| && file[b..] == LogOf(written)[b..] && b % BLOCK_SIZE == 0
    requires i <= |written| && b <= LengthAfter(written, i) && !StopsBefore(file, 0, b)
    ensures AllRecords(file) == before + written[i..]
  {
    hide StopsBefore, RecordsFrom, LogOf;
    var scratch, inFragmentedRecord;
    before, scratch, inFragmentedRecord := ReachesBoundary(file, 0, b, [], false);
    var j := i;
    while j > 0 && LengthAfter(written, j - 1) >= b
      invariant 0 <= j <= i && b <= LengthAfter(written, j)
    {
      j := j - 1;
    }
    LogOfPrefix(written, j);
    var more := ReadFromBoundary(file, written, j, b, scratch, inFragmentedRecord);
    assert written[j..] == written[j..i] + written[i..];
    before := before + more + written[j..i];
  }

  lemma SamePhysical(file: Bytes, other: Bytes, a: nat, b: nat)
    requires a <= b <= |file| && b <= |other| && file[..b] == other[..b] && b % BLOCK_SIZE == 0 && StartAt(a) < b
    ensures PhysicalAt(file, a) == PhysicalAt(other, a)
  {
    hide ChecksumMatches;
    var s := StartAt(a);
    StartHasRoom(a);
    BlockWithin(s, b);
    hide Leftover, StartAt;
    assert forall k :: 0 <= k < b ==> file[k] == file[..b][k] == other[k];
    var length := LengthOf(file[s + 4], file[s + 5]);
    assert file[s..s + 4] == other[s..s + 4];
    if s + HEADER_SIZE + length <= BlockEnd(file, s) {
      assert file[s + HEADER_SIZE..s + HEADER_SIZE + length] == other[s + HEADER_SIZE..s + HEADER_SIZE + length];
    }
  }

  lemma {:induction false} SameUntilStop(file: Bytes, other: Bytes, a: nat, b: nat, scratch: Bytes,
      inFragmentedRecord: bool)
    requires a <= b <= |file| && b <= |other| && file[..b] == other[..b] && b % BLOCK_SIZE == 0
    requires StopsBefore(file, a, b)
    ensures RecordsFrom(file, a, scratch, inFragmentedRecord) == RecordsFrom(other, a, scratch, inFragmentedRecord)
    decreases |file| - a
  {
    hide PhysicalAt, StartAt, RecordsFrom;
    SamePhysical(file, other, a, b);
    OneMoreRead(file, a, scratch, inFragmentedRecord);
    OneMoreRead(other, a, scratch, inFragmentedRecord);
    StaysInBlock(file, a, b);
    var p := PhysicalAt(file, a);
    var (progress, s, f) := Assembling(p.kind, p.fragment, scratch, inFragmentedRecord);
    if progress.Complete? {
      SameUntilStop(file, other, p.end, b, [], false);
    } else if progress.More? {
      SameUntilStop(file, other, p.end, b, s, f);
    }
  }

  /** Where there is such a record, nothing after the damage matters: any other file that begins in the same
      way reads the same. */
  lemma ReadingStops(file: Bytes, other: Bytes, b: nat)
    requires b <= |file| && b <= |other| && file[..b] == other[..b] && b % BLOCK_SIZE == 0
    requires StopsBefore(file, 0, b)
    ensures AllRecords(file) == AllRecords(other)
  {
    hide StopsBefore, RecordsFrom;
    SameUntilStop(file, other, 0, b, [], false);
  }

  /** And a log that is intact up to some offset reads back every record that ends there or before. */
  lemma {:induction false} RecordsBeforeDamage(file: Bytes, written: seq<Bytes>, i: nat, d: nat)
      returns (after: seq<Bytes>)
    requires d <= |file| && d <= |LogOf(written)| && file[..d] == LogOf(written)[..d]
    requires i <= |written| && LengthAfter(written, i) <= d
    ensures AllRecords(file) == written[..i] + after
    ensures after == RecordsFrom(file, LengthAfter(written, i), [], false)
  {
    hide Chain, Kinded, Assembled, Pieces, Framed, StartAt, Leftover, Placed, PhysicalAt, LogOf, RecordsFrom;
    if i == 0 {
      NoRecordsYet(written);
      after := AllRecords(file);
    } else {
      LogOfPrefix(written, i);
      var from := LengthAfter(written, i - 1);
      var ps := Pieces(written[i - 1], from, true);
      RecordInLog(written, i - 1);
      StartsBeyond(LogOf(written), ps, from, |ps| - 1);
      after := RecordsBeforeDamage(file, written, i - 1, d);
      ChainBefore(file, LogOf(written), ps, from, d);
      WholeChain(file, ps, from);
      WholeRecordRead(file, ps, from, [], false);
      assert written[..i] == written[..i - 1] + [written[i - 1]];
      after := RecordsFrom(file, LengthAfter(written, i), [], false);
    }
  }

  lemma ChainBefore(file: Bytes, other: Bytes, ps: seq<Piece>, from: nat, d: nat)
    requires Chain(other, ps, from) && ps != [] && ps[|ps| - 1].End() <= d
    requires d <= |file| && d <= |other| && file[..d] == other[..d]
    ensures Chain(file, ps, from)
  {
    hide StartAt, Placed;
    forall k | 0 <= k < |ps|
      ensures Placed(file, ps[k])
    {
      WholeChain(other, ps, from);
      EndsBefore(other, ps, from, k);
      PlacedBefore(file, other, ps[k], d);
    }
  }

  lemma {:induction false} EndsBefore(file: Bytes, ps: seq<Piece>, from: nat, k: nat)
    requires ChainFrom(file, ps, from, 0) && k < |ps|
    ensures Placed(file, ps[k]) && ps[k].End() <= ps[|ps| - 1].End()
    decreases |ps| - k
  {
    hide Placed, StartAt, ChainFrom;
    LinkAt(file, ps, from, 0, k);
    if k + 1 < |ps| {
      LinkAt(file, ps, from, 0, k + 1);
      EndsBefore(file, ps, from, k + 1);
    }
  }

  lemma PlacedBefore(file: Bytes, other: Bytes, p: Piece, d: nat)
    requires Placed(other, p) && p.End() <= d <= |file| && d <= |other| && file[..d] == other[..d]
    ensures Placed(file, p)
  {
    hide Leftover, Encoded;
    assert file[p.start..p.End()] == file[..d][p.start..p.End()];
    assert other[p.start..p.End()] == other[..d][p.start..p.End()];
  }

  /** The type just above those in use is what the reader calls the end of the file: a record of that type
      ends reading, whatever follows. */
  lemma TypeFiveEndsReading(payload: Bytes, rest: Bytes)
    requires |payload| <= BLOCK_SIZE - HEADER_SIZE
    ensures AllRecords(Encoded(5, payload) + rest) == []
  {
    hide Header, ChecksumMatches, StoredChecksum, Assembled;
    var file, n := Encoded(5, payload) + rest, |payload|;
    HeaderParts(5, payload);
    ChecksumRoundTrip(5, payload);
    var h := Header(5, payload);
    assert file[..HEADER_SIZE] == h && file[HEADER_SIZE..HEADER_SIZE + n] == payload;
    assert file[4] == h[4] && file[5] == h[5] && file[6] == h[6] && file[..4] == h[..4];
    assert file[0..4] == file[..4];
  }
}
