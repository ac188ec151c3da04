/** Writing a table file and looking keys up in its bytes, through index, filter and block. */
module Tables {
  import opened Options
  import opened Coding
  import opened Bytewise
  import opened BlockFormat
  import opened BlockBuilding
  import opened BlockIters
  import opened Cursors
  import opened TableFormat
  import opened TableShapes
  import opened Bloom
  import opened FilterBlocks

  // ------------------------------------------------------------------ rows and index entries as pairs

  ghost predicate RowsFit(rows: seq<Row>) {
    forall r :: r in rows ==> r.key.packed < TWO_64
  }

  ghost function PairsOf(rows: seq<Row>): (es: seq<Pair>)
    requires RowsFit(rows)
    ensures |es| == |rows| && forall i :: 0 <= i < |rows| ==> es[i] == Pair(KeyBytes(rows[i].key), rows[i].value)
  {
    seq(|rows|, i requires 0 <= i < |rows| => Pair(KeyBytes(rows[i].key), rows[i].value))
  }

  ghost predicate IndexFits(index: seq<IndexEntry>) {
    forall e :: e in index ==> e.key.packed < TWO_64 && HandleFits(e.handle)
  }

  ghost function IndexPairs(index: seq<IndexEntry>): (es: seq<Pair>)
    requires IndexFits(index)
    ensures |es| == |index|
    ensures forall i :: 0 <= i < |index| ==> es[i] == Pair(KeyBytes(index[i].key), HandleBytes(index[i].handle))
  {
    seq(|index|, i requires 0 <= i < |index| => Pair(KeyBytes(index[i].key), HandleBytes(index[i].handle)))
  }

  lemma PairsAscend(rows: seq<Row>)
    requires RowsFit(rows) && RowsAscend(rows)
    ensures Ascending(INTERNAL_LESS, PairsOf(rows))
  {
    hide KeyBytes, StoredLess;
    forall i, j | 0 <= i < j < |rows|
      ensures INTERNAL_LESS(KeyBytes(rows[i].key), KeyBytes(rows[j].key))
    {
      InternalOrder(rows[i].key, rows[j].key);
    }
  }

  /** Where the first row at or after a key stands. */
  lemma RowPlace(rows: seq<Row>, k: StoredKey)
    requires RowsFit(rows) && k.packed < TWO_64
    ensures var p := Place(PairsOf(rows), KeyBefore(INTERNAL_LESS), KeyBytes(k));
            && p <= |rows| && (forall i :: 0 <= i < p ==> StoredLess(rows[i].key, k))
            && (p < |rows| ==> !StoredLess(rows[p].key, k))
  {
    hide KeyBytes, StoredLess;
    PlaceSplits(PairsOf(rows), KeyBefore(INTERNAL_LESS), KeyBytes(k));
    forall i | 0 <= i < |rows|
      ensures INTERNAL_LESS(KeyBytes(rows[i].key), KeyBytes(k)) <==> StoredLess(rows[i].key, k)
    {
      InternalOrder(rows[i].key, k);
    }
  }

  lemma IndexPlace(index: seq<IndexEntry>, k: StoredKey)
    requires IndexFits(index) && k.packed < TWO_64
    ensures var p := Place(IndexPairs(index), KeyBefore(INTERNAL_LESS), KeyBytes(k));
            && p <= |index| && (forall i :: 0 <= i < p ==> StoredLess(index[i].key, k))
            && (p < |index| ==> !StoredLess(index[p].key, k))
  {
    hide KeyBytes, StoredLess, HandleBytes, HandleFits;
    PlaceSplits(IndexPairs(index), KeyBefore(INTERNAL_LESS), KeyBytes(k));
    forall i | 0 <= i < |index|
      ensures INTERNAL_LESS(KeyBytes(index[i].key), KeyBytes(k)) <==> StoredLess(index[i].key, k)
    {
      InternalOrder(index[i].key, k);
    }
  }

  /** An index key is before the index keys of later blocks. */
  lemma IndexBefore(blocks: seq<seq<Row>>, index: seq<IndexEntry>, handles: seq<Handle>, b: nat, sep: StoredKey, c: nat)
    requires Indexed(blocks, index, handles) && b < |index| && b < c < |blocks| && !StoredLess(sep, LastKey(blocks[c]))
    ensures StoredLess(index[b].key, sep)
  {
    assert Closes(index[b].key, blocks[b], blocks[c]);
    LastRow(blocks[c]);
    StoredOrder(index[b].key, LastKey(blocks[c]), sep);
    StoredOrder(LastKey(blocks[c]), sep, sep);
  }

  lemma IndexAscends(blocks: seq<seq<Row>>, index: seq<IndexEntry>, handles: seq<Handle>)
    requires Indexed(blocks, index, handles) && IndexFits(index)
    ensures Ascending(INTERNAL_LESS, IndexPairs(index))
  {
    hide KeyBytes, StoredLess, HandleBytes, HandleFits, BytesLess;
    forall i, j | 0 <= i < j < |index|
      ensures INTERNAL_LESS(KeyBytes(index[i].key), KeyBytes(index[j].key))
    {
      assert Closes(index[j].key, blocks[j], []);
      IndexBefore(blocks, index, handles, i, index[j].key, j);
      InternalOrder(index[i].key, index[j].key);
    }
  }

  // ------------------------------------------------------------------ what a file holds

  /** A block with these entries lies in the file. */
  ghost predicate EntriesAt(file: Bytes, h: Handle, entries: seq<Pair>) {
    HandleFits(h) && exists contents :: BlockAt(file, h, contents) && IsBlock(contents, entries)
  }

  ghost predicate RowsAt(file: Bytes, h: Handle, rows: seq<Row>) {
    RowsFit(rows) && EntriesAt(file, h, PairsOf(rows))
  }

  ghost predicate FileHolds(file: Bytes, blocks: seq<seq<Row>>, handles: seq<Handle>) {
    |handles| == |blocks| && forall b :: 0 <= b < |blocks| ==> RowsAt(file, handles[b], blocks[b])
  }

  lemma EntriesStay(file: Bytes, more: Bytes, h: Handle, entries: seq<Pair>)
    requires EntriesAt(file, h, entries)
    ensures EntriesAt(file + more, h, entries)
  {
    hide BlockAt, IsBlock;
    var contents :| BlockAt(file, h, contents) && IsBlock(contents, entries);
    BlockStays(file, more, h, contents);
  }

  lemma FileGrows(file: Bytes, more: Bytes, blocks: seq<seq<Row>>, handles: seq<Handle>)
    requires FileHolds(file, blocks, handles)
    ensures FileHolds(file + more, blocks, handles)
  {
    hide EntriesAt;
    forall b | 0 <= b < |blocks|
      ensures RowsAt(file + more, handles[b], blocks[b])
    {
      assert RowsAt(file, handles[b], blocks[b]);
      EntriesStay(file, more, handles[b], PairsOf(blocks[b]));
    }
  }

  lemma EntriesWritten(file: Bytes, block: Bytes, entries: seq<Pair>)
    requires IsBlock(block, entries) && |file| < TWO_64 && |block| < TWO_64
    ensures EntriesAt(file + block + Trailer(block), Handle(|file|, |block|), entries)
  {
    hide BlockAt, IsBlock, Trailer;
    BlockAppended(file, block);
  }

  ghost predicate FilterMade(policy: BloomFilterPolicy, contents: Bytes, result: Bytes, starts: seq<nat>,
      lists: seq<seq<Bytes>>) {
    && FiltersHold(policy, result, starts, lists)
    && contents == result + Words(WordsOf(starts)) + Fixed32(|result| % TWO_32) + [BASE_LG]
  }

  /** What a finished table was made of. */
  datatype Plan = Plan(blocks: seq<seq<Row>>, handles: seq<Handle>, index: seq<IndexEntry>,
                       lists: seq<seq<Bytes>>, filter: Bytes, result: Bytes, starts: seq<nat>)

  ghost predicate PlanHolds(file: Bytes, p: Plan) {
    && Indexed(p.blocks, p.index, p.handles) && |p.index| == |p.blocks| && IndexFits(p.index)
    && FileHolds(file, p.blocks, p.handles)
  }

  ghost predicate PlanFilters(policy: BloomFilterPolicy, p: Plan) {
    FilterCovers(p.lists, p.blocks, p.handles) && FilterMade(policy, p.filter, p.result, p.starts, p.lists)
  }

  /** The metaindex names the filter block, if there is one. */
  ghost function MetaEntries(policy: BloomFilterPolicy?, name: Bytes, filter: Handle): seq<Pair> {
    if policy == null then [] else [Pair(name, HandleBytes(filter))]
  }

  ghost predicate IsTable(file: Bytes, policy: BloomFilterPolicy?, name: Bytes, p: Plan) {
    exists metaindex, index, filter :: TableParts(file, policy, name, p, metaindex, index, filter)
  }

  ghost predicate TableParts(file: Bytes, policy: BloomFilterPolicy?, name: Bytes, p: Plan, metaindex: Handle,
      index: Handle, filter: Handle) {
    && |file| >= FOOTER_SIZE && DecodeFooter(file[|file| - FOOTER_SIZE..]) == Some(Footer(metaindex, index))
    && PlanHolds(file, p) && EntriesAt(file, index, IndexPairs(p.index))
    && EntriesAt(file, metaindex, MetaEntries(policy, name, filter))
    && (policy != null ==> PlanFilters(policy, p) && HandleFits(filter) && BlockAt(file, filter, p.filter))
  }

  // ------------------------------------------------------------------ what reading a file gives

  /** Reading the block is refused, or gives these entries: damage that the checksum or the end of the
      file shows is allowed for. */
  ghost predicate Answers(file: Bytes, verify: bool, h: Handle, entries: seq<Pair>) {
    HandleFits(h) && (ReadBlock(file, h, verify).Some? ==> IsBlock(ReadBlock(file, h, verify).value, entries))
  }

  ghost predicate BlocksAnswer(file: Bytes, verify: bool, p: Plan) {
    && |p.handles| == |p.blocks|
    && forall b :: 0 <= b < |p.blocks| ==>
         RowsFit(p.blocks[b]) && Answers(file, verify, p.handles[b], PairsOf(p.blocks[b]))
  }

  /** A table as it can be read: what a builder wrote, perhaps with damage that shows. */
  ghost predicate Readable(file: Bytes, verify: bool, policy: BloomFilterPolicy?, name: Bytes, p: Plan) {
    exists metaindex, index, filter :: ReadableParts(file, verify, policy, name, p, metaindex, index, filter)
  }

  ghost predicate ReadableParts(file: Bytes, verify: bool, policy: BloomFilterPolicy?, name: Bytes, p: Plan,
      metaindex: Handle, index: Handle, filter: Handle) {
    && |file| >= FOOTER_SIZE && DecodeFooter(file[|file| - FOOTER_SIZE..]) == Some(Footer(metaindex, index))
    && Indexed(p.blocks, p.index, p.handles) && |p.index| == |p.blocks| && IndexFits(p.index)
    && BlocksAnswer(file, verify, p) && Answers(file, verify, index, IndexPairs(p.index))
    && Answers(file, verify, metaindex, MetaEntries(policy, name, filter))
    && (policy != null ==> PlanFilters(policy, p) && HandleFits(filter)
                           && (ReadBlock(file, filter, verify).Some? ==>
                                ReadBlock(file, filter, verify).value == p.filter))
  }

  lemma EntriesAnswer(file: Bytes, verify: bool, h: Handle, entries: seq<Pair>)
    requires EntriesAt(file, h, entries)
    ensures Answers(file, verify, h, entries) && ReadBlock(file, h, verify).Some?
  {
    hide BlockAt, IsBlock, ReadBlock;
    var contents :| BlockAt(file, h, contents) && IsBlock(contents, entries);
    ReadsBack(file, h, contents, verify);
  }

  /** What a builder wrote can be read, all of it. */
  lemma IntactIsReadable(file: Bytes, verify: bool, policy: BloomFilterPolicy?, name: Bytes, p: Plan,
      metaindex: Handle, index: Handle, filter: Handle)
    requires TableParts(file, policy, name, p, metaindex, index, filter)
    ensures ReadableParts(file, verify, policy, name, p, metaindex, index, filter)
    ensures ReadBlock(file, index, verify).Some? && ReadBlock(file, metaindex, verify).Some?
    ensures policy != null ==> ReadBlock(file, filter, verify) == Some(p.filter)
  {
    hide EntriesAt, Answers, Indexed, PlanFilters, DecodeFooter, ReadBlock, BlockAt, HandleBytes;
    EntriesAnswer(file, verify, index, IndexPairs(p.index));
    EntriesAnswer(file, verify, metaindex, MetaEntries(policy, name, filter));
    forall b | 0 <= b < |p.blocks|
      ensures RowsFit(p.blocks[b]) && Answers(file, verify, p.handles[b], PairsOf(p.blocks[b]))
    {
      assert RowsAt(file, p.handles[b], p.blocks[b]);
      EntriesAnswer(file, verify, p.handles[b], PairsOf(p.blocks[b]));
    }
    if policy != null {
      ReadsBack(file, filter, p.filter, verify);
    }
  }

  // ------------------------------------------------------------------ building

  class TableBuilder {
    const policy: BloomFilterPolicy?
    const name: Bytes
    const filter: FilterBlockBuilder?
    const blockSize: nat
    const dataBlock: BlockBuilder
    const indexBlock: BlockBuilder
    var file: Bytes
    var offset: nat
    var lastKey: StoredKey
    var pendingIndexEntry: bool
    var pendingHandle: Handle
    var closed: bool
    /** The rows of the block being filled, the index so far, the blocks written, and where. */
    ghost var rows: seq<Row>
    ghost var index: seq<IndexEntry>
    ghost var blocks: seq<seq<Row>>
    ghost var handles: seq<Handle>

    /** All rows so far are before the key. */
    ghost predicate Before(k: StoredKey)
      reads this
    {
      AllBefore(rows, k) && AllBlocksBefore(blocks, k)
    }

    ghost predicate FilterHolds()
      reads this`handles, this`blocks, this`rows, this`offset, filter
    {
      && |handles| == |blocks| && (filter == null <==> policy == null)
      && (filter != null ==>
            && filter.Valid() && filter.policy == policy && |filter.offsets| == |filter.lists| == offset / BASE
            && (forall b, r :: 0 <= b < |blocks| && r in blocks[b] ==>
                 filter.Covered(handles[b].offset / BASE, r.key.user))
            && (forall r :: r in rows ==> filter.Covered(offset / BASE, r.key.user)))
    }

    ghost predicate DataHolds()
      reads this`rows, this`lastKey, dataBlock
    {
      && dataBlock.Valid() && dataBlock.less == INTERNAL_LESS && RowsFit(rows)
         && dataBlock.layout.entries == PairsOf(rows)
      && lastKey.packed < TWO_64
    }

    ghost predicate IndexHolds()
      reads this`index, indexBlock
    {
      && indexBlock.Valid() && indexBlock.less == INTERNAL_LESS && IndexFits(index)
         && indexBlock.layout.entries == IndexPairs(index)
    }

    ghost predicate Ready()
      reads this, filter, dataBlock, indexBlock
    {
      && Shape(blocks, index, handles, rows, pendingIndexEntry, lastKey, pendingHandle)
      && FilterHolds() && DataHolds() && IndexHolds() && dataBlock != indexBlock
      && FileHolds(file, blocks, handles) && offset == |file| && HandleFits(pendingHandle) && !closed
    }

    /** Every written block is indexed as soon as a row follows it. */
    ghost predicate Valid()
      reads this, filter, dataBlock, indexBlock
    {
      Ready() && (pendingIndexEntry || rows != [] || blocks == [])
    }

    /** Blocks are shorter than 4 GiB, and the file than 2^63 bytes. */
    predicate RoomFor(bytes: nat)
      reads this, dataBlock, indexBlock
    {
      && |dataBlock.buffer| + bytes + 23 < TWO_32
      && |indexBlock.buffer| + |lastKey.user| + 43 < TWO_32
      && |file| < TWO_64 / 2
    }

    constructor (policy: BloomFilterPolicy?, name: Bytes, blockSize: nat, interval: nat)
      requires (policy != null ==> policy.Valid()) && interval >= 1
      ensures Valid() && fresh(dataBlock) && fresh(indexBlock) && (filter != null ==> fresh(filter))
      ensures blocks == [] && rows == [] && this.policy == policy && this.name == name
      ensures dataBlock.buffer == [] && indexBlock.buffer == [] && file == [] && lastKey.user == []
    {
      hide LaidOut, RestartsHold, FiltersHold, Ascending, FilterBlockBuilder.Covered, BytesLess, StoredLess, Shape,
           FileHolds;
      NothingYet();
      this.policy, this.name, this.blockSize := policy, name, blockSize;
      if policy != null {
        filter := new FilterBlockBuilder(policy);
      } else {
        filter := null;
      }
      dataBlock := new BlockBuilder(interval, INTERNAL_LESS);
      indexBlock := new BlockBuilder(1, INTERNAL_LESS);
      file, offset, lastKey, pendingIndexEntry, pendingHandle, closed := [], 0, StoredKey([], 0), false, Handle(0, 0),
        false;
      rows, index, blocks, handles := [], [], [], [];
    }

    static lemma NothingYet()
      ensures Shape([], [], [], [], false, StoredKey([], 0), Handle(0, 0)) && FileHolds([], [], [])
    {
    }

    /** The index entry of a block waits for the next key, so that a short one can be chosen. */
    method Add(key: StoredKey, value: Bytes)
      requires Valid() && Before(key) && key.packed < TWO_64 && RoomFor(|key.user| + |value|)
      modifies this, filter, dataBlock, indexBlock
      ensures Valid() && lastKey == key
      ensures if rows == [] then blocks == old(blocks) + [old(rows) + [Row(key, value)]]
              else rows == old(rows) + [Row(key, value)] && blocks == old(blocks)
      ensures if rows == [] then pendingHandle.size >= blockSize else dataBlock.CurrentSizeEstimate() < blockSize
      ensures |dataBlock.buffer| <= old(|dataBlock.buffer|) + |key.user| + |value| + 23
      ensures |indexBlock.buffer| <= old(|indexBlock.buffer| + |lastKey.user|) + 43
      ensures |file| <= old(|file|) + 4 * TWO_32 + TRAILER_SIZE
    {
      hide Shape, FilterHolds, IndexHolds, DataHolds, FileHolds;
      ghost var row := Row(key, value);
      if pendingIndexEntry {
        CloseBlock(row, key);
      } else {
        LastClosed(row);
      }
      AllClosedBefore(row);
      RowShape(blocks, index, handles, rows, lastKey, pendingHandle, row);
      AddRow(key, value);
      if dataBlock.CurrentSizeEstimate() >= blockSize {
        Flush();
      }
    }

    /** The filter gets the user key, the block the row. */
    method AddRow(key: StoredKey, value: Bytes)
      requires FilterHolds() && DataHolds() && AllBefore(rows, key) && key.packed < TWO_64
      requires |dataBlock.buffer| + |key.user| + |value| + 23 < TWO_32
      modifies this`rows, this`lastKey, filter, dataBlock
      ensures FilterHolds() && DataHolds() && rows == old(rows) + [Row(key, value)] && lastKey == key
      ensures |dataBlock.buffer| <= old(|dataBlock.buffer|) + |key.user| + |value| + 23
    {
      hide DataHolds, AllBefore, FilterBlockBuilder.Covered, FilterBlockBuilder.Valid;
      if filter != null {
        filter.AddKey(key.user);
      }
      AddToBlock(key, value);
    }

    method AddToBlock(key: StoredKey, value: Bytes)
      requires DataHolds() && AllBefore(rows, key) && key.packed < TWO_64
      requires |dataBlock.buffer| + |key.user| + |value| + 23 < TWO_32
      modifies this`rows, this`lastKey, dataBlock
      ensures DataHolds() && rows == old(rows) + [Row(key, value)] && lastKey == key
      ensures |dataBlock.buffer| <= old(|dataBlock.buffer|) + |key.user| + |value| + 23
    {
      hide KeyBytes, LaidOut, RestartsHold, Ascending, AllBefore, INTERNAL_LESS, PairsOf, RowsFit;
      RowsBefore(rows, key);
      PairsNext(rows, Row(key, value));
      dataBlock.Add(KeyBytes(key), value);
      lastKey := key;
      rows := rows + [Row(key, value)];
    }

    static lemma PairsNext(rows: seq<Row>, row: Row)
      requires RowsFit(rows) && row.key.packed < TWO_64
      ensures RowsFit(rows + [row]) && PairsOf(rows + [row]) == PairsOf(rows) + [Pair(KeyBytes(row.key), row.value)]
    {
      hide KeyBytes;
    }

    static lemma IndexPairsNext(index: seq<IndexEntry>, e: IndexEntry)
      requires IndexFits(index) && e.key.packed < TWO_64 && HandleFits(e.handle)
      ensures IndexFits(index + [e]) && IndexPairs(index + [e]) == IndexPairs(index)
              + [Pair(KeyBytes(e.key), HandleBytes(e.handle))]
    {
      hide KeyBytes, HandleBytes, HandleFits;
    }

    static lemma RowsBefore(rows: seq<Row>, key: StoredKey)
      requires RowsFit(rows) && AllBefore(rows, key) && key.packed < TWO_64
      ensures forall e :: e in PairsOf(rows) ==> INTERNAL_LESS(e.key, KeyBytes(key))
    {
      hide KeyBytes, StoredLess;
      forall i | 0 <= i < |rows|
        ensures INTERNAL_LESS(KeyBytes(rows[i].key), KeyBytes(key))
      {
        InternalOrder(rows[i].key, key);
      }
    }

    /** Writes out the current block; its index entry is still to come. */
    method Flush()
      requires Ready() && (!pendingIndexEntry || rows == []) && |file| < TWO_64 / 2
      modifies this, filter, dataBlock
      ensures Ready() && rows == [] && lastKey == old(lastKey)
      ensures if old(rows) == [] then blocks == old(blocks) && pendingIndexEntry == old(pendingIndexEntry)
              && index == old(index)
              else blocks == old(blocks) + [old(rows)] && pendingIndexEntry && index == old(index)
                   && pendingHandle == Handle(old(|file|), old(dataBlock.CurrentSizeEstimate()))
      ensures |dataBlock.buffer| <= old(|dataBlock.buffer|) && |file| <= old(|file|) + 4 * TWO_32 + TRAILER_SIZE
    {
      hide Shape, IndexHolds, FilterHolds, FileHolds, LaidOut, RestartsHold, Ascending, FilterCovers,
           FilterBlockBuilder.Valid, DataHolds;
      EmptyMeansNoRows();
      if !dataBlock.Empty() {
        FlushShape(blocks, index, handles, rows, lastKey, pendingHandle,
          Handle(|file|, dataBlock.CurrentSizeEstimate()));
        FlushFilter(Handle(|file|, dataBlock.CurrentSizeEstimate()));
        WriteBlock();
        pendingIndexEntry := true;
        StartFilterBlock();
      }
    }

    lemma EmptyMeansNoRows()
      requires DataHolds()
      ensures dataBlock.Empty() <==> rows == []
    {
      hide LaidOut, RestartsHold, Ascending, KeyBytes;
      dataBlock.EmptyMeansNone();
    }

    /** Every row of the blocks is in the filter that its block's offset selects. */
    ghost predicate FilterCovers(blocks: seq<seq<Row>>, handles: seq<Handle>)
      reads filter
    {
      && |handles| == |blocks| && (filter == null <==> policy == null)
      && (filter != null ==>
            && filter.Valid() && filter.policy == policy
            && (forall b, r :: 0 <= b < |blocks| && r in blocks[b] ==>
                 filter.Covered(handles[b].offset / BASE, r.key.user)))
    }

    method StartFilterBlock()
      requires FilterCovers(blocks, handles) && rows == [] && (filter != null ==>
                 |filter.offsets| == |filter.lists| <= offset / BASE)
      modifies filter
      ensures FilterHolds()
    {
      hide FilterBlockBuilder.Covered, FilterBlockBuilder.Valid;
      if filter != null {
        filter.StartBlock(offset);
      }
    }

    lemma FlushFilter(written: Handle)
      requires FilterHolds() && written.offset == offset
      ensures filter != null ==> |filter.offsets| == |filter.lists| == offset / BASE
      ensures FilterCovers(blocks + [rows], handles + [written])
    {
      hide FilterBlockBuilder.Covered, FilterBlockBuilder.Valid;
    }

    /** The block goes to the end of the file, and a new one is begun. */
    method WriteBlock()
      requires DataHolds() && FileHolds(file, blocks, handles) && offset == |file| < TWO_64 / 2
      modifies this`file, this`offset, this`pendingHandle, this`rows, this`blocks, this`handles, dataBlock
      ensures DataHolds() && FileHolds(file, blocks, handles) && offset == |file| && HandleFits(pendingHandle)
      ensures pendingHandle == Handle(old(|file|), old(dataBlock.CurrentSizeEstimate()))
      ensures blocks == old(blocks) + [old(rows)] && handles == old(handles) + [pendingHandle] && rows == []
      ensures dataBlock.buffer == [] && old(|file|) <= |file| <= old(|file|) + 4 * TWO_32 + TRAILER_SIZE
    {
      hide IsBlock, Trailer, EntriesAt, LaidOut, RestartsHold, Ascending, KeyBytes;
      var block := FinishBlock(dataBlock);
      EntriesWritten(file, block, PairsOf(rows));
      ghost var before := file;
      pendingHandle := Handle(offset, |block|);
      file := file + block + Trailer(block);
      offset := offset + |block| + TRAILER_SIZE;
      FileGrows(before, block + Trailer(block), blocks, handles);
      assert file == before + (block + Trailer(block));
      blocks, handles := blocks + [rows], handles + [pendingHandle];
      rows := [];
    }

    /** Writes the pending index entry, its key chosen to separate the block from what follows. */
    method CloseBlock(ghost row: Row, key: StoredKey)
      requires Ready() && Before(key) && pendingIndexEntry && row.key == key
      requires |indexBlock.buffer| + |lastKey.user| + 43 < TWO_32
      modifies this`index, this`pendingIndexEntry, indexBlock
      ensures Ready() && !pendingIndexEntry && |index| == |blocks|
      ensures forall b :: 0 <= b < |index| && b + 1 == |blocks| ==> Closes(index[b].key, blocks[b], [row])
      ensures |indexBlock.buffer| <= old(|indexBlock.buffer|) + |lastKey.user| + 43
    {
      hide FilterHolds, FileHolds, IndexHolds, BlockBuilder.Valid, StoredLess, RowsFit;
      LastBefore(key);
      var sep := FindStoredSeparator(lastKey, key);
      CloseShape(blocks, index, handles, lastKey, pendingHandle, sep);
      hide Shape;
      AddIndexEntry(sep);
    }

    /** An index key is at or after all of its block, and so after every earlier index key. */
    method AddIndexEntry(sep: StoredKey)
      requires Shape(blocks, index, handles, rows, true, lastKey, pendingHandle) && IndexHolds()
               && !StoredLess(sep, lastKey)
      requires HandleFits(pendingHandle) && sep.packed < TWO_64 && |sep.user| <= |lastKey.user|
               && |indexBlock.buffer| + |lastKey.user| + 43 < TWO_32
      modifies this`index, this`pendingIndexEntry, indexBlock
      ensures IndexHolds() && !pendingIndexEntry && index == old(index) + [IndexEntry(sep, pendingHandle)]
      ensures |indexBlock.buffer| <= old(|indexBlock.buffer|) + |lastKey.user| + 43
    {
      hide Shape, KeyBytes, HandleBytes, LaidOut, RestartsHold, Ascending, INTERNAL_LESS, StoredLess, IndexPairs,
           IndexFits;
      EarlierIndexKeys(sep);
      HandleShort(pendingHandle);
      IndexPairsNext(index, IndexEntry(sep, pendingHandle));
      indexBlock.Add(KeyBytes(sep), HandleBytes(pendingHandle));
      index := index + [IndexEntry(sep, pendingHandle)];
      pendingIndexEntry := false;
    }

    lemma EarlierIndexKeys(sep: StoredKey)
      requires Shape(blocks, index, handles, rows, true, lastKey, pendingHandle) && IndexFits(index)
               && !StoredLess(sep, lastKey)
      requires sep.packed < TWO_64
      ensures forall e :: e in IndexPairs(index) ==> INTERNAL_LESS(e.key, KeyBytes(sep))
    {
      hide KeyBytes, StoredLess, HandleBytes, HandleFits, BytesLess;
      forall i | 0 <= i < |index|
        ensures INTERNAL_LESS(KeyBytes(index[i].key), KeyBytes(sep))
      {
        IndexBefore(blocks, index, handles, i, sep, |blocks| - 1);
        InternalOrder(index[i].key, sep);
      }
    }

    lemma LastClosed(row: Row)
      requires Valid() && Before(row.key) && !pendingIndexEntry
      ensures forall b :: 0 <= b < |index| && b + 1 == |blocks| ==> Closes(index[b].key, blocks[b], [row])
    {
      hide FilterHolds, DataHolds, IndexHolds, FileHolds, StoredLess, BytesLess, Indexed, AllBlocksBefore;
      forall b | 0 <= b < |index| && b + 1 == |blocks|
        ensures Closes(index[b].key, blocks[b], [row])
      {
        var r := rows[0];
        assert r in rows && Closes(index[b].key, blocks[b], rows);
        StoredOrder(index[b].key, r.key, row.key);
        if index[b].key != LastKey(blocks[b]) {
          BytesThenStored(index[b].key.user, r.key, row.key);
        }
      }
    }

    lemma LastBefore(key: StoredKey)
      requires Ready() && Before(key) && pendingIndexEntry
      ensures StoredLess(lastKey, key) && |index| + 1 == |blocks| && blocks[|index|] != []
              && lastKey == LastKey(blocks[|index|]) && rows == []
    {
      var last := blocks[|blocks| - 1];
      assert last != [] && last[|last| - 1] in last;
    }

    lemma AllClosedBefore(row: Row)
      requires Ready() && Before(row.key) && !pendingIndexEntry
      requires forall b :: 0 <= b < |index| && b + 1 == |blocks| ==> Closes(index[b].key, blocks[b], [row])
      ensures forall b :: 0 <= b < |index| ==> Closes(index[b].key, blocks[b], [row])
    {
      hide Closes, FilterHolds, DataHolds, IndexHolds, FileHolds, StoredLess, AllBlocksBefore, AllBefore;
      forall b | 0 <= b < |index|
        ensures Closes(index[b].key, blocks[b], [row])
      {
        ClosedBefore(blocks, index, handles, row, b);
      }
    }

    // ---------------------------------------------------------------- finishing

    /** The last block's index key need only be at or after its last key.  Then come the filter block,
        the metaindex that says where it is, the index, and the footer that says where those are.
        Filters of 4 GiB or more are outside the format. */
    method Finish() returns (ghost p: Plan)
      requires Valid() && RoomFor(0) && |name| < TWO_32 / 2
      modifies this, filter, dataBlock, indexBlock
      ensures closed && offset == |file|
      ensures blocks == old(blocks) + (if old(rows) == [] then [] else [old(rows)])
      ensures p.blocks == blocks && |p.filter| <= |file| && (|p.filter| < TWO_32 ==> IsTable(file, policy, name, p))
    {
      hide FilterHolds, Shape, FileHolds, DataHolds, IndexHolds, IsTable;
      PendingIsEmpty();
      Flush();
      LastKeyFits();
      p := WriteRest();
      closed := true;
    }

    lemma LastKeyFits()
      requires DataHolds()
      ensures lastKey.packed < TWO_64
    {
    }

    method WriteRest() returns (ghost p: Plan)
      requires Shape(blocks, index, handles, rows, pendingIndexEntry, lastKey, pendingHandle) && rows == []
      requires FilterHolds() && IndexHolds() && FileHolds(file, blocks, handles) && HandleFits(pendingHandle)
               && lastKey.packed < TWO_64
      requires offset == |file| < TWO_64 / 2 + 5 * TWO_32 && |indexBlock.buffer| + |lastKey.user| + 43 < TWO_32
               && |name| < TWO_32 / 2
      modifies this`file, this`offset, this`index, this`pendingIndexEntry, filter, indexBlock
      ensures offset == |file|
      ensures p.blocks == blocks && |p.filter| <= |file| && (|p.filter| < TWO_32 ==> IsTable(file, policy, name, p))
    {
      hide FilterHolds, PlanFilters, Shape, Indexed, FileHolds, IndexHolds, IsTable, IsBlock, Trailer, HandleBytes,
           FooterBytes;
      ghost var f0 := file;
      var filterHandle;
      filterHandle, p := WriteFilter();
      ghost var f1 := file;
      var metaindex, metaBlock := WriteMetaindex(filterHandle);
      ghost var f2 := file;
      CloseLast();
      var index, block := WriteIndex();
      ghost var f3 := file;
      WriteFooter(Footer(metaindex, index));
      SameFilters(p, this.index);
      p := p.(index := this.index);
      if |p.filter| < TWO_32 {
        Assembled(policy, name, p, f0, f1, f2, f3, file, metaBlock, block, filterHandle, metaindex, index);
      }
    }

    lemma SameFilters(p: Plan, index: seq<IndexEntry>)
      ensures policy != null && PlanFilters(policy, p) ==> PlanFilters(policy, p.(index := index))
    {
    }

    lemma PendingIsEmpty()
      requires Ready()
      ensures pendingIndexEntry ==> rows == []
    {
    }

    /** Offsets and sizes are 64-bit words. */
    method WriteRawBlock(contents: Bytes) returns (h: Handle)
      requires offset == |file|
      modifies this`file, this`offset
      ensures file == old(file) + (contents + Trailer(contents)) && offset == |file|
      ensures h == HandleFor(old(file), contents)
    {
      h := Handle(offset % TWO_64, |contents| % TWO_64);
      file := file + (contents + Trailer(contents));
      offset := offset + |contents| + TRAILER_SIZE;
    }

    method WriteFilter() returns (h: Handle, ghost p: Plan)
      requires FilterHolds() && rows == [] && offset == |file|
      modifies this`file, this`offset, filter
      ensures offset == |file| && HandleFits(h) && p.blocks == blocks && p.handles == handles
      ensures file == old(file) + (if policy == null then [] else p.filter + Trailer(p.filter))
      ensures if policy == null then p.filter == [] else h == HandleFor(old(file), p.filter) && PlanFilters(policy, p)
    {
      h := Handle(0, 0);
      if filter == null {
        p := Plan(blocks, handles, [], [], [], [], []);
        assert file + [] == file;
      } else {
        hide FiltersHold, Trailer;
        var contents := filter.Finish();
        p := Plan(blocks, handles, [], filter.lists, contents, filter.result, filter.offsets);
        h := WriteRawBlock(contents);
      }
    }

    method WriteMetaindex(filterHandle: Handle) returns (h: Handle, ghost contents: Bytes)
      requires offset == |file| && HandleFits(filterHandle) && |name| < TWO_32 / 2
      modifies this`file, this`offset
      ensures offset == |file| && file == old(file) + (contents + Trailer(contents))
              && h == HandleFor(old(file), contents)
      ensures IsBlock(contents, MetaEntries(policy, name, filterHandle)) && |contents| < 4 * TWO_32
    {
      hide LaidOut, RestartsHold, Ascending, IsBlock, Trailer, HandleBytes;
      var builder := new BlockBuilder(1, BYTES_LESS);
      if policy != null {
        HandleShort(filterHandle);
        builder.Add(name, HandleBytes(filterHandle));
        assert builder.layout.entries == [] + [Pair(name, HandleBytes(filterHandle))];
      }
      assert builder.layout.entries == MetaEntries(policy, name, filterHandle);
      var block := FinishBlock(builder);
      contents := block;
      h := WriteRawBlock(block);
    }

    method CloseLast()
      requires Shape(blocks, index, handles, rows, pendingIndexEntry, lastKey, pendingHandle) && rows == []
      requires IndexHolds() && HandleFits(pendingHandle) && lastKey.packed < TWO_64
               && |indexBlock.buffer| + |lastKey.user| + 43 < TWO_32
      modifies this`index, this`pendingIndexEntry, indexBlock
      ensures Indexed(blocks, index, handles) && |index| == |blocks| && IndexHolds()
    {
      hide IndexHolds, Shape, StoredLess, BytesLess, HandleFits;
      if pendingIndexEntry {
        var key := FindStoredSuccessor(lastKey);
        CloseShape(blocks, index, handles, lastKey, pendingHandle, key);
        AddIndexEntry(key);
      }
      ClosedIsIndexed();
    }

    lemma ClosedIsIndexed()
      requires Shape(blocks, index, handles, rows, false, lastKey, pendingHandle)
      ensures Indexed(blocks, index, handles) && |index| == |blocks|
    {
    }

    method WriteIndex() returns (h: Handle, ghost contents: Bytes)
      requires offset == |file| && IndexHolds()
      modifies this`file, this`offset, indexBlock
      ensures offset == |file| && file == old(file) + (contents + Trailer(contents))
              && h == HandleFor(old(file), contents)
      ensures IndexFits(index) && IsBlock(contents, IndexPairs(index)) && |contents| < 4 * TWO_32
    {
      hide LaidOut, RestartsHold, Ascending, IsBlock, Trailer;
      var block := FinishBlock(indexBlock);
      contents := block;
      h := WriteRawBlock(block);
    }

    method WriteFooter(footer: Footer)
      requires HandleFits(footer.metaindex) && HandleFits(footer.index) && offset == |file|
      modifies this`file, this`offset
      ensures |HandleBytes(footer.metaindex)| + |HandleBytes(footer.index)| <= 40
      ensures file == old(file) + FooterBytes(footer) && offset == |file|
    {
      FooterRoundTrip(footer);
      file := file + FooterBytes(footer);
      offset := offset + FOOTER_SIZE;
    }
  }

  function HandleFor(file: Bytes, contents: Bytes): (h: Handle)
    ensures HandleFits(h)
  {
    Handle(|file| % TWO_64, |contents| % TWO_64)
  }

  lemma EntriesAppended(file: Bytes, block: Bytes, entries: seq<Pair>)
    requires IsBlock(block, entries) && |file| < TWO_64 && |block| < TWO_64
    ensures EntriesAt(file + (block + Trailer(block)), HandleFor(file, block), entries)
  {
    hide EntriesAt, IsBlock, Trailer;
    EntriesWritten(file, block, entries);
    assert file + (block + Trailer(block)) == file + block + Trailer(block);
  }

  /** The parts written one after another make a table. */
  lemma Assembled(policy: BloomFilterPolicy?, name: Bytes, p: Plan, f0: Bytes, f1: Bytes, f2: Bytes, f3: Bytes,
      f4: Bytes,
                  metaBlock: Bytes, indexBlock: Bytes, filter: Handle, metaindex: Handle, index: Handle)
    requires |f0| < TWO_64 / 2 + 5 * TWO_32 && |p.filter| < TWO_32 && |metaBlock| < 4 * TWO_32
             && |indexBlock| < 4 * TWO_32
    requires PlanHolds(f0, p) && IsBlock(indexBlock, IndexPairs(p.index))
             && IsBlock(metaBlock, MetaEntries(policy, name, filter))
    requires policy != null ==> PlanFilters(policy, p) && filter == HandleFor(f0, p.filter)
    requires f1 == f0 + (if policy == null then [] else p.filter + Trailer(p.filter))
    requires f2 == f1 + (metaBlock + Trailer(metaBlock)) && metaindex == HandleFor(f1, metaBlock)
    requires f3 == f2 + (indexBlock + Trailer(indexBlock)) && index == HandleFor(f2, indexBlock)
    requires |HandleBytes(metaindex)| + |HandleBytes(index)| <= 40 && f4 == f3 + FooterBytes(Footer(metaindex, index))
    ensures IsTable(f4, policy, name, p)
  {
    hide IsBlock, Trailer, HandleBytes, FooterBytes, DecodeFooter, EntriesAt, BlockAt, PlanFilters, FileHolds, Indexed;
    var footer := FooterBytes(Footer(metaindex, index));
    FooterRoundTrip(Footer(metaindex, index));
    assert f4[|f4| - FOOTER_SIZE..] == footer;
    var meta, last := metaBlock + Trailer(metaBlock), indexBlock + Trailer(indexBlock);
    EntriesKept(f1, metaBlock, last + footer, MetaEntries(policy, name, filter));
    assert f1 + meta + (last + footer) == f4;
    EntriesKept(f2, indexBlock, footer, IndexPairs(p.index));
    assert f4 == f1 + (meta + last + footer);
    RowsAndFilterKept(policy, p, f0, meta + last + footer, filter);
    assert TableParts(f4, policy, name, p, metaindex, index, filter);
  }

  lemma EntriesKept(file: Bytes, block: Bytes, more: Bytes, entries: seq<Pair>)
    requires IsBlock(block, entries) && |file| < TWO_64 && |block| < TWO_64
    ensures EntriesAt(file + (block + Trailer(block)) + more, HandleFor(file, block), entries)
  {
    hide EntriesAt, IsBlock, Trailer;
    EntriesAppended(file, block, entries);
    EntriesStay(file + (block + Trailer(block)), more, HandleFor(file, block), entries);
  }

  lemma RowsAndFilterKept(policy: BloomFilterPolicy?, p: Plan, f0: Bytes, rest: Bytes, filter: Handle)
    requires FileHolds(f0, p.blocks, p.handles) && |f0| < TWO_64 && |p.filter| < TWO_32
    requires policy != null ==> filter == HandleFor(f0, p.filter)
    ensures var f4 := f0 + (if policy == null then [] else p.filter + Trailer(p.filter)) + rest;
            FileHolds(f4, p.blocks, p.handles) && (policy != null ==> BlockAt(f4, filter, p.filter))
  {
    hide FileHolds, BlockAt, Trailer;
    var part := if policy == null then [] else p.filter + Trailer(p.filter);
    FileGrows(f0, part, p.blocks, p.handles);
    FileGrows(f0 + part, rest, p.blocks, p.handles);
    if policy != null {
      BlockAppended(f0, p.filter);
      assert f0 + part == f0 + p.filter + Trailer(p.filter);
      BlockStays(f0 + part, rest, filter, p.filter);
    }
  }

  // ------------------------------------------------------------------ looking up

  /** An open table: its file, the contents of its index block, and a filter reader if there is a
      filter and a policy to read it with. */
  class Table {
    const file: Bytes
    const verify: bool
    const indexBlock: Bytes
    const filter: FilterBlockReader?

    ghost predicate Reads(p: Plan) {
      && Indexed(p.blocks, p.index, p.handles) && |p.index| == |p.blocks| && IndexFits(p.index)
      && BlocksAnswer(file, verify, p) && IsBlock(indexBlock, IndexPairs(p.index))
      && (filter != null ==> filter.Valid() && filter.contents == p.filter && PlanFilters(filter.policy, p))
    }

    constructor (file: Bytes, verify: bool, indexBlock: Bytes, filter: FilterBlockReader?)
      ensures this.file == file && this.verify == verify && this.indexBlock == indexBlock && this.filter == filter
    {
      this.file, this.verify, this.indexBlock, this.filter := file, verify, indexBlock, filter;
    }

    /** Through index, filter and block: what is delivered is the first row at or after the key, and if
        that row has the key's user it is delivered.  It fails exactly when the block it needs is refused,
        and delivers nothing then. */
    method InternalGet(k: StoredKey, ghost p: Plan) returns (delivered: Option<Row>, ok: bool)
      requires Reads(p) && k.packed < TWO_64 && (filter != null ==> |p.filter| < TWO_32)
      ensures delivered.Some? ==> FirstFrom(p.blocks, k, delivered.value)
      ensures ok ==> forall r :: FirstFrom(p.blocks, k, r) && r.key.user == k.user ==> delivered == Some(r)
      ensures !ok ==> delivered == None && exists b :: 0 <= b < |p.handles|
                                                       && ReadBlock(file, p.handles[b], verify) == None
      ensures delivered.Some? && filter != null ==>
                exists b :: 0 <= b < |p.blocks| == |p.handles| && delivered.value in p.blocks[b]
                            && filter.MayBeIn(p.lists, p.handles[b].offset, k.user)
    {
      hide FirstFrom, StoredLess, PlanFilters, Indexed, Answers, IsBlock, Place, KeyBytes, HandleBytes, DecodeHandle,
           INTERNAL_LESS;
      var target := KeyBytes(k);
      InternalTransitive();
      IndexAscends(p.blocks, p.index, p.handles);
      var entry := SeekBlock(INTERNAL_LESS, indexBlock, target, IndexPairs(p.index));
      IndexPlace(p.index, k);
      if entry.None? {
        NothingFrom(p.blocks, p.index, p.handles, k);
        return None, true;
      }
      ghost var b := Place(IndexPairs(p.index), KeyBefore(INTERNAL_LESS), target);
      HandleOf(p.blocks, p.index, p.handles, b);
      HandleRoundTrip(p.handles[b], []);
      assert entry.value.value == HandleBytes(p.handles[b]) + [];
      var handle := DecodeHandle(entry.value.value).value.0;
      if filter != null {
        var may := filter.KeyMayMatch(handle.offset, k.user);
        FilterMadeOf(p);
        if !may {
          FilterSaysNo(p, k, b);
          return None, true;
        }
      }
      delivered, ok := GetFromBlock(handle, k, p, b);
    }

    method GetFromBlock(handle: Handle, k: StoredKey, ghost p: Plan, ghost b: nat)
        returns (delivered: Option<Row>, ok: bool)
      requires Reads(p) && k.packed < TWO_64 && b < |p.index| && handle == p.handles[b]
      requires (forall c :: 0 <= c < b ==> StoredLess(p.index[c].key, k)) && !StoredLess(p.index[b].key, k)
      ensures ok == ReadBlock(file, handle, verify).Some? && (!ok ==> delivered == None)
      ensures delivered.Some? ==> FirstFrom(p.blocks, k, delivered.value)
      ensures ok ==> forall r :: FirstFrom(p.blocks, k, r) && r.key.user == k.user ==> delivered == Some(r)
      ensures delivered.Some? ==> |p.blocks| == |p.handles| > b && delivered.value in p.blocks[b]
    {
      hide FirstFrom, StoredLess, PlanFilters, IsBlock, Place, KeyBytes, KeyOf, INTERNAL_LESS, ReadBlock;
      ghost var rows := p.blocks[b];
      assert RowsFit(rows) && RowsAscend(rows) && Answers(file, verify, handle, PairsOf(rows));
      var read := ReadBlock(file, handle, verify);
      if read.None? {
        return None, false;
      }
      var block := read.value;
      InternalTransitive();
      PairsAscend(rows);
      var pair := SeekBlock(INTERNAL_LESS, block, KeyBytes(k), PairsOf(rows));
      RowPlace(rows, k);
      ghost var n := Place(PairsOf(rows), KeyBefore(INTERNAL_LESS), KeyBytes(k));
      FoundInBlock(p.blocks, p.index, p.handles, k, b, n);
      if pair.None? {
        return None, true;
      }
      KeyRoundTrip(rows[n].key);
      delivered, ok := Some(Row(KeyOf(pair.value.key), pair.value.value)), true;
    }

    /** The filter reader answers for the lists of keys that went into the table. */
    lemma FilterMadeOf(p: Plan)
      requires Reads(p) && filter != null && |p.filter| < TWO_32
      ensures filter.MadeOf(p.result, WordsOf(p.starts), p.lists)
    {
      hide Words, Fixed32, FiltersHold, BlocksAnswer, IsBlock, IndexFits, IndexPairs, Indexed;
      WordsUnchanged(filter.policy, p.result, p.starts, p.lists);
    }

    lemma FilterSaysNo(p: Plan, k: StoredKey, b: nat)
      requires Reads(p) && filter != null && |p.filter| < TWO_32 && b < |p.index|
      requires (forall c :: 0 <= c < b ==> StoredLess(p.index[c].key, k)) && !StoredLess(p.index[b].key, k)
      requires !filter.MayBeIn(p.lists, p.handles[b].offset, k.user)
      ensures forall r :: FirstFrom(p.blocks, k, r) ==> r.key.user != k.user
    {
      hide FirstFrom, Words, Fixed32, FiltersHold, StoredLess, BlocksAnswer, IsBlock, IndexFits, IndexPairs;
      HandleOf(p.blocks, p.index, p.handles, b);
      hide Indexed;
      forall x | x in p.blocks[b]
        ensures x.key.user != k.user
      {
        assert InList(p.lists, p.handles[b].offset / BASE, x.key.user);
        if x.key.user == k.user {
          filter.policy.OwnKeysMayHold(p.lists[p.handles[b].offset / BASE], k.user);
          assert false;
        }
      }
      forall r | FirstFrom(p.blocks, k, r)
        ensures r.key.user != k.user
      {
        if r.key.user == k.user {
          InThatBlock(p.blocks, p.index, p.handles, k, b, r);
          assert false;
        }
      }
    }
  }

  // ------------------------------------------------------------------ opening

  /** The footer and the contents of the index block, if the file is long enough to have them and they
      can be read. */
  function OpenIndex(file: Bytes, verify: bool): Option<(Footer, Bytes)> {
    if |file| < FOOTER_SIZE then None
    else
      match DecodeFooter(file[|file| - FOOTER_SIZE..])
      case None => None
      case Some(footer) =>
        match ReadBlock(file, footer.index, verify)
        case None => None
        case Some(contents) => Some((footer, contents))
  }

  /** The filter, if the metaindex can be read and names one for the policy.  Without it the table is read
      all the same. */
  method ReadMeta(file: Bytes, metaindex: Handle, policy: BloomFilterPolicy, name: Bytes, verify: bool,
                  ghost made: BloomFilterPolicy?, ghost p: Plan, ghost index: Handle, ghost filter: Handle)
      returns (reader: FilterBlockReader?)
    requires policy.Valid() && (made == null || made == policy)
    requires ReadableParts(file, verify, made, name, p, metaindex, index, filter)
    ensures reader != null ==> made != null && reader.Valid() && reader.policy == policy && reader.contents == p.filter
    ensures reader == null && made != null ==> ReadBlock(file, metaindex, verify).None?
                                               || ReadBlock(file, filter, verify).None?
  {
    hide ReadBlock, IsBlock, BlocksAnswer, Indexed, PlanFilters, DecodeFooter, DecodeHandle, HandleBytes, BytesLess;
    reader := null;
    var meta := ReadBlock(file, metaindex, verify);
    if meta.None? {
      return;
    }
    BytesTransitive();
    var found := SeekBlock(BYTES_LESS, meta.value, name, MetaEntries(made, name, filter));
    Bytewise.Irreflexive(name);
    if found.Some? && found.value.key == name {
      HandleRoundTrip(filter, []);
      assert found.value.value == HandleBytes(filter) + [];
      var contents := ReadBlock(file, DecodeHandle(found.value.value).value.0, verify);
      if contents.Some? {
        reader := new FilterBlockReader(policy, contents.value);
      }
    }
  }

  /** Opens a table with or without a policy to read its filter.  A file whose footer or index cannot be
      read is refused; any other is one that a builder wrote, perhaps with damage that shows. */
  method Open(file: Bytes, policy: BloomFilterPolicy?, name: Bytes, verify: bool, ghost made: BloomFilterPolicy?,
      ghost p: Plan)
      returns (t: Table?)
    requires OpenIndex(file, verify).Some? ==> Readable(file, verify, made, name, p)
    requires policy != null ==> policy.Valid() && (made == null || made == policy)
    ensures t == null <==> OpenIndex(file, verify).None?
    ensures t != null ==> t.file == file && t.verify == verify && t.Reads(p)
    ensures t != null && t.filter != null ==> policy != null && made != null
    ensures IsTable(file, made, name, p) ==> t != null && (t.filter != null <==> policy != null && made != null)
  {
    hide TableParts, ReadableParts, IsBlock, IndexPairs, ReadBlock, DecodeFooter;
    var read := OpenIndex(file, verify);
    ghost var m, i, f;
    if IsTable(file, made, name, p) {
      m, i, f := PartsWritten(file, verify, made, name, p);
    } else if read.Some? {
      m, i, f :| ReadableParts(file, verify, made, name, p, m, i, f);
    }
    if read.None? {
      return null;
    }
    PartsToRead(file, verify, made, name, p, m, i, f);
    var reader: FilterBlockReader? := null;
    if policy != null {
      reader := ReadMeta(file, read.value.0.metaindex, policy, name, verify, made, p, i, f);
    }
    t := new Table(file, verify, read.value.1, reader);
  }

  lemma PartsWritten(file: Bytes, verify: bool, policy: BloomFilterPolicy?, name: Bytes, p: Plan)
      returns (m: Handle, i: Handle, f: Handle)
    requires IsTable(file, policy, name, p)
    ensures ReadableParts(file, verify, policy, name, p, m, i, f) && OpenIndex(file, verify).Some?
    ensures ReadBlock(file, m, verify).Some? && (policy != null ==> ReadBlock(file, f, verify).Some?)
  {
    hide TableParts, ReadBlock, DecodeFooter;
    m, i, f :| TableParts(file, policy, name, p, m, i, f);
    IntactIsReadable(file, verify, policy, name, p, m, i, f);
  }

  lemma PartsToRead(file: Bytes, verify: bool, policy: BloomFilterPolicy?, name: Bytes, p: Plan, m: Handle, i: Handle,
      f: Handle)
    requires ReadableParts(file, verify, policy, name, p, m, i, f) && OpenIndex(file, verify).Some?
    ensures OpenIndex(file, verify).value.0 == Footer(m, i)
    ensures IsBlock(OpenIndex(file, verify).value.1, IndexPairs(p.index)) && BlocksAnswer(file, verify, p)
    ensures Indexed(p.blocks, p.index, p.handles) && |p.index| == |p.blocks| && IndexFits(p.index)
    ensures policy != null ==> PlanFilters(policy, p)
  {
    hide ReadBlock, DecodeFooter, IsBlock, BlocksAnswer, Indexed, PlanFilters;
  }

  // ------------------------------------------------------------------ from rows to bytes and back

  function FlatRows(blocks: seq<seq<Row>>): seq<Row> {
    if blocks == [] then [] else FlatRows(blocks[..|blocks| - 1]) + blocks[|blocks| - 1]
  }

  lemma {:induction false} InFlat(blocks: seq<seq<Row>>, r: Row)
    ensures r in FlatRows(blocks) <==> exists b :: 0 <= b < |blocks| && r in blocks[b]
  {
    if blocks != [] {
      InFlat(blocks[..|blocks| - 1], r);
      if b :| 0 <= b < |blocks| && r in blocks[b] {
        assert b < |blocks| - 1 ==> r in blocks[..|blocks| - 1][b];
      }
    }
  }

  /** The room that rows can take. */
  function Weight(rows: seq<Row>): nat {
    if rows == [] then 0 else Weight(rows[..|rows| - 1]) + |rows[|rows| - 1].key.user| + |rows[|rows| - 1].value| + 64
  }

  lemma {:induction false} WeightGrows(rows: seq<Row>, i: nat)
    requires i <= |rows|
    ensures Weight(rows[..i]) <= Weight(rows) && 64 * i <= Weight(rows[..i])
    decreases |rows|
  {
    if i < |rows| {
      WeightGrows(rows[..|rows| - 1], i);
      assert rows[..|rows| - 1][..i] == rows[..i];
    } else {
      assert rows[..i] == rows;
      if i > 0 {
        WeightGrows(rows[..i - 1], i - 1);
        assert rows[..i - 1][..i - 1] == rows[..i - 1];
      }
    }
  }

  /** The builder has been given the first i rows. */
  ghost predicate Given(b: TableBuilder, rows: seq<Row>, i: nat)
    requires i <= |rows|
    reads b, b.filter, b.dataBlock, b.indexBlock
  {
    && b.Valid() && FlatRows(b.blocks) + b.rows == rows[..i]
    && |b.dataBlock.buffer| <= Weight(rows[..i]) && |b.indexBlock.buffer| + |b.lastKey.user| <= Weight(rows[..i])
    && |b.file| <= i * (4 * TWO_32 + TRAILER_SIZE)
  }

  method GiveRow(b: TableBuilder, rows: seq<Row>, i: nat)
    requires i < |rows| && Given(b, rows, i) && RowsFit(rows) && RowsAscend(rows) && Weight(rows) < TWO_32 - 64
    modifies b, b.filter, b.dataBlock, b.indexBlock
    ensures Given(b, rows, i + 1)
  {
    hide FlatRows, StoredLess, RowsFit, RowsAscend, TableBuilder.Valid, AllBefore, AllBlocksBefore, Weight;
    NextRow(rows, b.blocks, b.rows, i);
    WeightGrows(rows, i + 1);
    ghost var before, inBlock := b.blocks, b.rows;
    b.Add(rows[i].key, rows[i].value);
    FlatNext(before, inBlock + [rows[i]]);
    assert rows[..i + 1] == rows[..i] + [rows[i]];
  }

  method BuildTable(rows: seq<Row>, policy: BloomFilterPolicy?, name: Bytes, blockSize: nat, interval: nat)
      returns (file: Bytes, ghost p: Plan)
    requires RowsFit(rows) && RowsAscend(rows) && Weight(rows) < TWO_32 - 64
    requires (policy != null ==> policy.Valid()) && interval >= 1 && |name| < TWO_32 / 2
    ensures FlatRows(p.blocks) == rows && |p.filter| <= |file|
            && (|p.filter| < TWO_32 ==> IsTable(file, policy, name, p))
  {
    hide IsTable, FlatRows, RowsFit, RowsAscend, TableBuilder.Valid;
    var builder := new TableBuilder(policy, name, blockSize, interval);
    NothingFlat();
    for i := 0 to |rows|
      invariant fresh(builder) && fresh(builder.dataBlock) && fresh(builder.indexBlock)
                && (builder.filter != null ==> fresh(builder.filter))
      invariant builder.policy == policy && builder.name == name && Given(builder, rows, i)
    {
      GiveRow(builder, rows, i);
    }
    WeightGrows(rows, |rows|);
    ghost var before, inBlock := builder.blocks, builder.rows;
    p := builder.Finish();
    FlatNext(before, inBlock);
    assert before + [] == before && rows[..|rows|] == rows;
    file := builder.file;
  }

  lemma NothingFlat()
    ensures FlatRows([]) == []
  {
  }

  lemma FlatNext(blocks: seq<seq<Row>>, block: seq<Row>)
    ensures FlatRows(blocks + [block]) == FlatRows(blocks) + block && FlatRows(blocks) + [] == FlatRows(blocks)
  {
    assert (blocks + [block])[..|blocks|] == blocks;
  }

  lemma NextRow(rows: seq<Row>, blocks: seq<seq<Row>>, block: seq<Row>, i: nat)
    requires RowsFit(rows) && RowsAscend(rows) && i < |rows| && FlatRows(blocks) + block == rows[..i]
    ensures AllBefore(block, rows[i].key) && AllBlocksBefore(blocks, rows[i].key) && rows[i].key.packed < TWO_64
    ensures Weight(rows[..i + 1]) == Weight(rows[..i]) + |rows[i].key.user| + |rows[i].value| + 64
  {
    hide StoredLess;
    assert rows[..i + 1][..i] == rows[..i] && rows[i] in rows;
    forall r | r in FlatRows(blocks) + block
      ensures StoredLess(r.key, rows[i].key)
    {
      var j :| 0 <= j < i && rows[..i][j] == r;
    }
    forall b, r | 0 <= b < |blocks| && r in blocks[b]
      ensures StoredLess(r.key, rows[i].key)
    {
      InFlat(blocks, r);
    }
  }

  /** The first row at or after the key. */
  ghost predicate FirstRow(rows: seq<Row>, k: StoredKey, r: Row) {
    r in rows && !StoredLess(r.key, k) && forall x :: x in rows && !StoredLess(x.key, k) ==> !StoredLess(x.key, r.key)
  }

  /** A table of less than 4 GiB written and opened again: a lookup delivers the first row at or after
      the key or nothing, and nothing only if that row is another user's. */
  method BuildAndGet(rows: seq<Row>, policy: BloomFilterPolicy?, name: Bytes, blockSize: nat, interval: nat,
                     readPolicy: BloomFilterPolicy?, verify: bool, k: StoredKey)
      returns (file: Bytes, delivered: Option<Row>)
    requires RowsFit(rows) && RowsAscend(rows) && Weight(rows) < TWO_32 - 64 && k.packed < TWO_64
    requires (policy != null ==> policy.Valid()) && interval >= 1 && |name| < TWO_32 / 2
    requires readPolicy != null ==> readPolicy.Valid() && (policy == null || readPolicy == policy)
    ensures |file| < TWO_32 ==>
              && (delivered.Some? ==> FirstRow(rows, k, delivered.value))
              && forall r :: FirstRow(rows, k, r) && r.key.user == k.user ==> delivered == Some(r)
  {
    hide IsTable, FlatRows, StoredLess, FirstFrom, FirstRow, RowsFit, RowsAscend;
    ghost var p;
    file, p := BuildTable(rows, policy, name, blockSize, interval);
    delivered := None;
    if |file| < TWO_32 {
      TableIsReadable(file, verify, policy, name, p);
      var t := Open(file, readPolicy, name, verify, policy, p);
      var ok;
      delivered, ok := t.InternalGet(k, p);
      if !ok {
        BlocksCanBeRead(file, verify, policy, name, p);
        assert false;
      }
      forall r
        ensures FirstFrom(p.blocks, k, r) <==> FirstRow(rows, k, r)
      {
        SameFirst(p.blocks, rows, k, r);
      }
    }
  }

  lemma TableIsReadable(file: Bytes, verify: bool, policy: BloomFilterPolicy?, name: Bytes, p: Plan)
    requires IsTable(file, policy, name, p)
    ensures Readable(file, verify, policy, name, p)
  {
    hide TableParts, ReadableParts;
    var m, i, f := PartsWritten(file, verify, policy, name, p);
  }

  lemma BlocksCanBeRead(file: Bytes, verify: bool, policy: BloomFilterPolicy?, name: Bytes, p: Plan)
    requires IsTable(file, policy, name, p)
    ensures |p.handles| == |p.blocks| && forall b :: 0 <= b < |p.handles| ==>
              ReadBlock(file, p.handles[b], verify).Some?
  {
    hide ReadBlock, EntriesAt, DecodeFooter, Indexed, PlanFilters;
    var m, i, f :| TableParts(file, policy, name, p, m, i, f);
    forall b | 0 <= b < |p.handles|
      ensures ReadBlock(file, p.handles[b], verify).Some?
    {
      assert RowsAt(file, p.handles[b], p.blocks[b]);
      EntriesAnswer(file, verify, p.handles[b], PairsOf(p.blocks[b]));
    }
  }

  lemma SameFirst(blocks: seq<seq<Row>>, rows: seq<Row>, k: StoredKey, r: Row)
    requires FlatRows(blocks) == rows
    ensures FirstFrom(blocks, k, r) <==> FirstRow(rows, k, r)
  {
    hide StoredLess, FlatRows;
    forall x
      ensures x in rows <==> exists b :: 0 <= b < |blocks| && x in blocks[b]
    {
      InFlat(blocks, x);
    }
  }
}
