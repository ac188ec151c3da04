/** The order of a table: rows in blocks, and an index of short keys between the blocks.  Following the
    index leads to the block that holds what is looked for. */
module TableShapes {
  import opened Bytewise
  import opened TableFormat
  import opened FilterBlocks

  datatype Row = Row(key: StoredKey, value: Bytes)

  datatype IndexEntry = IndexEntry(key: StoredKey, handle: Handle)

  ghost predicate RowsAscend(rows: seq<Row>) {
    forall i, j :: 0 <= i < j < |rows| ==> StoredLess(rows[i].key, rows[j].key)
  }

  function LastKey(rows: seq<Row>): StoredKey
    requires rows != []
  {
    rows[|rows| - 1].key
  }

  /** Every row before the key. */
  ghost predicate AllBefore(rows: seq<Row>, k: StoredKey) {
    forall r :: r in rows ==> StoredLess(r.key, k)
  }

  /** Every row after the key. */
  ghost predicate AllAfter(k: StoredKey, rows: seq<Row>) {
    forall r :: r in rows ==> StoredLess(k, r.key)
  }

  /** The index key stands at the end of its block: it is the last key there, or a key between users. */
  ghost predicate Closes(sep: StoredKey, rows: seq<Row>, later: seq<Row>) {
    && rows != []
    && !StoredLess(sep, LastKey(rows)) && AllAfter(sep, later)
    && (sep == LastKey(rows) || forall r :: r in later ==> BytesLess(sep.user, r.key.user))
  }

  /** The blocks ascend, and each but perhaps the last is closed by its index key. */
  ghost predicate Indexed(blocks: seq<seq<Row>>, index: seq<IndexEntry>, handles: seq<Handle>) {
    && |handles| == |blocks| >= |index|
    && (forall b :: 0 <= b < |blocks| ==> blocks[b] != [] && RowsAscend(blocks[b]))
    && (forall b, c :: 0 <= b < c < |blocks| ==> AllAfter(LastKey(blocks[b]), blocks[c]))
    && (forall b :: 0 <= b < |index| ==> index[b].handle == handles[b])
    && (forall b :: 0 <= b < |index| ==> Closes(index[b].key, blocks[b], []))
    && (forall b, c :: 0 <= b < |index| && b < c < |blocks| ==> Closes(index[b].key, blocks[b], blocks[c]))
  }

  /** Every key of a block is in the filter for the block's offset. */
  ghost predicate FilterCovers(lists: seq<seq<Bytes>>, blocks: seq<seq<Row>>, handles: seq<Handle>) {
    && |handles| == |blocks|
    && forall b, r :: 0 <= b < |blocks| && r in blocks[b] ==> InList(lists, handles[b].offset / BASE, r.key.user)
  }

  ghost predicate InList(lists: seq<seq<Bytes>>, i: nat, key: Bytes) {
    i < |lists| && key in lists[i]
  }

  lemma {:induction false} NotAfterLast(rows: seq<Row>, k: StoredKey)
    requires rows != [] && RowsAscend(rows) && StoredLess(LastKey(rows), k)
    ensures AllBefore(rows, k)
  {
    forall r | r in rows
      ensures StoredLess(r.key, k)
    {
      var i :| 0 <= i < |rows| && rows[i] == r;
      if i < |rows| - 1 {
        StoredOrder(r.key, LastKey(rows), k);
      }
    }
  }

  // ------------------------------------------------------------------ building

  /** What a table builder has so far. */
  ghost predicate Shape(blocks: seq<seq<Row>>, index: seq<IndexEntry>, handles: seq<Handle>, dataBlock: seq<Row>,
                        pending: bool, lastKey: StoredKey, handle: Handle) {
    && Indexed(blocks, index, handles)
    && |index| + (if pending then 1 else 0) == |blocks|
    && RowsAscend(dataBlock)
    && (forall b :: 0 <= b < |blocks| ==> AllAfter(LastKey(blocks[b]), dataBlock))
    && (forall b :: 0 <= b < |index| ==> Closes(index[b].key, blocks[b], dataBlock))
    && (pending ==> dataBlock == [] && lastKey == LastKey(blocks[|blocks| - 1]) && handle == handles[|handles| - 1])
    && (dataBlock != [] ==> lastKey == LastKey(dataBlock))
  }

  ghost predicate AllBlocksBefore(blocks: seq<seq<Row>>, k: StoredKey) {
    forall b :: 0 <= b < |blocks| ==> AllBefore(blocks[b], k)
  }

  /** The index entry of the last block, once the key that follows it is known. */
  lemma CloseShape(blocks: seq<seq<Row>>, index: seq<IndexEntry>, handles: seq<Handle>, lastKey: StoredKey,
      handle: Handle, sep: StoredKey)
    requires Shape(blocks, index, handles, [], true, lastKey, handle)
    requires !StoredLess(sep, lastKey)
    ensures Shape(blocks, index + [IndexEntry(sep, handle)], handles, [], false, lastKey, handle)
  {
    hide StoredLess;
    var b := |blocks| - 1;
    var index' := index + [IndexEntry(sep, handle)];
    assert blocks[b] != [] && lastKey == LastKey(blocks[b]);
    assert sep == lastKey || Closes(sep, blocks[b], []);
  }

  lemma RowShape(blocks: seq<seq<Row>>, index: seq<IndexEntry>, handles: seq<Handle>, dataBlock: seq<Row>,
      lastKey: StoredKey, handle: Handle, row: Row)
    requires Shape(blocks, index, handles, dataBlock, false, lastKey, handle)
    requires AllBefore(dataBlock, row.key) && AllBlocksBefore(blocks, row.key)
    requires forall b :: 0 <= b < |index| ==> Closes(index[b].key, blocks[b], [row])
    ensures Shape(blocks, index, handles, dataBlock + [row], false, row.key, handle)
  {
    hide StoredLess, BytesLess;
    var longer := dataBlock + [row];
    forall b | 0 <= b < |blocks|
      ensures AllAfter(LastKey(blocks[b]), longer)
    {
      assert blocks[b] != [] && blocks[b][|blocks[b]| - 1] in blocks[b];
    }
    forall b | 0 <= b < |index|
      ensures Closes(index[b].key, blocks[b], longer)
    {
      assert Closes(index[b].key, blocks[b], dataBlock) && Closes(index[b].key, blocks[b], [row]);
      assert row in [row];
    }
    forall i, j | 0 <= i < j < |longer|
      ensures StoredLess(longer[i].key, longer[j].key)
    {
      if j == |dataBlock| {
        assert dataBlock[i] in dataBlock;
      }
    }
  }

  lemma FlushShape(blocks: seq<seq<Row>>, index: seq<IndexEntry>, handles: seq<Handle>, dataBlock: seq<Row>,
      lastKey: StoredKey, handle: Handle, written: Handle)
    requires Shape(blocks, index, handles, dataBlock, false, lastKey, handle) && dataBlock != []
    ensures Shape(blocks + [dataBlock], index, handles + [written], [], true, lastKey, written)
  {
    hide StoredLess, BytesLess;
    var blocks' := blocks + [dataBlock];
    forall b | 0 <= b < |index|
      ensures Closes(index[b].key, blocks'[b], [])
    {
      assert Closes(index[b].key, blocks[b], dataBlock);
    }
  }

  /** A later key is past every index key so far, by user if the index key is not a stored one. */
  lemma {:induction false} ClosedBefore(blocks: seq<seq<Row>>, index: seq<IndexEntry>, handles: seq<Handle>, row: Row,
      b: nat)
    requires Indexed(blocks, index, handles) && b < |index| && AllBlocksBefore(blocks, row.key)
    requires b + 1 < |blocks| || Closes(index[b].key, blocks[b], [row])
    ensures Closes(index[b].key, blocks[b], [row])
  {
    if b + 1 < |blocks| {
      var next := blocks[b + 1];
      assert Closes(index[b].key, blocks[b], next);
      var r := next[0];
      assert r in next && AllBefore(next, row.key);
      StoredOrder(index[b].key, r.key, row.key);
      if index[b].key != LastKey(blocks[b]) {
        BytesThenStored(index[b].key.user, r.key, row.key);
      }
    }
  }

  lemma BytesThenStored(a: Bytes, b: StoredKey, c: StoredKey)
    requires BytesLess(a, b.user) && StoredLess(b, c)
    ensures BytesLess(a, c.user)
  {
    if b.user != c.user {
      Bytewise.Transitive(a, b.user, c.user);
    }
  }

  // ------------------------------------------------------------------ looking up

  /** The first row at or after the key, among all blocks. */
  ghost predicate FirstFrom(blocks: seq<seq<Row>>, k: StoredKey, r: Row) {
    && (exists b :: 0 <= b < |blocks| && r in blocks[b])
    && !StoredLess(r.key, k)
    && (forall b, x :: 0 <= b < |blocks| && x in blocks[b] && !StoredLess(x.key, k) ==> !StoredLess(x.key, r.key))
  }

  lemma HandleOf(blocks: seq<seq<Row>>, index: seq<IndexEntry>, handles: seq<Handle>, b: nat)
    requires Indexed(blocks, index, handles) && b < |index|
    ensures b < |handles| == |blocks| && index[b].handle == handles[b]
  {
  }

  /** All rows of blocks whose index key is before the key are before it too. */
  lemma EarlierBlocks(blocks: seq<seq<Row>>, index: seq<IndexEntry>, handles: seq<Handle>, k: StoredKey, b: nat)
    requires Indexed(blocks, index, handles) && b <= |index| && forall c :: 0 <= c < b ==> StoredLess(index[c].key, k)
    ensures forall c, x :: 0 <= c < b && x in blocks[c] ==> StoredLess(x.key, k)
  {
    forall c, x | 0 <= c < b && x in blocks[c]
      ensures StoredLess(x.key, k)
    {
      assert Closes(index[c].key, blocks[c], []);
      StoredOrder(index[c].key, LastKey(blocks[c]), k);
      StoredOrder(LastKey(blocks[c]), index[c].key, k);
      NotAfterLast(blocks[c], k);
    }
  }

  lemma NothingFrom(blocks: seq<seq<Row>>, index: seq<IndexEntry>, handles: seq<Handle>, k: StoredKey)
    requires Indexed(blocks, index, handles) && |index| == |blocks| && forall c :: 0 <= c < |index| ==>
               StoredLess(index[c].key, k)
    ensures forall r :: !FirstFrom(blocks, k, r)
  {
    EarlierBlocks(blocks, index, handles, k, |index|);
    hide Indexed;
  }

  /** A row of a later block has a later user, or the block before holds a nearer row. */
  lemma LaterRow(blocks: seq<seq<Row>>, index: seq<IndexEntry>, handles: seq<Handle>, k: StoredKey, b: nat, c: nat,
      r: Row)
    requires Indexed(blocks, index, handles) && b < |index| && !StoredLess(index[b].key, k)
    requires b < c < |blocks| && r in blocks[c]
    ensures blocks[b] != [] && StoredLess(LastKey(blocks[b]), r.key)
    ensures BytesLess(k.user, r.key.user) || !StoredLess(LastKey(blocks[b]), k)
  {
    var sep := index[b].key;
    assert Closes(sep, blocks[b], blocks[c]) && AllAfter(LastKey(blocks[b]), blocks[c]);
    if sep != LastKey(blocks[b]) {
      Total(k.user, sep.user);
      assert k.user == sep.user || BytesLess(k.user, sep.user);
      if k.user != sep.user {
        Bytewise.Transitive(k.user, sep.user, r.key.user);
      }
    }
  }

  lemma SomeBlock(blocks: seq<seq<Row>>, k: StoredKey, r: Row) returns (c: nat)
    requires FirstFrom(blocks, k, r)
    ensures c < |blocks| && r in blocks[c] && !StoredLess(r.key, k)
  {
    c :| 0 <= c < |blocks| && r in blocks[c];
  }

  lemma LaterIsNotFirst(blocks: seq<seq<Row>>, index: seq<IndexEntry>, handles: seq<Handle>, k: StoredKey, b: nat,
      c: nat, r: Row)
    requires Indexed(blocks, index, handles) && b < |index| && !StoredLess(index[b].key, k)
    requires b < c < |blocks| && r in blocks[c] && r.key.user == k.user
    ensures !FirstFrom(blocks, k, r)
  {
    LaterRow(blocks, index, handles, k, b, c, r);
    hide Indexed;
    Irreflexive(k.user);
    LastRow(blocks[b]);
  }

  /** A first row with the key's user lies in the block the index points to. */
  lemma InThatBlock(blocks: seq<seq<Row>>, index: seq<IndexEntry>, handles: seq<Handle>, k: StoredKey, b: nat, r: Row)
    requires Indexed(blocks, index, handles) && |index| == |blocks| && b < |index|
    requires (forall c :: 0 <= c < b ==> StoredLess(index[c].key, k)) && !StoredLess(index[b].key, k)
    requires FirstFrom(blocks, k, r) && r.key.user == k.user
    ensures r in blocks[b]
  {
    hide FirstFrom, StoredLess, Indexed;
    EarlierBlocks(blocks, index, handles, k, b);
    var c := SomeBlock(blocks, k, r);
    if c > b {
      LaterIsNotFirst(blocks, index, handles, k, b, c, r);
    }
  }

  lemma LastRow(rows: seq<Row>)
    requires rows != []
    ensures rows[|rows| - 1] in rows && rows[|rows| - 1].key == LastKey(rows)
  {
  }

  lemma FoundInBlock(blocks: seq<seq<Row>>, index: seq<IndexEntry>, handles: seq<Handle>, k: StoredKey, b: nat, p: nat)
    requires Indexed(blocks, index, handles) && |index| == |blocks| && b < |index|
    requires (forall c :: 0 <= c < b ==> StoredLess(index[c].key, k)) && !StoredLess(index[b].key, k)
    requires p <= |blocks[b]| && (forall i :: 0 <= i < p ==> StoredLess(blocks[b][i].key, k))
             && (p < |blocks[b]| ==> !StoredLess(blocks[b][p].key, k))
    ensures p < |blocks[b]| ==> FirstFrom(blocks, k, blocks[b][p])
    ensures forall r :: FirstFrom(blocks, k, r) && r.key.user == k.user ==> p < |blocks[b]| && r == blocks[b][p]
  {
    var rows := blocks[b];
    if p < |rows| {
      FirstInBlock(blocks, index, handles, k, b, p);
    }
    forall r | FirstFrom(blocks, k, r) && r.key.user == k.user
      ensures p < |rows| && r == rows[p]
    {
      InThatBlock(blocks, index, handles, k, b, r);
      var i :| 0 <= i < |rows| && rows[i] == r;
      assert i >= p && p < |rows|;
      assert rows[p] in blocks[b];
      assert forall j :: p < j < |rows| ==> StoredLess(rows[p].key, rows[j].key);
      assert i <= p;
    }
  }

  lemma FirstInBlock(blocks: seq<seq<Row>>, index: seq<IndexEntry>, handles: seq<Handle>, k: StoredKey, b: nat, p: nat)
    requires Indexed(blocks, index, handles) && |index| == |blocks| && b < |index|
    requires (forall c :: 0 <= c < b ==> StoredLess(index[c].key, k)) && !StoredLess(index[b].key, k)
    requires p < |blocks[b]| && (forall i :: 0 <= i < p ==> StoredLess(blocks[b][i].key, k))
             && !StoredLess(blocks[b][p].key, k)
    ensures FirstFrom(blocks, k, blocks[b][p])
  {
    EarlierBlocks(blocks, index, handles, k, b);
    var rows := blocks[b];
    assert rows[p] in blocks[b];
    forall c, x | 0 <= c < |blocks| && x in blocks[c] && !StoredLess(x.key, k)
      ensures !StoredLess(x.key, rows[p].key)
    {
      if c == b {
        var i :| 0 <= i < |rows| && rows[i] == x;
        StoredOrder(rows[p].key, x.key, x.key);
      } else {
        assert c > b;
        LaterRow(blocks, index, handles, k, b, c, x);
        LastRow(rows);
        StoredOrder(rows[p].key, LastKey(rows), x.key);
        StoredOrder(rows[p].key, x.key, x.key);
      }
    }
  }
}
