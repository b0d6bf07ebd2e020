/** What the store promises its callers: the live-cell bookkeeping of
    `insert_block`, the reads after `insert_block` and `insert`, and the
    error discipline of the lookup chains. */
module StorageProperties {
  import opened Wrappers
  import opened Errors
  import opened Types
  import opened Keys
  import opened Serde
  import opened BlockCodec
  import opened Storage

  predicate Distinct(keys: seq<seq<byte>>) {
    forall i, j :: 0 <= i < j < |keys| ==> keys[i] != keys[j]
  }

  // ---------------------------------------------------------------------------
  // Live cells

  /** The `cells.delete` loop succeeds exactly when the keys are distinct and
      all present, and then removes exactly those keys. */
  lemma {:induction false} DeleteKeysSpec(table: Table, keys: seq<seq<byte>>)
    ensures var r := DeleteKeys(table, keys);
      && (r.Ok? <==> Distinct(keys) && forall i :: 0 <= i < |keys| ==> keys[i] in table)
      && (r.Ok? ==> r.value == table - (set key | key in keys))
    decreases |keys|
  {
    if keys != [] && keys[0] in table {
      var rest := keys[1..];
      DeleteKeysSpec(table - {keys[0]}, rest);
      assert forall i :: 0 < i < |keys| ==> keys[i] == rest[i - 1];
      assert (set key | key in keys) == {keys[0]} + (set key | key in rest);
    }
  }

  /** One transaction's update: it fails exactly on a spend of a cell that
      is not live (or a cell spent twice); otherwise the created cells are
      live, the spent ones that are not re-created are gone, and every other
      cell keeps its value. */
  lemma ApplyTransactionCellsSpec(cells: Table, tx: TransactionView)
    requires |tx.inner.outputs| <= U64_LIMIT
    ensures var spent := SpentCells(tx.inner.inputs);
      var created := CreatedCells(tx.hash, |tx.inner.outputs|);
      var r := ApplyTransactionCells(cells, tx);
      && (r.Ok? <==> Distinct(spent) && forall i :: 0 <= i < |spent| ==> spent[i] in cells)
      && (r.Ok? ==> forall key :: key in r.value <==> key in created || (key in cells && key !in spent))
      && (r.Ok? ==> forall key :: key in created ==> r.value[key] == Bool(true))
      && (r.Ok? ==> forall key :: key !in created && key in cells && key !in spent ==> r.value[key] == cells[key])
  {
    DeleteKeysSpec(cells, SpentCells(tx.inner.inputs));
    var remaining := DeleteKeys(cells, SpentCells(tx.inner.inputs));
    if remaining.Ok? {
      PutKeysSpec(remaining.value, CreatedCells(tx.hash, |tx.inner.outputs|), Bool(true));
    }
  }

  /** A cell no transaction of the block spends or creates keeps its state. */
  lemma {:induction false} UntouchedCellKept(cells: Table, txs: seq<TransactionView>, key: seq<byte>)
    requires OutputsAddressable(txs) && ApplyCellUpdates(cells, txs).Ok?
    requires forall j :: 0 <= j < |txs| ==>
      key !in SpentCells(txs[j].inner.inputs) && key !in CreatedCells(txs[j].hash, |txs[j].inner.outputs|)
    ensures var after := ApplyCellUpdates(cells, txs).value;
      && (key in after <==> key in cells)
      && (key in cells ==> after[key] == cells[key])
    decreases |txs|
  {
    if txs != [] {
      ApplyTransactionCellsSpec(cells, txs[0]);
      UntouchedCellKept(ApplyTransactionCells(cells, txs[0]).value, txs[1..], key);
    }
  }

  lemma {:induction false} LiveCellStaysLive(cells: Table, txs: seq<TransactionView>, key: seq<byte>)
    requires OutputsAddressable(txs) && ApplyCellUpdates(cells, txs).Ok?
    requires key in cells && cells[key] == Bool(true)
    requires forall j :: 0 <= j < |txs| ==> key !in SpentCells(txs[j].inner.inputs)
    ensures var after := ApplyCellUpdates(cells, txs).value;
      key in after && after[key] == Bool(true)
    decreases |txs|
  {
    if txs != [] {
      ApplyTransactionCellsSpec(cells, txs[0]);
      LiveCellStaysLive(ApplyTransactionCells(cells, txs[0]).value, txs[1..], key);
    }
  }

  /** An output created by transaction `k` and spent by no later transaction
      of the block is live afterwards. */
  lemma {:induction false} CreatedCellLive(cells: Table, txs: seq<TransactionView>, k: nat, key: seq<byte>)
    requires OutputsAddressable(txs) && ApplyCellUpdates(cells, txs).Ok?
    requires k < |txs| && key in CreatedCells(txs[k].hash, |txs[k].inner.outputs|)
    requires forall j :: k < j < |txs| ==> key !in SpentCells(txs[j].inner.inputs)
    ensures var after := ApplyCellUpdates(cells, txs).value;
      key in after && after[key] == Bool(true)
    decreases |txs|
  {
    ApplyTransactionCellsSpec(cells, txs[0]);
    var next := ApplyTransactionCells(cells, txs[0]).value;
    if k == 0 {
      LiveCellStaysLive(next, txs[1..], key);
    } else {
      CreatedCellLive(next, txs[1..], k - 1, key);
    }
  }

  lemma {:induction false} AbsentCellStaysAbsent(cells: Table, txs: seq<TransactionView>, key: seq<byte>)
    requires OutputsAddressable(txs) && ApplyCellUpdates(cells, txs).Ok?
    requires key !in cells
    requires forall j :: 0 <= j < |txs| ==> key !in CreatedCells(txs[j].hash, |txs[j].inner.outputs|)
    ensures key !in ApplyCellUpdates(cells, txs).value
    decreases |txs|
  {
    if txs != [] {
      ApplyTransactionCellsSpec(cells, txs[0]);
      AbsentCellStaysAbsent(ApplyTransactionCells(cells, txs[0]).value, txs[1..], key);
    }
  }

  /** A cell spent by transaction `k` and not re-created by it or a later
      transaction is gone afterwards. */
  lemma {:induction false} SpentCellGone(cells: Table, txs: seq<TransactionView>, k: nat, key: seq<byte>)
    requires OutputsAddressable(txs) && ApplyCellUpdates(cells, txs).Ok?
    requires k < |txs| && key in SpentCells(txs[k].inner.inputs)
    requires forall j :: k <= j < |txs| ==> key !in CreatedCells(txs[j].hash, |txs[j].inner.outputs|)
    ensures key !in ApplyCellUpdates(cells, txs).value
    decreases |txs|
  {
    ApplyTransactionCellsSpec(cells, txs[0]);
    var next := ApplyTransactionCells(cells, txs[0]).value;
    if k == 0 {
      assert key !in CreatedCells(txs[0].hash, |txs[0].inner.outputs|);
      AbsentCellStaysAbsent(next, txs[1..], key);
    } else {
      SpentCellGone(next, txs[1..], k - 1, key);
    }
  }

  /** Every cell a successful update spends was live before the block or
      created by an earlier transaction of it. */
  lemma {:induction false} SpentCellWasLive(cells: Table, txs: seq<TransactionView>, k: nat, key: seq<byte>)
    requires OutputsAddressable(txs) && ApplyCellUpdates(cells, txs).Ok?
    requires k < |txs| && key in SpentCells(txs[k].inner.inputs)
    ensures key in cells || exists j :: 0 <= j < k && key in CreatedCells(txs[j].hash, |txs[j].inner.outputs|)
    decreases |txs|
  {
    ApplyTransactionCellsSpec(cells, txs[0]);
    var next := ApplyTransactionCells(cells, txs[0]).value;
    if k > 0 {
      SpentCellWasLive(next, txs[1..], k - 1, key);
      if key !in next {
        var j :| 0 <= j < k - 1 && key in CreatedCells(txs[1..][j].hash, |txs[1..][j].inner.outputs|);
        assert txs[1..][j] == txs[j + 1];
      }
    }
  }

  // ---------------------------------------------------------------------------
  // Reads after insert_block

  /** The header records: both hash directions and the status record name
      this block; `max-number` is this block's number even when a higher
      one was stored before. */
  lemma InsertBlockThenSelectHeaders(cfg: Config, t: Tables, block: BlockView)
    requires SizesExact(cfg) && Addressable(block) && InsertBlock(cfg, t, block).Ok?
    ensures var after := InsertBlock(cfg, t, block).value;
      var n := block.header.inner.number;
      && SelectBlockHash(after, n) == Ok(Some(block.header.hash))
      && SelectBlockNumber(after, block.header.hash) == Ok(Some(n))
      && SelectMaxNumber(after) == Ok(Some(n))
  {
  }

  /** The block chain of lookups ends at the codec's output for this block. */
  lemma InsertBlockStoresCodecOutput(cfg: Config, t: Tables, block: BlockView)
    requires Lawful(cfg) && Addressable(block) && InsertBlock(cfg, t, block).Ok?
    ensures var after := InsertBlock(cfg, t, block).value;
      var (blockBytes, indexBytes) := SerializeBlockWithIndex(cfg, block);
      && after.indexes[U64Bytes(block.header.inner.number)] == Blob(indexBytes)
      && after.blocks[U64Bytes(block.header.inner.number)] == Blob(blockBytes)
      && LoadBlock(cfg, after, U64Bytes(block.header.inner.number))
         == Found(StoredBlock(BlockIndexOf(cfg, block), blockBytes))
  {
    FullRoundTrip(cfg, block);
  }

  /** Reading the block back, by number or by hash, gives the block. */
  lemma InsertBlockThenSelectBlock(cfg: Config, t: Tables, block: BlockView)
    requires Lawful(cfg) && Addressable(block) && InsertBlock(cfg, t, block).Ok?
    ensures var after := InsertBlock(cfg, t, block).value;
      var n := block.header.inner.number;
      && BlockReadable(cfg, after, U64Bytes(n))
      && SelectBlockByNumber(cfg, after, n) == Ok(Some(block))
      && BlockByHashReadable(cfg, after, block.header.hash)
      && SelectBlockByHash(cfg, after, block.header.hash) == Ok(Some(block))
  {
    FullRoundTrip(cfg, block);
    InsertBlockStoresCodecOutput(cfg, t, block);
  }

  /** After the location loop, the last slot holding a hash is what the
      location lookup of that hash finds. */
  lemma LocationOfLastSlot(table: Table, number: u64, hashes: seq<Hash>, k: nat)
    requires |hashes| <= U64_LIMIT && k < |hashes| && LastSlot(hashes, k)
    ensures var r := PutLocations(table, number, hashes);
      && LocationReadable(r, hashes[k])
      && LoadLocation(r, hashes[k]) == Found(Index(number, k))
  {
    PutLocationsDomain(table, number, hashes);
    PutLocationsLastWins(table, number, hashes, k);
    IndexRoundTrip(Index(number, k), []);
    assert IndexIntoBytes(Index(number, k)) + [] == IndexIntoBytes(Index(number, k));
  }

  /** Reading transaction `k` back by its hash gives it, unless a later
      transaction of the block has the same hash (then the later one wins). */
  lemma InsertBlockThenSelectTransaction(cfg: Config, t: Tables, block: BlockView, k: nat)
    requires Lawful(cfg) && Addressable(block) && InsertBlock(cfg, t, block).Ok?
    requires k < |block.transactions| && LastSlot(TransactionHashes(block.transactions), k)
    ensures var after := InsertBlock(cfg, t, block).value;
      && TransactionReadable(cfg, after, block.transactions[k].hash)
      && SelectTransaction(cfg, after, block.transactions[k].hash) == Ok(Some(block.transactions[k]))
  {
    LocationOfLastSlot(t.txs, block.header.inner.number, TransactionHashes(block.transactions), k);
    InsertBlockStoresCodecOutput(cfg, t, block);
    TransactionRoundTrip(cfg, block, k);
  }

  /** Reading uncle `k` back by its hash gives it, under the same proviso. */
  lemma InsertBlockThenSelectUncle(cfg: Config, t: Tables, block: BlockView, k: nat)
    requires Lawful(cfg) && Addressable(block) && InsertBlock(cfg, t, block).Ok?
    requires k < |block.uncles| && LastSlot(UncleHashes(block.uncles), k)
    ensures var after := InsertBlock(cfg, t, block).value;
      && UncleReadable(cfg, after, block.uncles[k].header.hash)
      && SelectUncleBlock(cfg, after, block.uncles[k].header.hash) == Ok(Some(block.uncles[k]))
  {
    LocationOfLastSlot(t.uncles, block.header.inner.number, UncleHashes(block.uncles), k);
    InsertBlockStoresCodecOutput(cfg, t, block);
    UncleRoundTrip(cfg, block, k);
  }

  /** Reading output `j` of transaction `k` gives that output alone. */
  lemma InsertBlockThenSelectCellOutput(cfg: Config, t: Tables, block: BlockView, k: nat, j: u32)
    requires Lawful(cfg) && Addressable(block) && InsertBlock(cfg, t, block).Ok?
    requires k < |block.transactions| && LastSlot(TransactionHashes(block.transactions), k)
    requires j < |block.transactions[k].inner.outputs|
    ensures var after := InsertBlock(cfg, t, block).value;
      && CellOutputReadable(cfg, after, block.transactions[k].hash, j)
      && SelectCellOutput(cfg, after, block.transactions[k].hash, j) == Ok(Some(block.transactions[k].inner.outputs[j]))
  {
    LocationOfLastSlot(t.txs, block.header.inner.number, TransactionHashes(block.transactions), k);
    InsertBlockStoresCodecOutput(cfg, t, block);
    CellOutputRoundTrip(cfg, block, k, j);
  }

  /** Re-inserting a block number leaves the old block's locations behind. A
      transaction of the first block that the second does not carry still
      points at `(number, k)`; when the second block has no slot `k`, reading
      it would index past the stored index (`block_index.transactions[index]`
      panics), so the read is not `TransactionReadable`. */
  lemma ReinsertLeavesStaleLocation(cfg: Config, t: Tables, first: BlockView, second: BlockView, k: nat)
    requires Lawful(cfg) && Addressable(first) && Addressable(second)
    requires second.header.inner.number == first.header.inner.number
    requires InsertBlock(cfg, t, first).Ok? && InsertBlock(cfg, InsertBlock(cfg, t, first).value, second).Ok?
    requires k < |first.transactions| && LastSlot(TransactionHashes(first.transactions), k)
    requires first.transactions[k].hash !in TransactionHashes(second.transactions)
    requires |second.transactions| <= k
    ensures var after := InsertBlock(cfg, InsertBlock(cfg, t, first).value, second).value;
      !TransactionReadable(cfg, after, first.transactions[k].hash)
  {
    var middle := InsertBlock(cfg, t, first).value;
    var hash := first.transactions[k].hash;
    InsertBlockStoresLocation(cfg, t, first, k);
    InsertBlockKeepsOtherLocation(cfg, middle, second, hash);
    InsertBlockIndexShape(cfg, middle, second);
    StaleLocationUnreadable(cfg, InsertBlock(cfg, middle, second).value, hash, first.header.inner.number, k);
  }

  /** The `txs` entry of transaction `k` encodes `(number, k)` when no later slot repeats its hash. */
  lemma InsertBlockStoresLocation(cfg: Config, t: Tables, block: BlockView, k: nat)
    requires SizesExact(cfg) && Addressable(block) && InsertBlock(cfg, t, block).Ok?
    requires k < |block.transactions| && LastSlot(TransactionHashes(block.transactions), k)
    ensures var after := InsertBlock(cfg, t, block).value;
      var hash := block.transactions[k].hash;
      hash in after.txs && after.txs[hash] == Blob(IndexIntoBytes(Index(block.header.inner.number, k)))
  {
    PutLocationsLastWins(t.txs, block.header.inner.number, TransactionHashes(block.transactions), k);
  }

  /** A hash the block does not carry keeps its `txs` entry. */
  lemma InsertBlockKeepsOtherLocation(cfg: Config, t: Tables, block: BlockView, hash: Hash)
    requires SizesExact(cfg) && Addressable(block) && InsertBlock(cfg, t, block).Ok?
    requires hash in t.txs && hash !in TransactionHashes(block.transactions)
    ensures var after := InsertBlock(cfg, t, block).value;
      hash in after.txs && after.txs[hash] == t.txs[hash]
  {
    PutLocationsDomain(t.txs, block.header.inner.number, TransactionHashes(block.transactions));
  }

  /** The stored index has one transaction index per transaction of the block. */
  lemma InsertBlockIndexShape(cfg: Config, t: Tables, block: BlockView)
    requires Lawful(cfg) && Addressable(block) && InsertBlock(cfg, t, block).Ok?
    ensures var stored := LoadBlock(cfg, InsertBlock(cfg, t, block).value, U64Bytes(block.header.inner.number));
      stored.Found? && |stored.value.index.transactions| == |block.transactions|
  {
    InsertBlockStoresCodecOutput(cfg, t, block);
    SerializeBlockWithIndexLaysOut(cfg, block);
  }

  /** A location past the end of the stored index's transactions is unreadable. */
  lemma StaleLocationUnreadable(cfg: Config, t: Tables, hash: Hash, number: u64, k: nat)
    requires k < U64_LIMIT
    requires hash in t.txs && t.txs[hash] == Blob(IndexIntoBytes(Index(number, k)))
    requires LoadBlock(cfg, t, U64Bytes(number)).Found?
    requires |LoadBlock(cfg, t, U64Bytes(number)).value.index.transactions| <= k
    ensures !TransactionReadable(cfg, t, hash)
  {
    IndexRoundTrip(Index(number, k), []);
    assert IndexIntoBytes(Index(number, k)) + [] == IndexIntoBytes(Index(number, k));
  }

  /** The live-cell key of output `j` of `hash`, as `select_cell_status` builds it. */
  function CellKey(hash: Hash, j: u32): (r: seq<byte>)
    ensures |r| == 36
  {
    CellIndexIntoBytes(CellIndex(hash, j))
  }

  /** An output of the block that no later transaction of the block spends
      is live afterwards. */
  lemma InsertBlockThenCellLive(cfg: Config, t: Tables, block: BlockView, k: nat, j: u32)
    requires SizesExact(cfg) && Addressable(block) && InsertBlock(cfg, t, block).Ok?
    requires k < |block.transactions| && j < |block.transactions[k].inner.outputs|
    requires forall m :: k < m < |block.transactions| ==>
      CellKey(block.transactions[k].hash, j) !in SpentCells(block.transactions[m].inner.inputs)
    ensures SelectCellStatus(InsertBlock(cfg, t, block).value, block.transactions[k].hash, j) == Ok(Some(()))
  {
    var tx := block.transactions[k];
    assert CreatedCells(tx.hash, |tx.inner.outputs|)[j] == CellKey(tx.hash, j);
    CreatedCellLive(t.cells, block.transactions, k, CellKey(tx.hash, j));
    InsertBlockCells(cfg, t, block);
  }

  /** A cell an input of transaction `k` spends, and that neither it nor a
      later transaction re-creates, is not live afterwards. */
  lemma InsertBlockThenCellSpent(cfg: Config, t: Tables, block: BlockView, k: nat, hash: Hash, j: u32)
    requires SizesExact(cfg) && Addressable(block) && InsertBlock(cfg, t, block).Ok?
    requires k < |block.transactions| && CellKey(hash, j) in SpentCells(block.transactions[k].inner.inputs)
    requires forall m :: k <= m < |block.transactions| ==>
      CellKey(hash, j) !in CreatedCells(block.transactions[m].hash, |block.transactions[m].inner.outputs|)
    ensures SelectCellStatus(InsertBlock(cfg, t, block).value, hash, j) == Ok(None)
  {
    SpentCellGone(t.cells, block.transactions, k, CellKey(hash, j));
    InsertBlockCells(cfg, t, block);
  }

  /** A block that spends a cell which is neither live nor created by an
      earlier transaction of the block is rejected with the engine's
      not-found error, and the store is left as it was. */
  lemma InsertBlockRejectsUnknownSpend(cfg: Config, t: Tables, block: BlockView, k: nat, key: seq<byte>)
    requires SizesExact(cfg) && Addressable(block)
    requires k < |block.transactions| && key in SpentCells(block.transactions[k].inner.inputs)
    requires key !in t.cells
    requires forall m :: 0 <= m < k ==>
      key !in CreatedCells(block.transactions[m].hash, |block.transactions[m].inner.outputs|)
    ensures InsertBlock(cfg, t, block) == Err(Store("not found"))
  {
    if InsertBlock(cfg, t, block).Ok? {
      SpentCellWasLive(t.cells, block.transactions, k, key);
    }
  }

  /** `insert_block` writes only this block's keys: the number key, the
      hash key, the status key and the block's uncle and transaction hashes
      (for the live cells see `InsertBlockCellsFrame`). */
  lemma InsertBlockFrame(cfg: Config, t: Tables, block: BlockView)
    requires SizesExact(cfg) && Addressable(block) && InsertBlock(cfg, t, block).Ok?
    ensures var after := InsertBlock(cfg, t, block).value;
      var nb := U64Bytes(block.header.inner.number);
      && after.indexes - {nb} == t.indexes - {nb}
      && after.blocks - {nb} == t.blocks - {nb}
      && after.hashes - {nb} == t.hashes - {nb}
      && after.numbers - {block.header.hash} == t.numbers - {block.header.hash}
      && after.status - {MAX_NUMBER_KEY} == t.status - {MAX_NUMBER_KEY}
      && after.uncles - (set h | h in UncleHashes(block.uncles)) == t.uncles - (set h | h in UncleHashes(block.uncles))
      && after.txs - (set h | h in TransactionHashes(block.transactions)) == t.txs - (set h | h in TransactionHashes(block.transactions))
      && after.custom == t.custom
  {
    var encoded, cells := SerializeBlockWithIndex(cfg, block), ApplyCellUpdates(t.cells, block.transactions).value;
    StoreBlockFrame(t, block, encoded, cells);
    StoreBlockOtherKeysFrame(t, block, encoded, cells);
    StoreBlockLocationsFrame(t, block, encoded, cells);
  }

  lemma StoreBlockFrame(t: Tables, block: BlockView, encoded: (seq<byte>, seq<byte>), cells: Table)
    requires Addressable(block)
    ensures var after := StoreBlock(t, block, encoded, cells);
      var nb := U64Bytes(block.header.inner.number);
      && after.indexes - {nb} == t.indexes - {nb}
      && after.blocks - {nb} == t.blocks - {nb}
      && after.hashes - {nb} == t.hashes - {nb}
  {
  }

  lemma StoreBlockOtherKeysFrame(t: Tables, block: BlockView, encoded: (seq<byte>, seq<byte>), cells: Table)
    requires Addressable(block)
    ensures var after := StoreBlock(t, block, encoded, cells);
      && after.numbers - {block.header.hash} == t.numbers - {block.header.hash}
      && after.status - {MAX_NUMBER_KEY} == t.status - {MAX_NUMBER_KEY}
      && after.custom == t.custom
  {
  }

  lemma StoreBlockLocationsFrame(t: Tables, block: BlockView, encoded: (seq<byte>, seq<byte>), cells: Table)
    requires Addressable(block)
    ensures var after := StoreBlock(t, block, encoded, cells);
      && after.uncles - (set h | h in UncleHashes(block.uncles)) == t.uncles - (set h | h in UncleHashes(block.uncles))
      && after.txs - (set h | h in TransactionHashes(block.transactions)) == t.txs - (set h | h in TransactionHashes(block.transactions))
  {
    PutLocationsFrame(t.uncles, block.header.inner.number, UncleHashes(block.uncles));
    PutLocationsFrame(t.txs, block.header.inner.number, TransactionHashes(block.transactions));
  }

  lemma PutLocationsFrame(table: Table, number: u64, hashes: seq<Hash>)
    requires |hashes| <= U64_LIMIT
    ensures PutLocations(table, number, hashes) - (set h | h in hashes) == table - (set h | h in hashes)
  {
    PutLocationsDomain(table, number, hashes);
  }

  /** Where the live-cell table after `insert_block` comes from. */
  lemma InsertBlockCells(cfg: Config, t: Tables, block: BlockView)
    requires SizesExact(cfg) && Addressable(block) && InsertBlock(cfg, t, block).Ok?
    ensures InsertBlock(cfg, t, block).value.cells == ApplyCellUpdates(t.cells, block.transactions).value
  {
  }

  /** The live cells of the block's untouched keys are as before. */
  lemma InsertBlockCellsFrame(cfg: Config, t: Tables, block: BlockView, key: seq<byte>)
    requires SizesExact(cfg) && Addressable(block) && InsertBlock(cfg, t, block).Ok?
    requires forall m :: 0 <= m < |block.transactions| ==>
      && key !in SpentCells(block.transactions[m].inner.inputs)
      && key !in CreatedCells(block.transactions[m].hash, |block.transactions[m].inner.outputs|)
    ensures var after := InsertBlock(cfg, t, block).value;
      && (key in after.cells <==> key in t.cells)
      && (key in t.cells ==> after.cells[key] == t.cells[key])
  {
    UntouchedCellKept(t.cells, block.transactions, key);
    InsertBlockCells(cfg, t, block);
  }

  // ---------------------------------------------------------------------------
  // Lookup chains

  /** A chain that finds its location but then misses the `indexes` entry,
      or finds an index blob but misses the `blocks` entry, answers `Ok(None)`. */
  lemma LaterMissingLinkGivesNone(cfg: Config, t: Tables, hash: Hash, cellIndex: u32)
    requires TransactionReadable(cfg, t, hash) && CellOutputReadable(cfg, t, hash, cellIndex)
    requires hash in t.txs && t.txs[hash].Blob?
    ensures var nb := U64Bytes(IndexFromSlice(t.txs[hash].bytes).number);
      nb !in t.indexes || (t.indexes[nb].Blob? && nb !in t.blocks) ==>
        && SelectTransaction(cfg, t, hash) == Ok(None)
        && SelectCellOutput(cfg, t, hash, cellIndex) == Ok(None)
  {
  }

  /** For the by-number query: an index blob without a block entry answers
      `Ok(None)`, and an index blob that does not decode is a `Serde` error. */
  lemma BlockByNumberLaterLinks(cfg: Config, t: Tables, number: u64)
    ensures var nb := U64Bytes(number);
      (nb in t.indexes && t.indexes[nb].Blob? && nb !in t.blocks) ==>
        BlockReadable(cfg, t, nb) && SelectBlockByNumber(cfg, t, number) == Ok(None)
    ensures var nb := U64Bytes(number);
      (nb in t.indexes && t.indexes[nb].Blob? && nb in t.blocks && t.blocks[nb].Blob?
       && cfg.index.dec(t.indexes[nb].bytes).None?) ==>
        BlockReadable(cfg, t, nb) && SelectBlockByNumber(cfg, t, number) == Err(Serde)
  {
  }

  /** The same for the uncle chain and the by-hash block chain. */
  lemma LaterMissingLinkGivesNoneForUncleAndBlock(cfg: Config, t: Tables, hash: Hash)
    requires UncleReadable(cfg, t, hash) && BlockByHashReadable(cfg, t, hash)
    ensures hash in t.uncles && t.uncles[hash].Blob? ==>
      var nb := U64Bytes(IndexFromSlice(t.uncles[hash].bytes).number);
      nb !in t.indexes || (t.indexes[nb].Blob? && nb !in t.blocks) ==> SelectUncleBlock(cfg, t, hash) == Ok(None)
    ensures hash in t.numbers && t.numbers[hash].U64? ==>
      var nb := U64Bytes(t.numbers[hash].n);
      nb !in t.indexes || (t.indexes[nb].Blob? && nb !in t.blocks) ==> SelectBlockByHash(cfg, t, hash) == Ok(None)
  {
  }

  /** A stored value of the wrong kind in a header table or in the custom
      table is a corruption, never an absence. */
  lemma WrongTagIsCorruption(t: Tables, number: u64, hash: Hash, key: seq<byte>)
    ensures hash in t.numbers && !t.numbers[hash].U64? ==> SelectBlockNumber(t, hash).Err? && SelectBlockNumber(t, hash).error.Corruption?
    ensures MAX_NUMBER_KEY in t.status && !t.status[MAX_NUMBER_KEY].U64? ==> SelectMaxNumber(t).Err? && SelectMaxNumber(t).error.Corruption?
    ensures var nb := U64Bytes(number);
      nb in t.hashes && !(t.hashes[nb].Blob? && |t.hashes[nb].bytes| == HASH_LENGTH) ==>
        SelectBlockHash(t, number).Err? && SelectBlockHash(t, number).error.Corruption?
    ensures key in t.custom && !t.custom[key].Blob? ==> Select(t, key).Err? && Select(t, key).error.Corruption?
  {
  }

  /** In the block queries a non-blob index or block entry, or a `numbers`
      entry that is not a number, is a corruption; such a read cannot panic. */
  lemma WrongTagInBlockIsCorruption(cfg: Config, t: Tables, number: u64, hash: Hash)
    ensures BlockTagWrong(t, U64Bytes(number)) ==>
      && BlockReadable(cfg, t, U64Bytes(number))
      && SelectBlockByNumber(cfg, t, number).Err? && SelectBlockByNumber(cfg, t, number).error.Corruption?
    ensures hash in t.numbers && !t.numbers[hash].U64? ==>
      && BlockByHashReadable(cfg, t, hash)
      && SelectBlockByHash(cfg, t, hash).Err? && SelectBlockByHash(cfg, t, hash).error.Corruption?
    ensures hash in t.numbers && t.numbers[hash].U64? && BlockTagWrong(t, U64Bytes(t.numbers[hash].n)) ==>
      && BlockByHashReadable(cfg, t, hash)
      && SelectBlockByHash(cfg, t, hash).Err? && SelectBlockByHash(cfg, t, hash).error.Corruption?
  {
  }

  /** A non-blob `uncles` or `txs` entry is a corruption for the uncle,
      transaction and cell-output queries. */
  lemma WrongTagInLocationIsCorruption(cfg: Config, t: Tables, hash: Hash, cellIndex: u32)
    ensures hash in t.uncles && !t.uncles[hash].Blob? ==>
      && UncleReadable(cfg, t, hash)
      && SelectUncleBlock(cfg, t, hash).Err? && SelectUncleBlock(cfg, t, hash).error.Corruption?
    ensures hash in t.txs && !t.txs[hash].Blob? ==>
      && TransactionReadable(cfg, t, hash)
      && SelectTransaction(cfg, t, hash).Err? && SelectTransaction(cfg, t, hash).error.Corruption?
      && CellOutputReadable(cfg, t, hash, cellIndex)
      && SelectCellOutput(cfg, t, hash, cellIndex).Err? && SelectCellOutput(cfg, t, hash, cellIndex).error.Corruption?
  {
  }

  /** Past the location, a non-blob index or block entry of the located block
      is a corruption for the uncle query. */
  lemma WrongTagAfterUncleLocationIsCorruption(cfg: Config, t: Tables, hash: Hash)
    ensures (hash in t.uncles && t.uncles[hash].Blob? && |t.uncles[hash].bytes| >= 16
      && BlockTagWrong(t, U64Bytes(IndexFromSlice(t.uncles[hash].bytes).number))) ==>
        && UncleReadable(cfg, t, hash)
        && SelectUncleBlock(cfg, t, hash).Err? && SelectUncleBlock(cfg, t, hash).error.Corruption?
  {
  }

  /** The same for the transaction and cell-output queries. */
  lemma WrongTagAfterTransactionLocationIsCorruption(cfg: Config, t: Tables, hash: Hash, cellIndex: u32)
    ensures (hash in t.txs && t.txs[hash].Blob? && |t.txs[hash].bytes| >= 16
      && BlockTagWrong(t, U64Bytes(IndexFromSlice(t.txs[hash].bytes).number))) ==>
        && TransactionReadable(cfg, t, hash)
        && SelectTransaction(cfg, t, hash).Err? && SelectTransaction(cfg, t, hash).error.Corruption?
        && CellOutputReadable(cfg, t, hash, cellIndex)
        && SelectCellOutput(cfg, t, hash, cellIndex).Err? && SelectCellOutput(cfg, t, hash, cellIndex).error.Corruption?
  {
  }

  /** A fresh store answers every query with `Ok(None)` (and a cell status of none). */
  lemma EmptyStoreIsEmpty(cfg: Config, number: u64, hash: Hash, cellIndex: u32, key: seq<byte>)
    ensures SelectBlockHash(EMPTY, number) == Ok(None)
    ensures SelectBlockNumber(EMPTY, hash) == Ok(None)
    ensures SelectMaxNumber(EMPTY) == Ok(None)
    ensures SelectBlockByNumber(cfg, EMPTY, number) == Ok(None)
    ensures SelectBlockByHash(cfg, EMPTY, hash) == Ok(None)
    ensures SelectUncleBlock(cfg, EMPTY, hash) == Ok(None)
    ensures SelectTransaction(cfg, EMPTY, hash) == Ok(None)
    ensures SelectCellOutput(cfg, EMPTY, hash, cellIndex) == Ok(None)
    ensures SelectCellStatus(EMPTY, hash, cellIndex) == Ok(None)
    ensures Select(EMPTY, key) == Ok(None)
  {
  }

  // ---------------------------------------------------------------------------
  // The custom table

  /** `select` after `insert` reads the value back; every other key of the
      custom table and every other table are unchanged. */
  lemma InsertThenSelect(t: Tables, key: seq<byte>, value: seq<byte>, other: seq<byte>)
    ensures Select(Insert(t, key, value), key) == Ok(Some(value))
    ensures other != key ==> Select(Insert(t, key, value), other) == Select(t, other)
    ensures Insert(t, key, value).(custom := t.custom) == t
  {
  }
}
