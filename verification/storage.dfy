/** The storage engine of client/src/storage.rs: nine key-value tables held
    as maps, `insert_block` as one atomic state transformer, and the lookup
    chains of the `select_*` queries. Every write transaction is one map
    update; the engine's own I/O, locking and handles are not modelled. */
module Storage {
  import opened Wrappers
  import opened Errors
  import opened Types
  import opened Keys
  import opened Serde
  import opened BlockCodec

  /** The kinds of value the engine stores (`rkv::Value`); the kinds the
      store never writes stand for every other tag a corrupted table may hold. */
  datatype Value =
    | Bool(b: bool)
    | U64(n: u64)
    | I64(i: int)
    | Str(s: string)
    | Json(s: string)
    | Blob(bytes: seq<byte>)

  type Table = map<seq<byte>, Value>

  /** The nine named tables of one environment. */
  datatype Tables = Tables(
    indexes: Table,  // block number -> encoded block index
    blocks: Table,   // block number -> block buffer
    hashes: Table,   // block number -> block hash
    numbers: Table,  // block hash -> block number
    uncles: Table,   // uncle hash -> (block number, slot)
    txs: Table,      // transaction hash -> (block number, slot)
    cells: Table,    // live cells: (transaction hash, output index) -> marker
    status: Table,   // "max-number" -> block number
    custom: Table)   // caller-defined key -> value

  const EMPTY: Tables := Tables(map[], map[], map[], map[], map[], map[], map[], map[], map[])

  /** The ASCII bytes of the status key "max-number". */
  const MAX_NUMBER_KEY: seq<byte> := [109, 97, 120, 45, 110, 117, 109, 98, 101, 114]

  function Get(table: Table, key: seq<byte>): (r: Option<Value>)
    ensures r.Some? <==> key in table
    ensures r.Some? ==> r.value == table[key]
  {
    if key in table then Some(table[key]) else None
  }

  /** The state of a lookup chain: a value to continue with, a missing link
      (the query answers `Ok(None)`), or an error. */
  datatype Lookup<+T> = Found(value: T) | Missing | Failed(error: Error) {

    predicate IsFailure() {
      !Found?
    }

    function PropagateFailure<U>(): Lookup<U>
      requires IsFailure()
    {
      if Missing? then Missing else Failed(error)
    }

    function Extract(): T
      requires Found?
    {
      value
    }

    /** What the query returns at the end of the chain. */
    function ToResult(): Result<Option<T>> {
      match this
      case Found(v) => Ok(Some(v))
      case Missing => Ok(None)
      case Failed(e) => Err(e)
    }
  }

  /** `return_ok_if_none!`: a missing table entry ends the query with `Ok(None)`. */
  function ReturnOkIfNone<T>(o: Option<T>): (r: Lookup<T>)
    ensures r.Failed? == false
    ensures r.Missing? <==> o.None?
    ensures r.Found? ==> r.value == o.value
  {
    match o
    case Some(v) => Found(v)
    case None => Missing
  }

  /** The `?` operator inside a query: an error ends the query with that error. */
  function Try<T>(r: Result<T>): (l: Lookup<T>)
    ensures l.Missing? == false
    ensures l.Found? <==> r.Ok?
    ensures l.Found? ==> l.value == r.value
    ensures l.Failed? ==> l.error == r.error
  {
    match r
    case Ok(v) => Found(v)
    case Err(e) => Failed(e)
  }

  /** `unpack_u64`: any tag but `U64` is a corruption, never an absence. */
  function UnpackU64(value: Value): (r: Result<u64>)
    ensures r.Ok? <==> value.U64?
    ensures r.Ok? ==> r.value == value.n
    ensures r.Err? ==> r.error.Corruption?
  {
    if value.U64? then Ok(value.n) else Err(Corruption("value should be number"))
  }

  /** `unpack_blob`: any tag but `Blob` is a corruption. */
  function UnpackBlob(value: Value): (r: Result<seq<byte>>)
    ensures r.Ok? <==> value.Blob?
    ensures r.Ok? ==> r.value == value.bytes
    ensures r.Err? ==> r.error.Corruption?
  {
    if value.Blob? then Ok(value.bytes) else Err(Corruption("value should be blob"))
  }

  /** `unpack_hash`: `H256::from_slice` accepts exactly 32 bytes. */
  function UnpackHash(bytes: seq<byte>): (r: Result<Hash>)
    ensures r.Ok? <==> |bytes| == HASH_LENGTH
    ensures r.Ok? ==> r.value == bytes
    ensures r.Err? ==> r.error.Corruption?
  {
    if |bytes| == HASH_LENGTH then Ok(bytes) else Err(Corruption("value should be hash"))
  }

  // ---------------------------------------------------------------------------
  // Writes

  /** The uncle hashes, in slot order. */
  function UncleHashes(uncles: seq<UncleBlockView>): (r: seq<Hash>)
    ensures |r| == |uncles|
    ensures forall k :: 0 <= k < |uncles| ==> r[k] == uncles[k].header.hash
  {
    seq(|uncles|, k requires 0 <= k < |uncles| => uncles[k].header.hash)
  }

  /** The transaction hashes, in slot order. */
  function TransactionHashes(txs: seq<TransactionView>): (r: seq<Hash>)
    ensures |r| == |txs|
    ensures forall k :: 0 <= k < |txs| ==> r[k] == txs[k].hash
  {
    seq(|txs|, k requires 0 <= k < |txs| => txs[k].hash)
  }

  /** No later slot repeats the hash at slot `k`. */
  predicate LastSlot(hashes: seq<Hash>, k: nat) {
    forall j :: k < j < |hashes| ==> hashes[j] != hashes[k]
  }

  /** The loops of `insert_block` that store `(number, slot)` under each
      uncle or transaction hash, in slot order (`PutLocationsDomain` and
      `PutLocationsLastWins` state what it leaves in the table). */
  function PutLocations(table: Table, number: u64, hashes: seq<Hash>): Table
    requires |hashes| <= U64_LIMIT
    decreases |hashes|
  {
    if hashes == [] then
      table
    else
      var last := |hashes| - 1;
      PutLocations(table, number, hashes[..last])[hashes[last] := Blob(IndexIntoBytes(Index(number, last)))]
  }

  /** Every hash is written and no other key changes. */
  lemma {:induction false} PutLocationsDomain(table: Table, number: u64, hashes: seq<Hash>)
    requires |hashes| <= U64_LIMIT
    ensures var r := PutLocations(table, number, hashes);
      && (forall key :: key in r <==> key in table || key in hashes)
      && (forall key :: key in table && key !in hashes ==> r[key] == table[key])
    decreases |hashes|
  {
    if hashes != [] {
      var last := |hashes| - 1;
      PutLocationsDomain(table, number, hashes[..last]);
      assert hashes == hashes[..last] + [hashes[last]];
    }
  }

  /** Under a hash, the slot that stays is the last one holding it. */
  lemma {:induction false} PutLocationsLastWins(table: Table, number: u64, hashes: seq<Hash>, k: nat)
    requires |hashes| <= U64_LIMIT && k < |hashes| && LastSlot(hashes, k)
    ensures var r := PutLocations(table, number, hashes);
      hashes[k] in r && r[hashes[k]] == Blob(IndexIntoBytes(Index(number, k)))
    decreases |hashes|
  {
    var last := |hashes| - 1;
    if k < last {
      var front := hashes[..last];
      assert LastSlot(front, k);
      PutLocationsLastWins(table, number, front, k);
      assert hashes[k] != hashes[last];
    }
  }

  /** The live-cell key an input consumes, when its `previous_output.cell` is present. */
  function SpendKey(input: CellInput): Option<seq<byte>> {
    match input.previousOutput.cell
    case Some(cell) => Some(CellIndexIntoBytes(CellIndex(cell.txHash, cell.index)))
    case None => None
  }

  /** The `index as u32` of `CellIndex::into_bytes`: an input naming output
      `2^32 + j` of a transaction consumes the key of its output `j`. */
  lemma SpendKeyWrapsAt32Bits(input: CellInput, cell: CellOutPoint)
    requires input.previousOutput.cell == Some(cell) && cell.index >= U32_LIMIT
    ensures SpendKey(input) == Some(CellIndexIntoBytes(CellIndex(cell.txHash, cell.index - U32_LIMIT)))
  {
    CellIndexWrapsAt32Bits(cell.txHash, cell.index);
  }

  /** The live-cell keys a transaction's inputs consume, in input order;
      inputs without a cell are skipped. */
  function SpentCells(inputs: seq<CellInput>): (r: seq<seq<byte>>)
    decreases |inputs|
  {
    if inputs == [] then
      []
    else
      var first := match SpendKey(inputs[0]) case Some(key) => [key] case None => [];
      first + SpentCells(inputs[1..])
  }

  /** A key is spent exactly when some input's previous cell encodes to it. */
  lemma {:induction false} SpentCellsMembers(inputs: seq<CellInput>)
    ensures forall key :: key in SpentCells(inputs) <==> exists i :: 0 <= i < |inputs| && SpendKey(inputs[i]) == Some(key)
    decreases |inputs|
  {
    if inputs != [] {
      SpentCellsMembers(inputs[1..]);
      forall key | (exists i :: 0 <= i < |inputs| && SpendKey(inputs[i]) == Some(key))
        ensures key in SpentCells(inputs)
      {
        var i :| 0 <= i < |inputs| && SpendKey(inputs[i]) == Some(key);
        if i > 0 {
          assert inputs[1..][i - 1] == inputs[i];
        }
      }
    }
  }

  /** The live-cell keys of outputs `0 .. count` of transaction `txHash`. */
  function CreatedCells(txHash: Hash, count: nat): (r: seq<seq<byte>>)
    requires count <= U64_LIMIT
    ensures |r| == count
    ensures forall j :: 0 <= j < count ==> r[j] == CellIndexIntoBytes(CellIndex(txHash, j))
    decreases count
  {
    if count == 0 then [] else CreatedCells(txHash, count - 1) + [CellIndexIntoBytes(CellIndex(txHash, count - 1))]
  }

  /** The `cells.delete` loop: deleting a key that is not there is the
      engine's not-found error, which aborts the whole write. */
  function DeleteKeys(table: Table, keys: seq<seq<byte>>): (r: Result<Table>)
    ensures r.Err? ==> r.error == Store("not found")
    decreases |keys|
  {
    if keys == [] then Ok(table)
    else if keys[0] !in table then Err(Store("not found"))
    else DeleteKeys(table - {keys[0]}, keys[1..])
  }

  /** The `cells.put` loop: every key marked with `value`. */
  function PutKeys(table: Table, keys: seq<seq<byte>>, value: Value): (r: Table)
    decreases |keys|
  {
    if keys == [] then table else PutKeys(table[keys[0] := value], keys[1..], value)
  }

  /** Every key is marked with `value` and every other key keeps its value. */
  lemma {:induction false} PutKeysSpec(table: Table, keys: seq<seq<byte>>, value: Value)
    ensures var r := PutKeys(table, keys, value);
      && (forall key :: key in r <==> key in table || key in keys)
      && (forall key :: key in keys ==> r[key] == value)
      && (forall key :: key in table && key !in keys ==> r[key] == table[key])
    decreases |keys|
  {
    if keys != [] {
      var next := table[keys[0] := value];
      PutKeysSpec(next, keys[1..], value);
      assert PutKeys(table, keys, value) == PutKeys(next, keys[1..], value);
      assert forall key :: key in keys <==> key == keys[0] || key in keys[1..];
      assert forall key :: key in next <==> key == keys[0] || key in table;
    }
  }

  /** One transaction's live-cell update: consumed cells leave the live set,
      then every output of the transaction enters it. */
  function ApplyTransactionCells(cells: Table, tx: TransactionView): (r: Result<Table>)
    requires |tx.inner.outputs| <= U64_LIMIT
    ensures r.Err? ==> r.error == Store("not found")
  {
    var remaining :- DeleteKeys(cells, SpentCells(tx.inner.inputs));
    Ok(PutKeys(remaining, CreatedCells(tx.hash, |tx.inner.outputs|), Bool(true)))
  }

  predicate OutputsAddressable(txs: seq<TransactionView>) {
    forall k :: 0 <= k < |txs| ==> |txs[k].inner.outputs| < U64_LIMIT
  }

  /** The live-cell updates of all transactions of a block, in block order. */
  function ApplyCellUpdates(cells: Table, txs: seq<TransactionView>): (r: Result<Table>)
    requires OutputsAddressable(txs)
    ensures r.Err? ==> r.error == Store("not found")
    decreases |txs|
  {
    if txs == [] then
      Ok(cells)
    else
      var next :- ApplyTransactionCells(cells, txs[0]);
      ApplyCellUpdates(next, txs[1..])
  }

  /** `insert_block`, as one write transaction: the index and the buffer under
      the block number, both hash directions, the location of every uncle and
      transaction, the live-cell updates and the status record. The writes to
      `txs` and `cells` share one loop in `insert_block`; the tables are disjoint,
      so they are computed separately here. If a delete fails the transaction
      is dropped uncommitted: the result is the error and no table changes. */
  function InsertBlock(cfg: Config, t: Tables, block: BlockView): (r: Result<Tables>)
    requires SizesExact(cfg) && Addressable(block)
    ensures r.Ok? <==> ApplyCellUpdates(t.cells, block.transactions).Ok?
    ensures r.Err? ==> r.error == Store("not found")
  {
    var cells :- ApplyCellUpdates(t.cells, block.transactions);
    Ok(StoreBlock(t, block, SerializeBlockWithIndex(cfg, block), cells))
  }

  /** The tables a committed `insert_block` leaves, given the codec's
      `(block buffer, encoded index)` and the updated live cells. */
  function StoreBlock(t: Tables, block: BlockView, encoded: (seq<byte>, seq<byte>), cells: Table): Tables
    requires Addressable(block)
  {
    var number := block.header.inner.number;
    var numberBytes := U64Bytes(number);
    var blockHash := block.header.hash;
    Tables(
      indexes := t.indexes[numberBytes := Blob(encoded.1)],
      blocks := t.blocks[numberBytes := Blob(encoded.0)],
      hashes := t.hashes[numberBytes := Blob(blockHash)],
      numbers := t.numbers[blockHash := U64(number)],
      uncles := PutLocations(t.uncles, number, UncleHashes(block.uncles)),
      txs := PutLocations(t.txs, number, TransactionHashes(block.transactions)),
      cells := cells,
      status := t.status[MAX_NUMBER_KEY := U64(number)],
      custom := t.custom)
  }

  /** `insert`: an opaque write into the custom table. */
  function Insert(t: Tables, key: seq<byte>, value: seq<byte>): Tables {
    t.(custom := t.custom[key := Blob(value)])
  }

  // ---------------------------------------------------------------------------
  // Lookup chains

  datatype StoredBlock = StoredBlock(index: BlockIndex, bytes: seq<byte>)

  /** The index entry under the number key, or the block entry after an index
      blob, holds a value that is not a blob. */
  predicate BlockTagWrong(t: Tables, numberBytes: seq<byte>) {
    && numberBytes in t.indexes
    && (!t.indexes[numberBytes].Blob? || (numberBytes in t.blocks && !t.blocks[numberBytes].Blob?))
  }

  /** The steps every block-reading query shares: the index blob, then the
      block blob, under the number key, then the index decoded. */
  function LoadBlock(cfg: Config, t: Tables, numberBytes: seq<byte>): (r: Lookup<StoredBlock>)
    ensures r.Missing? <==>
      (numberBytes !in t.indexes || (t.indexes[numberBytes].Blob? && numberBytes !in t.blocks))
    ensures r.Failed? ==> r.error.Corruption? || r.error == Serde
    ensures BlockTagWrong(t, numberBytes) ==> r.Failed? && r.error.Corruption?
    ensures r.Found? <==>
      && numberBytes in t.indexes && t.indexes[numberBytes].Blob?
      && numberBytes in t.blocks && t.blocks[numberBytes].Blob?
      && cfg.index.dec(t.indexes[numberBytes].bytes).Some?
    ensures r.Found? ==>
      && cfg.index.dec(t.indexes[numberBytes].bytes) == Some(r.value.index)
      && r.value.bytes == t.blocks[numberBytes].bytes
  {
    var indexValue :- ReturnOkIfNone(Get(t.indexes, numberBytes));
    var indexBytes :- Try(UnpackBlob(indexValue));
    var blockValue :- ReturnOkIfNone(Get(t.blocks, numberBytes));
    var blockBytes :- Try(UnpackBlob(blockValue));
    var index :- Try(Decode(cfg.index, indexBytes));
    Found(StoredBlock(index, blockBytes))
  }

  /** `Index::from_slice` panics on fewer than 16 bytes. */
  predicate LocationReadable(table: Table, key: seq<byte>) {
    key in table && table[key].Blob? ==> |table[key].bytes| >= 16
  }

  /** The location stored under an uncle or transaction hash: the one whose
      encoding is the first 16 bytes of the blob. */
  function LoadLocation(table: Table, key: seq<byte>): (r: Lookup<Index>)
    requires LocationReadable(table, key)
    ensures r.Missing? <==> key !in table
    ensures r.Failed? <==> key in table && !table[key].Blob?
    ensures r.Failed? ==> r.error.Corruption?
    ensures r.Found? ==> IndexIntoBytes(r.value) == table[key].bytes[..16]
  {
    var value :- ReturnOkIfNone(Get(table, key));
    var bytes :- Try(UnpackBlob(value));
    IndexFromSliceInverse(bytes);
    Found(IndexFromSlice(bytes))
  }

  // The `select_*` queries index and slice without checking, so a query panics when
  // the chain reaches a slot or a range the stored block does not have. The
  // predicates below say that this does not happen; the queries require them.

  predicate BlockReadable(cfg: Config, t: Tables, numberBytes: seq<byte>) {
    match LoadBlock(cfg, t, numberBytes)
    case Found(stored) => BlockFits(stored.index, |stored.bytes|)
    case _ => true
  }

  predicate BlockByHashReadable(cfg: Config, t: Tables, hash: Hash) {
    hash in t.numbers && t.numbers[hash].U64? ==> BlockReadable(cfg, t, U64Bytes(t.numbers[hash].n))
  }

  predicate UncleReadable(cfg: Config, t: Tables, hash: Hash) {
    && LocationReadable(t.uncles, hash)
    && match LoadLocation(t.uncles, hash)
       case Found(location) =>
         (match LoadBlock(cfg, t, U64Bytes(location.number))
          case Found(stored) =>
            location.slot < |stored.index.uncles| && UncleFits(stored.index.uncles[location.slot], |stored.bytes|)
          case _ => true)
       case _ => true
  }

  predicate TransactionReadable(cfg: Config, t: Tables, hash: Hash) {
    && LocationReadable(t.txs, hash)
    && match LoadLocation(t.txs, hash)
       case Found(location) =>
         (match LoadBlock(cfg, t, U64Bytes(location.number))
          case Found(stored) =>
            && location.slot < |stored.index.transactions|
            && TransactionFits(stored.index.transactions[location.slot], |stored.bytes|)
          case _ => true)
       case _ => true
  }

  predicate CellOutputReadable(cfg: Config, t: Tables, hash: Hash, cellIndex: u32) {
    && LocationReadable(t.txs, hash)
    && match LoadLocation(t.txs, hash)
       case Found(location) =>
         (match LoadBlock(cfg, t, U64Bytes(location.number))
          case Found(stored) =>
            && location.slot < |stored.index.transactions|
            && cellIndex < |stored.index.transactions[location.slot].outputs|
            && stored.index.transactions[location.slot].outputs[cellIndex].End() <= |stored.bytes|
          case _ => true)
       case _ => true
  }

  /** A location chain stops at a missing link: the hash is absent, or its
      location names a block whose index or buffer is absent. */
  predicate LocatedBlockMissing(cfg: Config, t: Tables, table: Table, hash: Hash)
    requires LocationReadable(table, hash)
  {
    match LoadLocation(table, hash)
    case Missing => true
    case Found(location) => LoadBlock(cfg, t, U64Bytes(location.number)).Missing?
    case Failed(_) => false
  }

  /** `select_block_hash`. */
  function SelectBlockHash(t: Tables, number: u64): (r: Result<Option<Hash>>)
    ensures U64Bytes(number) !in t.hashes <==> r == Ok(None)
    ensures r.Ok? && r.value.Some? ==> t.hashes[U64Bytes(number)] == Blob(r.value.value)
    ensures var nb := U64Bytes(number);
      nb in t.hashes && t.hashes[nb].Blob? && |t.hashes[nb].bytes| == HASH_LENGTH ==>
        r == Ok(Some(t.hashes[nb].bytes))
    ensures r.Err? ==> r.error.Corruption?
  {
    (var value :- ReturnOkIfNone(Get(t.hashes, U64Bytes(number)));
     var bytes :- Try(UnpackBlob(value));
     var hash :- Try(UnpackHash(bytes));
     Found(hash)).ToResult()
  }

  /** `select_block_number`. */
  function SelectBlockNumber(t: Tables, hash: Hash): (r: Result<Option<u64>>)
    ensures hash !in t.numbers <==> r == Ok(None)
    ensures r.Ok? && r.value.Some? ==> t.numbers[hash] == U64(r.value.value)
    ensures hash in t.numbers && t.numbers[hash].U64? ==> r == Ok(Some(t.numbers[hash].n))
    ensures r.Err? ==> r.error.Corruption?
  {
    (var value :- ReturnOkIfNone(Get(t.numbers, hash));
     var number :- Try(UnpackU64(value));
     Found(number)).ToResult()
  }

  /** `select_block_by_number`: the full decode of the stored block. */
  function SelectBlockByNumber(cfg: Config, t: Tables, number: u64): (r: Result<Option<BlockView>>)
    requires BlockReadable(cfg, t, U64Bytes(number))
    ensures U64Bytes(number) !in t.indexes ==> r == Ok(None)
    ensures r == Ok(None) <==> LoadBlock(cfg, t, U64Bytes(number)).Missing?
    ensures r.Err? ==> r.error.Corruption? || r.error == Serde
  {
    (var stored :- LoadBlock(cfg, t, U64Bytes(number));
     var block :- Try(DeserializeBlock(cfg, stored.bytes, stored.index));
     Found(block)).ToResult()
  }

  /** `select_block_by_hash`: the number, then the full decode of that block. */
  function SelectBlockByHash(cfg: Config, t: Tables, hash: Hash): (r: Result<Option<BlockView>>)
    requires BlockByHashReadable(cfg, t, hash)
    ensures hash !in t.numbers ==> r == Ok(None)
    ensures r == Ok(None) <==>
      hash !in t.numbers || (t.numbers[hash].U64? && LoadBlock(cfg, t, U64Bytes(t.numbers[hash].n)).Missing?)
    ensures r.Err? ==> r.error.Corruption? || r.error == Serde
  {
    (var value :- ReturnOkIfNone(Get(t.numbers, hash));
     var number :- Try(UnpackU64(value));
     var stored :- LoadBlock(cfg, t, U64Bytes(number));
     var block :- Try(DeserializeBlock(cfg, stored.bytes, stored.index));
     Found(block)).ToResult()
  }

  /** `select_uncle_block`: decodes only the addressed uncle. */
  function SelectUncleBlock(cfg: Config, t: Tables, hash: Hash): (r: Result<Option<UncleBlockView>>)
    requires UncleReadable(cfg, t, hash)
    ensures hash !in t.uncles ==> r == Ok(None)
    ensures r == Ok(None) <==> LocatedBlockMissing(cfg, t, t.uncles, hash)
    ensures r.Err? ==> r.error.Corruption? || r.error == Serde
  {
    (var location :- LoadLocation(t.uncles, hash);
     var stored :- LoadBlock(cfg, t, U64Bytes(location.number));
     var uncle :- Try(DeserializeUncleBlock(cfg, stored.bytes, stored.index.uncles[location.slot]));
     Found(uncle)).ToResult()
  }

  /** `select_transaction`: decodes only the addressed transaction. */
  function SelectTransaction(cfg: Config, t: Tables, hash: Hash): (r: Result<Option<TransactionView>>)
    requires TransactionReadable(cfg, t, hash)
    ensures hash !in t.txs ==> r == Ok(None)
    ensures r == Ok(None) <==> LocatedBlockMissing(cfg, t, t.txs, hash)
    ensures r.Err? ==> r.error.Corruption? || r.error == Serde
  {
    (var location :- LoadLocation(t.txs, hash);
     var stored :- LoadBlock(cfg, t, U64Bytes(location.number));
     var tx :- Try(DeserializeTransaction(cfg, stored.bytes, stored.index.transactions[location.slot]));
     Found(tx)).ToResult()
  }

  /** `select_cell_output`: decodes the single output field. The live-cell
      table is not consulted, so a spent output is still returned. */
  function SelectCellOutput(cfg: Config, t: Tables, hash: Hash, cellIndex: u32): (r: Result<Option<CellOutput>>)
    requires CellOutputReadable(cfg, t, hash, cellIndex)
    ensures hash !in t.txs ==> r == Ok(None)
    ensures r == Ok(None) <==> LocatedBlockMissing(cfg, t, t.txs, hash)
    ensures r.Err? ==> r.error.Corruption? || r.error == Serde
  {
    (var location :- LoadLocation(t.txs, hash);
     var stored :- LoadBlock(cfg, t, U64Bytes(location.number));
     var position := stored.index.transactions[location.slot].outputs[cellIndex];
     var output :- Try(Deserialize(cfg.output, stored.bytes, position));
     Found(output)).ToResult()
  }

  /** `select_cell_status`: `Some(())` exactly when the cell's key is in the
      live-cell table, whatever value it holds. */
  function SelectCellStatus(t: Tables, hash: Hash, cellIndex: u32): (r: Result<Option<()>>)
    ensures r.Ok?
    ensures r.value.Some? <==> CellIndexIntoBytes(CellIndex(hash, cellIndex)) in t.cells
  {
    (var _ :- ReturnOkIfNone(Get(t.cells, CellIndexIntoBytes(CellIndex(hash, cellIndex))));
     Found(())).ToResult()
  }

  /** `select_max_number`: the status record. */
  function SelectMaxNumber(t: Tables): (r: Result<Option<u64>>)
    ensures MAX_NUMBER_KEY !in t.status <==> r == Ok(None)
    ensures r.Ok? && r.value.Some? ==> t.status[MAX_NUMBER_KEY] == U64(r.value.value)
    ensures MAX_NUMBER_KEY in t.status && t.status[MAX_NUMBER_KEY].U64? ==>
      r == Ok(Some(t.status[MAX_NUMBER_KEY].n))
    ensures r.Err? ==> r.error.Corruption?
  {
    (var value :- ReturnOkIfNone(Get(t.status, MAX_NUMBER_KEY));
     var number :- Try(UnpackU64(value));
     Found(number)).ToResult()
  }

  /** `select`: the opaque read of the custom table. */
  function Select(t: Tables, key: seq<byte>): (r: Result<Option<seq<byte>>>)
    ensures key !in t.custom <==> r == Ok(None)
    ensures r.Ok? && r.value.Some? ==> t.custom[key] == Blob(r.value.value)
    ensures key in t.custom && t.custom[key].Blob? ==> r == Ok(Some(t.custom[key].bytes))
    ensures r.Err? ==> r.error.Corruption?
  {
    (var value :- ReturnOkIfNone(Get(t.custom, key));
     var bytes :- Try(UnpackBlob(value));
     Found(bytes)).ToResult()
  }
}
