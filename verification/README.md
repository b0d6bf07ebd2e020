# Local block store of uckb-jsonrpc-sdk, in Dafny

The Rust client of uckb-jsonrpc-sdk keeps a local copy of the chain in a
key-value store. This project models the two pieces that carry the logic of
that store and proves what they promise.

- **The positional codec** (`client/src/serde.rs`). For each block it
  computes the serialized size of every field. It folds those sizes into a
  tree of `(offset, length)` positions (the block index). It then appends
  every field's encoding to one flat buffer, in the same order. Any one
  position can later be sliced out of the buffer and decoded on its own.
  Bincode is kept abstract: a `Codec` is a size function, an encoder and a
  decoder. Two laws are hypotheses:
  - `SizeExact`: the size is the length of the encoding.
  - `DecodeInverse`: decoding an encoding gives the value back.
- **The storage engine logic** (`client/src/storage.rs`). The nine tables are
  `map`s from byte strings to engine values. `insert_block` is one state
  transformer that either commits every write or fails and leaves the store
  as it was. Each `select_*` query is a lookup chain: the first missing
  entry ends it with `Ok(None)`, and a value of the wrong kind ends it with a
  corruption error. The fixed-width keys are byte-level encoders: `Index` is
  8 little-endian bytes of the number, then 8 of the slot. `CellIndex` is the
  32 hash bytes, then 4 little-endian bytes of the output index.

Files, in dependency order:
- `wrappers.dfy`, `errors.dfy`: `Option`, `Result` and the error kinds `Store | Serde | Corruption | Custom`.
- `types.dfy`: the JSON-RPC view types that the store keeps.
- `keys.dfy`: little-endian integers and the key encodings.
- `positions.dfy`: positions, `calculate_position(s)` and contiguity.
- `serde.dfy`: codecs, the size tree, the index tree, serialization and deserialization.
- `layout.dfy`: the serializer puts every field at its index position, and decoding inverts it.
- `block_codec.dfy`: `serialize_block_with_index` and the full and partial round trips.
- `storage.dfy`: the tables, `insert_block`, `insert` and every query.
- `storage_properties.dfy`: reads after writes, the live-cell bookkeeping, frames and error discipline.

Behaviours of the code that the model keeps as they are:
- A query panics on a slice or on `[]` indexing when decoding reaches an
  index position outside the stored buffer, or a slot the stored index lacks
  (`client/src/serde.rs:333`, `client/src/storage.rs:381,407,436`). A field
  that fails to decode before that point returns a `Serde` error first,
  because of the `?` in `client/src/serde.rs:352-405`.
  `Index::from_slice` panics on fewer than 16 bytes (`client/src/storage.rs:107-115`).
  These paths are not reported as corruption. They are preconditions here:
  `BlockFits`, `TransactionReadable`, `LocationReadable` and their siblings.
  `BlockFits`, `UncleFits` and `TransactionFits` ask every position of the
  index to fit the buffer. That is slightly more than the code needs, since
  an earlier decode failure would end the read before a later position is
  sliced. A read made right after `insert_block`, of the block it stored,
  meets them (the `StorageProperties.InsertBlockThenSelect*` lemmas). A
  later re-insert of the same number can break them (see below).
- `insert_block` deletes every spent cell with the engine's `delete`. On LMDB,
  deleting a missing key is a not-found error, and the `?` drops the write
  transaction (`client/src/storage.rs:273-275,283`). `InsertBlock` models
  this: a block that spends a cell which is neither live nor created earlier
  in the same block is rejected with `Store("not found")`, and nothing is
  written.
- `max-number` is overwritten with the number of the block just inserted. It
  is not the maximum of the numbers seen.
- A later slot with the same uncle or transaction hash overwrites an
  earlier one. Re-inserting a block number overwrites `indexes` and `blocks`
  but leaves the old block's `(number, slot)` locations behind
  (`client/src/storage.rs:267-272`). A later read through such a stale
  location may land on a slot the new index lacks, and then
  `block_index.transactions[index]` panics (`client/src/storage.rs:407`).
  `StorageProperties.ReinsertLeavesStaleLocation` proves that such a read is
  not `TransactionReadable`.

## Model

| member | source | states |
|---|---|---|
| Positions.CalculatePosition | client/src/serde.rs:163-167 | No contract of its own. The positions it makes are stated through `CalculatePositionsTiles` and the index tiling lemmas. |
| Positions.CalculatePositions | client/src/serde.rs:169-178 | One position per length. Their offsets and lengths are stated by `CalculatePositionsTiles` and `CalculatePositionsContiguous`. |
| Positions.CalculatePositionsTiles | client/src/serde.rs:169-178 | The positions returned tile `[offset, end)` back to back with the given lengths, in order, and `end` is the returned offset. |
| Positions.CalculatePositionsContiguous | client/src/serde.rs:163-178 | One position per length, each with its length. The first starts at `offset`, each ends where the next begins, and the returned offset is `offset` plus the sum of the lengths. |
| Positions.TilesContiguous | client/src/serde.rs:180-245 | A tiling of `[0, end)` starts at 0, keeps every position inside, is contiguous, and its last position ends at `end`, which is the sum of the lengths. |
| Serde.SerializedSizes | client/src/serde.rs:91-100 | One size per value. `Layout.SerializeManyLaysOut` states that the sizes lay the encodings out end to end. |
| Serde.SerializedSizesAt | client/src/serde.rs:91-100 | The size in slot `i` is the size of value `i`, so the sizes keep the order of the values. |
| Serde.SerializedUncleBlockSize | client/src/serde.rs:128-140 | No contract of its own. `CalculateUncleBlockIndexTiles` gives these sizes to the uncle's positions. |
| Serde.SerializedTransactionSize | client/src/serde.rs:142-161 | No contract of its own. `CalculateTransactionIndexTiles` gives these sizes to the transaction's positions. |
| Serde.Serialize | client/src/serde.rs:247-253 | No contract of its own. `Layout.SerializeManyLaysOut` and the other layout lemmas place its encoding at the end of the buffer. |
| Serde.SerializedBlockSize | client/src/serde.rs:102-126 | No contract of its own. `BlockIndexContiguous` states that the buffer's length is the sum of these sizes and that each position has its field's size. |
| Serde.CalculateBlockIndex | client/src/serde.rs:180-215 | No contract of its own. Its index is stated by `CalculateBlockIndexTiles` and `BlockIndexContiguous`. |
| Serde.CalculateUncleBlockIndex | client/src/serde.rs:217-227 | No contract of its own. Its index is stated by `CalculateUncleBlockIndexTiles`. |
| Serde.CalculateTransactionIndex | client/src/serde.rs:229-245 | No contract of its own. Its index is stated by `CalculateTransactionIndexTiles`. |
| Serde.SerializeMany | client/src/serde.rs:255-267 | Appends to the buffer and keeps what it held. Where each encoding lands is stated by `Layout.SerializeManyLaysOut`. |
| Serde.SerializeUncleBlock | client/src/serde.rs:299-308 | Appends to the buffer and keeps what it held. The layout is stated by `Layout.SerializeUncleBlockLaysOut`. |
| Serde.SerializeTransaction | client/src/serde.rs:310-323 | Appends to the buffer and keeps what it held. The layout is stated by `Layout.SerializeTransactionLaysOut`. |
| Serde.SerializeBlock | client/src/serde.rs:282-297 | Appends to the buffer and keeps what it held. The layout is stated by `Layout.SerializeBlockLaysOut`. |
| Serde.DeserializeUncleBlock | client/src/serde.rs:376-388 | Errors are `Serde`. The value decoded is given by the round-trip lemmas `Layout.DeserializeUncleBlockRoundTrip` and `BlockCodec.UncleRoundTrip`. |
| Serde.DeserializeTransaction | client/src/serde.rs:390-405 | Errors are `Serde`. The value decoded is given by the round-trip lemmas `Layout.DeserializeTransactionRoundTrip` and `BlockCodec.TransactionRoundTrip`. |
| Serde.DeserializeBlock | client/src/serde.rs:352-374 | Errors are `Serde`. The value decoded is given by the round-trip lemmas `Layout.DeserializeBlockRoundTrip` and `BlockCodec.FullRoundTrip`. |
| Serde.CalculateUncleBlockIndexTiles | client/src/serde.rs:217-227 | An uncle's positions (hash, header, proposals) tile its bytes in that order with the computed sizes. |
| Serde.CalculateTransactionIndexTiles | client/src/serde.rs:229-245 | A transaction's positions (hash, version, deps, inputs, outputs, witnesses) tile its bytes in that order with the computed sizes. |
| Serde.CalculateBlockIndexTiles | client/src/serde.rs:180-216 | The whole index, flattened in field order (hash, header, each uncle, each transaction, proposals), is one tiling from offset 0 to the returned length. |
| Serde.Decode | client/src/storage.rs:331 | Decoding the stored index succeeds exactly when the codec accepts the bytes and returns the value it decodes; a failure is the `Serde` error. |
| Serde.Deserialize | client/src/serde.rs:325-334 | Succeeds exactly when the codec accepts the slice at the position, returns what it decodes, and fails only with `Serde`. |
| Serde.DeserializeMany | client/src/serde.rs:336-350 | Succeeds exactly when every slice decodes; the result has one value per position, in position order, each the decoding of its own slice. |
| Serde.DeserializeUncles | client/src/serde.rs:362-366 | Succeeds exactly when every uncle index decodes; the result keeps index order and length. |
| Serde.DeserializeTransactions | client/src/serde.rs:367-371 | Succeeds exactly when every transaction index decodes; the result keeps index order and length. |
| Layout.SerializeManyLaysOut | client/src/serde.rs:255-267 | Appending a list of encodings puts each one at the position `calculate_positions` gives it, and the buffer grows to the returned offset. |
| Layout.SerializeUncleBlockLaysOut | client/src/serde.rs:299-308 | The serialized uncle holds each field's encoding at its index position and ends at the index's end offset. |
| Layout.SerializeTransactionLaysOut | client/src/serde.rs:310-323 | The serialized transaction holds each field's encoding at its index position and ends at the index's end offset. |
| Layout.SerializeBlockLaysOut | client/src/serde.rs:282-297 | The block buffer has exactly the length the index computes, and holds every field's encoding at its index position. |
| Layout.DeserializeManyRoundTrip | client/src/serde.rs:336-350 | When each position holds the encoding of the matching value, decoding the positions gives back exactly those values. |
| Layout.DeserializeUncleBlockRoundTrip | client/src/serde.rs:376-388 | An uncle laid out along its index decodes back to that uncle. |
| Layout.DeserializeTransactionRoundTrip | client/src/serde.rs:390-405 | A transaction laid out along its index decodes back to that transaction. |
| Layout.DeserializeBlockRoundTrip | client/src/serde.rs:352-374 | A block laid out along its index fits the buffer and decodes back to that block. |
| BlockCodec.SerializeBlockWithIndex | client/src/serde.rs:269-280 | The buffer's length equals the total length the index computes: the `assert_eq!` at line 277 always holds. |
| BlockCodec.SerializeBlockWithIndexLaysOut | client/src/serde.rs:269-280 | Every field sits at its index position, the index tiles the buffer in field order, and the encoded index decodes back to the index. |
| BlockCodec.BlockIndexContiguous | client/src/serde.rs:180-245 | The index positions start at 0 and are contiguous. Each has its field's size and lies inside the buffer. The last ends at the buffer's end, which is the sum of the sizes. |
| BlockCodec.FullRoundTrip | client/src/serde.rs:352-374 | The stored index decodes, fits the buffer, and the full decode along it returns the original block. |
| BlockCodec.TransactionRoundTrip | client/src/serde.rs:390-405 | Decoding with the `k`-th transaction index alone returns the `k`-th transaction. |
| BlockCodec.UncleRoundTrip | client/src/serde.rs:376-388 | Decoding with the `k`-th uncle index alone returns the `k`-th uncle. |
| BlockCodec.CellOutputRoundTrip | client/src/serde.rs:325-334 | Decoding the single position of output `j` of transaction `k` returns that output. |
| BlockCodec.ProposalRoundTrip | client/src/serde.rs:336-350 | Decoding the `j`-th proposal position returns the `j`-th proposal. |
| BlockCodec.DeserializeTransactionReadsOnlyItsFields | client/src/serde.rs:390-405 | Decoding one transaction reads only its own positions. Buffers that agree there decode alike, whatever the sibling fields hold. |
| BlockCodec.DeserializeUncleBlockReadsOnlyItsFields | client/src/serde.rs:376-388 | Decoding one uncle reads only its own positions. Buffers that agree there decode alike, whatever the sibling fields hold. |
| Keys.U64Bytes | client/src/storage.rs:213-214 | `to_le_bytes` of a block number is 8 bytes. `U64BytesInjective` states that distinct numbers get distinct keys. |
| Keys.IndexIntoBytes | client/src/storage.rs:99-105 | A location encodes to 16 bytes. Its inverse is stated by `IndexRoundTrip` and `IndexFromSliceInverse`. |
| Keys.IndexFromSlice | client/src/storage.rs:107-115 | No contract of its own beyond requiring 16 bytes. It is related to `IndexIntoBytes` by `IndexRoundTrip` and `IndexFromSliceInverse`. |
| Keys.CellIndexIntoBytes | client/src/storage.rs:122-128 | A cell key is 36 bytes. `CellIndexInjective` and `CellIndexWrapsAt32Bits` state which cells share a key. |
| Keys.LeBytesRoundTrip | client/src/storage.rs:99-115 | Reading back `width` little-endian bytes gives the number, for any number below 256^width. |
| Keys.IndexRoundTrip | client/src/storage.rs:99-115 | `from_slice(into_bytes(Index(n, i)) + rest)` is `Index(n, i)`: bytes 0..8 hold the number and 8..16 the slot. |
| Keys.FromLeRoundTrip | client/src/storage.rs:107-115 | Re-encoding a little-endian reading at the same width gives the bytes back. |
| Keys.IndexFromSliceInverse | client/src/storage.rs:107-115 | `into_bytes(from_slice(s))` is the first 16 bytes of `s`, the converse of `IndexRoundTrip`. |
| Keys.U64BytesInjective | client/src/storage.rs:213-214 | Distinct block numbers have distinct 8-byte keys. |
| Keys.CellIndexInjective | client/src/storage.rs:122-128 | For indices below 2^32, two cell keys are equal exactly when hash and index are. |
| Keys.CellIndexWrapsAt32Bits | client/src/storage.rs:122-128 | The `as u32` cast gives output `2^32 + j` the key of output `j`. |
| Storage.SpendKeyWrapsAt32Bits | client/src/storage.rs:228-238 | An input naming output `2^32 + j` of a transaction consumes the key of its output `j`. |
| Storage.ReturnOkIfNone | client/src/storage.rs:139-147 | A missing entry ends the chain (the query answers `Ok(None)`); a present one continues with its value. |
| Storage.UnpackU64 | client/src/storage.rs:470-476 | Succeeds exactly on a `U64` value and returns its number; anything else is a corruption. |
| Storage.UnpackBlob | client/src/storage.rs:478-484 | Succeeds exactly on a `Blob` value and returns its bytes; anything else is a corruption. |
| Storage.UnpackHash | client/src/storage.rs:486-488 | Succeeds exactly on 32 bytes and returns them as the hash; any other length is a corruption. |
| Storage.PutLocations | client/src/storage.rs:267-272 | No contract of its own. `PutLocationsDomain` and `PutLocationsLastWins` state which hashes it writes and which location wins. |
| Storage.PutLocationsDomain | client/src/storage.rs:267-272 | After the location loop the table holds every hash of the block and keeps every other key unchanged. |
| Storage.PutLocationsLastWins | client/src/storage.rs:216-222 | Under a hash the stored location is `(number, k)` for the last slot `k` holding that hash. |
| Storage.SpentCells | client/src/storage.rs:228-238 | No contract of its own. `SpentCellsMembers` states which keys it holds. |
| Storage.SpentCellsMembers | client/src/storage.rs:228-238 | A key is spent exactly when some input's `previous_output.cell` is present and encodes to it; inputs without a cell are skipped. |
| Storage.CreatedCells | client/src/storage.rs:239-245 | One key per output, the `j`-th being the cell key `(tx hash, j)`. |
| Storage.DeleteKeys | client/src/storage.rs:273-275 | Its only failure is the engine's not-found error. `StorageProperties.DeleteKeysSpec` states when it fails and what it removes. |
| Storage.PutKeys | client/src/storage.rs:276-279 | No contract of its own. `PutKeysSpec` states the keys it marks and that the rest are unchanged. |
| Storage.ApplyTransactionCells | client/src/storage.rs:270-280 | Its only failure is the engine's not-found error. `StorageProperties.ApplyTransactionCellsSpec` states when it fails and the cells it leaves. |
| Storage.PutKeysSpec | client/src/storage.rs:276-279 | Every key is marked with the value, and every other key keeps its value. |
| Storage.ApplyCellUpdates | client/src/storage.rs:270-280 | Its only failure is the engine's not-found error. Its effect is stated by `ApplyTransactionCellsSpec` and the live-cell lemmas. |
| Storage.StoreBlock | client/src/storage.rs:258-282 | No contract of its own. The tables it writes are stated by `InsertBlockFrame` and the insert-then-select lemmas. |
| Storage.Insert | client/src/storage.rs:288-294 | No contract of its own. `InsertThenSelect` states the read-back and the frame. |
| Storage.InsertBlock | client/src/storage.rs:210-286 | Succeeds exactly when the live-cell updates succeed; the only failure is the engine's not-found error of a delete. |
| Storage.LoadBlock | client/src/storage.rs:323-331 | The shared block chain is missing exactly when the index entry is absent, or is a blob and the block entry is absent. A non-blob index entry, or a non-blob block entry after an index blob, is a corruption. It finds a block exactly when both entries are blobs and the index blob decodes; it then yields the decoded index and the block blob. Its failures are corruption or decode errors. |
| Storage.LoadLocation | client/src/storage.rs:365-368 | The location chain is missing exactly when the hash is absent. It fails exactly on a non-blob entry, and that failure is a corruption. The location found is the one whose 16-byte encoding is the first 16 bytes of the blob. |
| Storage.SelectBlockHash | client/src/storage.rs:298-307 | `Ok(None)` exactly when the number key is absent. A stored 32-byte blob is returned as `Ok(Some(hash))`, and a hash returned is the stored blob. Errors are corruptions. |
| Storage.SelectBlockNumber | client/src/storage.rs:309-317 | `Ok(None)` exactly when the hash is absent. A stored `U64` is returned as `Ok(Some(n))`, and a number returned is the stored one. Errors are corruptions. |
| Storage.SelectMaxNumber | client/src/storage.rs:451-458 | `Ok(None)` exactly when `max-number` is absent. A stored `U64` is returned as `Ok(Some(n))`, and a number returned is the stored one. Errors are corruptions. |
| Storage.Select | client/src/storage.rs:460-467 | `Ok(None)` exactly when the key is absent from the custom table. A stored blob is returned as `Ok(Some(bytes))`, and bytes returned are the stored blob. Errors are corruptions. |
| Storage.SelectCellStatus | client/src/storage.rs:442-449 | Never fails; `Some(())` exactly when the cell key is in the live-cell table. |
| Storage.SelectBlockByNumber | client/src/storage.rs:319-335 | `Ok(None)` exactly when the block chain has a missing link: the index entry is absent, or it is a blob and the block entry is absent. So an index or block that fails to decode is never `Ok(None)`. Errors are corruption or decode errors. |
| Storage.SelectBlockByHash | client/src/storage.rs:337-359 | `Ok(None)` exactly when the hash is absent, or its number is a `U64` whose block chain has a missing link. Errors are corruption or decode errors. |
| Storage.SelectUncleBlock | client/src/storage.rs:361-384 | `Ok(None)` exactly when the uncle hash is absent, or its location names a block whose chain has a missing link. Errors are corruption or decode errors. |
| Storage.SelectTransaction | client/src/storage.rs:386-410 | `Ok(None)` exactly when the transaction hash is absent, or its location names a block whose chain has a missing link. Errors are corruption or decode errors. |
| Storage.SelectCellOutput | client/src/storage.rs:412-440 | `Ok(None)` exactly when the transaction hash is absent, or its location names a block whose chain has a missing link. Errors are corruption or decode errors. |
| StorageProperties.DeleteKeysSpec | client/src/storage.rs:273-275 | The delete loop succeeds exactly when the keys are distinct and all present, and then removes exactly those keys. |
| StorageProperties.ApplyTransactionCellsSpec | client/src/storage.rs:273-279 | One transaction's update fails exactly on a spend of a cell that is not live. Otherwise its outputs are live, its spent cells not re-created are gone, and all other cells keep their values. |
| StorageProperties.UntouchedCellKept | client/src/storage.rs:270-280 | A cell no transaction of the block spends or creates keeps its presence and value. |
| StorageProperties.CreatedCellLive | client/src/storage.rs:270-280 | An output created by transaction `k` and spent by no later transaction is live afterwards. |
| StorageProperties.SpentCellGone | client/src/storage.rs:270-280 | A cell spent by transaction `k` and re-created by no transaction from `k` on is absent afterwards. |
| StorageProperties.SpentCellWasLive | client/src/storage.rs:270-280 | Every cell a successful update spends was live before the block or created by an earlier transaction of it. |
| StorageProperties.InsertBlockThenSelectHeaders | client/src/storage.rs:258-282 | After `insert_block`, `select_block_hash(n)` is the block hash and `select_block_number(h)` is `n`. `select_max_number` is `n`, even if a higher number was stored before. |
| StorageProperties.InsertBlockStoresCodecOutput | client/src/storage.rs:259-262 | `indexes[n]` and `blocks[n]` hold the codec's output, and the block chain of lookups finds the block's own index and buffer. |
| StorageProperties.InsertBlockThenSelectBlock | client/src/storage.rs:319-359 | After `insert_block`, the block read back by number and by hash is the block inserted, and both reads are panic-free. |
| StorageProperties.LocationOfLastSlot | client/src/storage.rs:365-368 | The location lookup of a hash finds `(number, k)` for the last slot `k` holding it. |
| StorageProperties.InsertBlockStoresLocation | client/src/storage.rs:270-272 | After `insert_block`, the `txs` entry of transaction `k`'s hash is the encoding of `(number, k)` when no later slot repeats the hash. |
| StorageProperties.InsertBlockKeepsOtherLocation | client/src/storage.rs:270-272 | `insert_block` keeps the `txs` entry of every hash the block does not carry. |
| StorageProperties.InsertBlockIndexShape | client/src/storage.rs:259-262 | After `insert_block`, the block chain under its number finds an index with one transaction index per transaction. |
| StorageProperties.StaleLocationUnreadable | client/src/storage.rs:386-410 | A `txs` location whose slot lies past the stored index's transactions makes the transaction read unreadable: `block_index.transactions[index]` would panic. |
| StorageProperties.ReinsertLeavesStaleLocation | client/src/storage.rs:267-272 | Re-inserting a block number with a block that lacks an earlier transaction's hash and slot leaves that transaction's location behind, and reading it is not `TransactionReadable`. |
| StorageProperties.InsertBlockThenSelectTransaction | client/src/storage.rs:386-410 | After `insert_block`, transaction `k` read back by its hash is transaction `k`, when no later slot repeats its hash. |
| StorageProperties.InsertBlockThenSelectUncle | client/src/storage.rs:361-384 | After `insert_block`, uncle `k` read back by its hash is uncle `k`, when no later slot repeats its hash. |
| StorageProperties.InsertBlockThenSelectCellOutput | client/src/storage.rs:412-440 | After `insert_block`, output `j` of transaction `k` read back by hash and index is that output. |
| StorageProperties.InsertBlockThenCellLive | client/src/storage.rs:276-279 | After `insert_block`, an output spent by no later transaction of the block has cell status `Some(())`. |
| StorageProperties.InsertBlockThenCellSpent | client/src/storage.rs:273-275 | After `insert_block`, a spent cell that no transaction from the spender on re-creates has cell status `None`. |
| StorageProperties.InsertBlockRejectsUnknownSpend | client/src/storage.rs:273-283 | A block spending a cell that is neither live nor created earlier in the block fails with the not-found error and commits nothing. |
| StorageProperties.InsertBlockFrame | client/src/storage.rs:257-282 | `insert_block` changes only the number key, the block hash key, `max-number`, and the block's uncle and transaction hashes. The custom table is untouched. |
| StorageProperties.InsertBlockCellsFrame | client/src/storage.rs:270-280 | In the live-cell table, every key the block neither spends nor creates keeps its state. |
| StorageProperties.BlockByNumberLaterLinks | client/src/storage.rs:323-331 | For the by-number query, an index blob with no block entry answers `Ok(None)`. An index blob that does not decode is a `Serde` error. Neither read can panic. |
| StorageProperties.LaterMissingLinkGivesNone | client/src/storage.rs:395-403 | A transaction or cell-output query that finds its location but then misses the `indexes` entry, or the `blocks` entry, answers `Ok(None)`. |
| StorageProperties.LaterMissingLinkGivesNoneForUncleAndBlock | client/src/storage.rs:370-378 | The same for the uncle query and the by-hash block query. |
| StorageProperties.WrongTagIsCorruption | client/src/storage.rs:470-488 | A value of the wrong kind under a `numbers`, `max-number`, `hashes` or custom key is a corruption error, never `Ok(None)`. A `hashes` blob that is not 32 bytes is one too. |
| StorageProperties.WrongTagInBlockIsCorruption | client/src/storage.rs:319-359 | For the by-number and by-hash block queries, each of these is a corruption and the read cannot panic: a non-blob index entry, a non-blob block entry, or a `numbers` entry that is not a number. |
| StorageProperties.WrongTagInLocationIsCorruption | client/src/storage.rs:361-440 | A non-blob `uncles` or `txs` entry is a corruption for the uncle, transaction and cell-output queries, and the read cannot panic. |
| StorageProperties.WrongTagAfterUncleLocationIsCorruption | client/src/storage.rs:370-378 | Once the uncle location is read, a non-blob index or block entry of the located block is a corruption. |
| StorageProperties.WrongTagAfterTransactionLocationIsCorruption | client/src/storage.rs:386-440 | Once the transaction location is read, a non-blob index or block entry of the located block is a corruption for the transaction and cell-output queries. |
| StorageProperties.EmptyStoreIsEmpty | client/src/storage.rs:298-467 | On an empty store every query answers `Ok(None)`. |
| StorageProperties.InsertThenSelect | client/src/storage.rs:288-294 | `select(k)` after `insert(k, v)` is `v`; every other key, and every other table, is unchanged. |

## Left out

- The engine itself is not modelled: LMDB and rkv, the `Manager` environment registry, `RwLock`, readers and writers, and `build_env` with its sizing constants and directory creation (`client/src/storage.rs:131-207`). Each write transaction is one atomic map update, and an aborted one changes nothing.
- Engine errors other than the not-found of `delete` are not modelled: I/O failures, full maps and key-size limits. A `put` always succeeds.
- Bincode's wire format is not modelled. Each field type has an abstract `Codec`. `serialized_size` and `serialize` are total, because for these types bincode's sizing and writing to a `Vec` do not fail.
- The serialization of the `BlockIndex` itself (`client/src/serde.rs:278`) is one more abstract codec with the same laws.
- `usize` overflow of offsets is not modelled. Offsets are unbounded naturals, and a block large enough to overflow cannot be held in memory.
- `Addressable` bounds uncle, transaction and output counts below 2^64. The slot and output index are `usize` in `Index` and `CellIndex` (`client/src/storage.rs:94-128`).
- The header and script fields of the view types are opaque, since the store never inspects them.
- The `rkv::Value` kinds `F64`, `Instant` and `Uuid` are not modelled. `I64`, `Str` and `Json` stand for every kind the store never writes.
- `client/src/system.rs` (blake2b and secp256k1), the RPC clients and the transport are not part of this model.
- Storage.SelectBlockByNumber: the contract states when the answer is `Ok(None)` and the error kinds. The value it returns is stated by `StorageProperties.InsertBlockThenSelectBlock` for stored blocks only, because for an arbitrary table the result is whatever the abstract decoder yields. Its `Fits`/`Readable` precondition asks every index position to fit the buffer, slightly more than the code needs (see `Serde.DeserializeBlock` below).
- Storage.SelectBlockByHash: the same as for `SelectBlockByNumber`. The returned block is stated by `StorageProperties.InsertBlockThenSelectBlock`. Its `Fits`/`Readable` precondition asks every index position to fit the buffer, slightly more than the code needs (see `Serde.DeserializeBlock` below).
- Storage.SelectUncleBlock: the contract states when the answer is `Ok(None)` and the error kinds. The returned uncle is stated by `StorageProperties.InsertBlockThenSelectUncle`. Its `Fits`/`Readable` precondition asks every index position to fit the buffer, slightly more than the code needs (see `Serde.DeserializeBlock` below).
- Storage.SelectTransaction: the contract states when the answer is `Ok(None)` and the error kinds. The returned transaction is stated by `StorageProperties.InsertBlockThenSelectTransaction`. Its `Fits`/`Readable` precondition asks every index position to fit the buffer, slightly more than the code needs (see `Serde.DeserializeBlock` below).
- Storage.SelectCellOutput: the contract states when the answer is `Ok(None)` and the error kinds. The returned output is stated by `StorageProperties.InsertBlockThenSelectCellOutput`. Its `Fits`/`Readable` precondition asks every index position to fit the buffer, slightly more than the code needs (see `Serde.DeserializeBlock` below).
- Serde.DeserializeBlock: requires `BlockFits`, so every position of the index must lie inside the buffer. The code needs less: a field that fails to decode returns `Err(Serde)` at its `?` (`client/src/serde.rs:352-374`) before any later position is sliced, so a call with a bad early field and an out-of-range later position returns an error rather than panicking. The model does not cover that call.
- Serde.DeserializeUncleBlock: requires `UncleFits`, every position inside the buffer, for the same reason as `Serde.DeserializeBlock` (`client/src/serde.rs:376-388`).
- Serde.DeserializeTransaction: requires `TransactionFits`, every position inside the buffer, for the same reason as `Serde.DeserializeBlock` (`client/src/serde.rs:390-405`).
- Serde.DeserializeMany: requires `AllFit`, every position inside the buffer. The collect stops at the first slice that fails to decode, before slicing the later positions.
- Keys.CellIndexInjective: holds only below 2^32. `CellIndex::into_bytes` keeps `index as u32`, so output `2^32 + j` shares the key of output `j` (`Keys.CellIndexWrapsAt32Bits`). The queries take their output index as `u32` (`client/src/storage.rs:415,442`). An input's `previous_output.cell.index` is modelled as a `u64`, the width of the JSON-RPC integer type, so an input naming output `2^32 + j` consumes the key of output `j` (`Storage.SpendKeyWrapsAt32Bits`).
