/** The positional codec of client/src/serde.rs: a size pass over a block's
    fields, an index pass that turns the sizes into byte ranges, a serialize
    pass that appends every field to one buffer, and decoders that read a
    single range back. bincode itself is abstract: each field type has a
    `Codec` whose laws are stated as predicates, never assumed. */
module Serde {
  import opened Wrappers
  import opened Errors
  import opened Types
  import opened Positions

  /** bincode for one type: `serialized_size`, `serialize_into` and `deserialize`. */
  datatype Codec<!T> = Codec(size: T -> nat, enc: T -> seq<byte>, dec: seq<byte> -> Option<T>)

  /** `serialized_size` reports exactly the number of bytes `serialize_into` writes. */
  ghost predicate SizeExact<T(!new)>(c: Codec<T>) {
    forall x :: c.size(x) == |c.enc(x)|
  }

  /** Decoding exactly the bytes of one encoded value gives that value back. */
  ghost predicate DecodeInverse<T(!new)>(c: Codec<T>) {
    forall x :: c.dec(c.enc(x)) == Some(x)
  }

  datatype BlockIndex = BlockIndex(
    hash: Position,
    header: Position,
    uncles: seq<UncleBlockIndex>,
    transactions: seq<TransactionIndex>,
    proposals: seq<Position>)

  datatype UncleBlockIndex = UncleBlockIndex(hash: Position, header: Position, proposals: seq<Position>)

  datatype TransactionIndex = TransactionIndex(
    hash: Position,
    version: Position,
    deps: seq<Position>,
    inputs: seq<Position>,
    outputs: seq<Position>,
    witnesses: seq<Position>)

  datatype BlockSize = BlockSize(
    hash: nat,
    header: nat,
    uncles: seq<UncleBlockSize>,
    transactions: seq<TransactionSize>,
    proposals: seq<nat>)

  datatype UncleBlockSize = UncleBlockSize(hash: nat, header: nat, proposals: seq<nat>)

  datatype TransactionSize = TransactionSize(
    hash: nat,
    version: nat,
    deps: seq<nat>,
    inputs: seq<nat>,
    outputs: seq<nat>,
    witnesses: seq<nat>)

  /** The bincode configuration: one codec per serialized field type, and one
      for the block index, which the store keeps next to the buffer. */
  datatype Config = Config(
    hash: Codec<Hash>,
    header: Codec<Header>,
    version: Codec<u32>,
    dep: Codec<OutPoint>,
    input: Codec<CellInput>,
    output: Codec<CellOutput>,
    witnessEntry: Codec<Witness>,
    proposal: Codec<ProposalShortId>,
    index: Codec<BlockIndex>)

  ghost predicate SizesExact(cfg: Config) {
    && SizeExact(cfg.hash)
    && SizeExact(cfg.header)
    && SizeExact(cfg.version)
    && SizeExact(cfg.dep)
    && SizeExact(cfg.input)
    && SizeExact(cfg.output)
    && SizeExact(cfg.witnessEntry)
    && SizeExact(cfg.proposal)
  }

  ghost predicate DecodersInverse(cfg: Config) {
    && DecodeInverse(cfg.hash)
    && DecodeInverse(cfg.header)
    && DecodeInverse(cfg.version)
    && DecodeInverse(cfg.dep)
    && DecodeInverse(cfg.input)
    && DecodeInverse(cfg.output)
    && DecodeInverse(cfg.witnessEntry)
    && DecodeInverse(cfg.proposal)
    && DecodeInverse(cfg.index)
  }

  ghost predicate Lawful(cfg: Config) {
    SizesExact(cfg) && DecodersInverse(cfg)
  }

  // ---------------------------------------------------------------------------
  // Size pass

  /** `serialized_sizes`: one size per element, in order. */
  function SerializedSizes<T>(c: Codec<T>, xs: seq<T>): (r: seq<nat>)
    ensures |r| == |xs|
    decreases |xs|
  {
    if xs == [] then [] else [c.size(xs[0])] + SerializedSizes(c, xs[1..])
  }

  /** The size at slot `i` is the size of the `i`-th value. */
  lemma {:induction false} SerializedSizesAt<T>(c: Codec<T>, xs: seq<T>, i: nat)
    requires i < |xs|
    ensures SerializedSizes(c, xs)[i] == c.size(xs[i])
    decreases |xs|
  {
    if i > 0 {
      SerializedSizesAt(c, xs[1..], i - 1);
    }
  }

  function SerializedUncleBlockSize(cfg: Config, uncle: UncleBlockView): UncleBlockSize {
    UncleBlockSize(
      cfg.hash.size(uncle.header.hash),
      cfg.header.size(uncle.header.inner),
      SerializedSizes(cfg.proposal, uncle.proposals))
  }

  function SerializedTransactionSize(cfg: Config, tx: TransactionView): TransactionSize {
    TransactionSize(
      cfg.hash.size(tx.hash),
      cfg.version.size(tx.inner.version),
      SerializedSizes(cfg.dep, tx.inner.deps),
      SerializedSizes(cfg.input, tx.inner.inputs),
      SerializedSizes(cfg.output, tx.inner.outputs),
      SerializedSizes(cfg.witnessEntry, tx.inner.witnesses))
  }

  function SerializedUncleSizes(cfg: Config, uncles: seq<UncleBlockView>): (r: seq<UncleBlockSize>)
    ensures |r| == |uncles|
    decreases |uncles|
  {
    if uncles == [] then []
    else [SerializedUncleBlockSize(cfg, uncles[0])] + SerializedUncleSizes(cfg, uncles[1..])
  }

  function SerializedTransactionSizes(cfg: Config, txs: seq<TransactionView>): (r: seq<TransactionSize>)
    ensures |r| == |txs|
    decreases |txs|
  {
    if txs == [] then []
    else [SerializedTransactionSize(cfg, txs[0])] + SerializedTransactionSizes(cfg, txs[1..])
  }

  /** `serialized_block_size`: the size tree of a block. */
  function SerializedBlockSize(cfg: Config, block: BlockView): BlockSize {
    BlockSize(
      cfg.hash.size(block.header.hash),
      cfg.header.size(block.header.inner),
      SerializedUncleSizes(cfg, block.uncles),
      SerializedTransactionSizes(cfg, block.transactions),
      SerializedSizes(cfg.proposal, block.proposals))
  }

  // ---------------------------------------------------------------------------
  // Field order: every tree flattened into the order the passes visit it

  function FlatUncleIndex(index: UncleBlockIndex): seq<Position> {
    [index.hash, index.header] + index.proposals
  }

  function FlatUncleSize(size: UncleBlockSize): seq<nat> {
    [size.hash, size.header] + size.proposals
  }

  function FlatTransactionIndex(index: TransactionIndex): seq<Position> {
    [index.hash, index.version] + index.deps + index.inputs + index.outputs + index.witnesses
  }

  function FlatTransactionSize(size: TransactionSize): seq<nat> {
    [size.hash, size.version] + size.deps + size.inputs + size.outputs + size.witnesses
  }

  function FlatUncleIndexes(indexes: seq<UncleBlockIndex>): seq<Position>
    decreases |indexes|
  {
    if indexes == [] then [] else FlatUncleIndex(indexes[0]) + FlatUncleIndexes(indexes[1..])
  }

  function FlatUncleSizes(sizes: seq<UncleBlockSize>): seq<nat>
    decreases |sizes|
  {
    if sizes == [] then [] else FlatUncleSize(sizes[0]) + FlatUncleSizes(sizes[1..])
  }

  function FlatTransactionIndexes(indexes: seq<TransactionIndex>): seq<Position>
    decreases |indexes|
  {
    if indexes == [] then [] else FlatTransactionIndex(indexes[0]) + FlatTransactionIndexes(indexes[1..])
  }

  function FlatTransactionSizes(sizes: seq<TransactionSize>): seq<nat>
    decreases |sizes|
  {
    if sizes == [] then [] else FlatTransactionSize(sizes[0]) + FlatTransactionSizes(sizes[1..])
  }

  /** hash, header, each uncle, each transaction, then the proposals. */
  function FlatBlockIndex(index: BlockIndex): seq<Position> {
    [index.hash, index.header] + FlatUncleIndexes(index.uncles)
      + FlatTransactionIndexes(index.transactions) + index.proposals
  }

  function FlatBlockSize(size: BlockSize): seq<nat> {
    [size.hash, size.header] + FlatUncleSizes(size.uncles)
      + FlatTransactionSizes(size.transactions) + size.proposals
  }

  // ---------------------------------------------------------------------------
  // Index pass

  /** `calculate_uncle_block_index`: the uncle's fields laid out from `offset`. */
  function CalculateUncleBlockIndex(offset: nat, uncle: UncleBlockSize): (r: (nat, UncleBlockIndex))
  {
    var (o1, hash) := CalculatePosition(offset, uncle.hash);
    var (o2, header) := CalculatePosition(o1, uncle.header);
    var (o3, proposals) := CalculatePositions(o2, uncle.proposals);
    (o3, UncleBlockIndex(hash, header, proposals))
  }

  /** `calculate_transaction_index`: the transaction's fields laid out from `offset`. */
  function CalculateTransactionIndex(offset: nat, tx: TransactionSize): (r: (nat, TransactionIndex))
  {
    var (o1, hash) := CalculatePosition(offset, tx.hash);
    var (o2, version) := CalculatePosition(o1, tx.version);
    var (o3, deps) := CalculatePositions(o2, tx.deps);
    var (o4, inputs) := CalculatePositions(o3, tx.inputs);
    var (o5, outputs) := CalculatePositions(o4, tx.outputs);
    var (o6, witnesses) := CalculatePositions(o5, tx.witnesses);
    (o6, TransactionIndex(hash, version, deps, inputs, outputs, witnesses))
  }

  /** The fold over the uncles in `calculate_block_index`. */
  function CalculateUncleIndexes(offset: nat, uncles: seq<UncleBlockSize>): (r: (nat, seq<UncleBlockIndex>))
    ensures |r.1| == |uncles|
    decreases |uncles|
  {
    if uncles == [] then
      (offset, [])
    else
      var (next, first) := CalculateUncleBlockIndex(offset, uncles[0]);
      var (end, rest) := CalculateUncleIndexes(next, uncles[1..]);
      (end, [first] + rest)
  }

  /** The fold over the transactions in `calculate_block_index`. */
  function CalculateTransactionIndexes(offset: nat, txs: seq<TransactionSize>): (r: (nat, seq<TransactionIndex>))
    ensures |r.1| == |txs|
    decreases |txs|
  {
    if txs == [] then
      (offset, [])
    else
      var (next, first) := CalculateTransactionIndex(offset, txs[0]);
      var (end, rest) := CalculateTransactionIndexes(next, txs[1..]);
      (end, [first] + rest)
  }

  /** `calculate_block_index`: the whole index tree, laid out from offset 0,
      and the total length of the buffer it describes. */
  function CalculateBlockIndex(block: BlockSize): (r: (nat, BlockIndex))
  {
    var (o1, hash) := CalculatePosition(0, block.hash);
    var (o2, header) := CalculatePosition(o1, block.header);
    var (o3, uncles) := CalculateUncleIndexes(o2, block.uncles);
    var (o4, transactions) := CalculateTransactionIndexes(o3, block.transactions);
    var (o5, proposals) := CalculatePositions(o4, block.proposals);
    (o5, BlockIndex(hash, header, uncles, transactions, proposals))
  }

  // The index pass tiles: in field order, the positions it assigns cover the
  // fields' sizes back to back, without gap or overlap.

  lemma CalculateUncleBlockIndexTiles(offset: nat, uncle: UncleBlockSize)
    ensures var (end, index) := CalculateUncleBlockIndex(offset, uncle);
      Tiles(FlatUncleIndex(index), FlatUncleSize(uncle), offset, end)
  {
    var (o1, hash) := CalculatePosition(offset, uncle.hash);
    var (o2, header) := CalculatePosition(o1, uncle.header);
    var (o3, proposals) := CalculatePositions(o2, uncle.proposals);
    CalculatePositionsTiles(o2, uncle.proposals);
    TilesAppend([hash], [uncle.hash], offset, o1, [header], [uncle.header], o2);
    TilesAppend([hash, header], [uncle.hash, uncle.header], offset, o2, proposals, uncle.proposals, o3);
  }

  lemma CalculateTransactionIndexTiles(offset: nat, tx: TransactionSize)
    ensures var (end, index) := CalculateTransactionIndex(offset, tx);
      Tiles(FlatTransactionIndex(index), FlatTransactionSize(tx), offset, end)
  {
    var (o1, hash) := CalculatePosition(offset, tx.hash);
    var (o2, version) := CalculatePosition(o1, tx.version);
    var (o3, deps) := CalculatePositions(o2, tx.deps);
    var (o4, inputs) := CalculatePositions(o3, tx.inputs);
    var (o5, outputs) := CalculatePositions(o4, tx.outputs);
    var (o6, witnesses) := CalculatePositions(o5, tx.witnesses);
    var p2, l2 := [hash, version], [tx.hash, tx.version];
    CalculatePositionsTiles(o2, tx.deps);
    CalculatePositionsTiles(o3, tx.inputs);
    CalculatePositionsTiles(o4, tx.outputs);
    CalculatePositionsTiles(o5, tx.witnesses);
    TilesAppend([hash], [tx.hash], offset, o1, [version], [tx.version], o2);
    TilesAppend(p2, l2, offset, o2, deps, tx.deps, o3);
    TilesAppend(p2 + deps, l2 + tx.deps, offset, o3, inputs, tx.inputs, o4);
    TilesAppend(p2 + deps + inputs, l2 + tx.deps + tx.inputs, offset, o4, outputs, tx.outputs, o5);
    TilesAppend(p2 + deps + inputs + outputs, l2 + tx.deps + tx.inputs + tx.outputs,
                offset, o5, witnesses, tx.witnesses, o6);
  }

  lemma {:induction false} CalculateUncleIndexesTiles(offset: nat, uncles: seq<UncleBlockSize>)
    ensures var (end, indexes) := CalculateUncleIndexes(offset, uncles);
      Tiles(FlatUncleIndexes(indexes), FlatUncleSizes(uncles), offset, end)
    decreases |uncles|
  {
    if uncles != [] {
      var (next, first) := CalculateUncleBlockIndex(offset, uncles[0]);
      var (end, rest) := CalculateUncleIndexes(next, uncles[1..]);
      CalculateUncleBlockIndexTiles(offset, uncles[0]);
      CalculateUncleIndexesTiles(next, uncles[1..]);
      TilesAppend(FlatUncleIndex(first), FlatUncleSize(uncles[0]), offset, next,
                  FlatUncleIndexes(rest), FlatUncleSizes(uncles[1..]), end);
      assert ([first] + rest)[1..] == rest;
    }
  }

  lemma {:induction false} CalculateTransactionIndexesTiles(offset: nat, txs: seq<TransactionSize>)
    ensures var (end, indexes) := CalculateTransactionIndexes(offset, txs);
      Tiles(FlatTransactionIndexes(indexes), FlatTransactionSizes(txs), offset, end)
    decreases |txs|
  {
    if txs != [] {
      var (next, first) := CalculateTransactionIndex(offset, txs[0]);
      var (end, rest) := CalculateTransactionIndexes(next, txs[1..]);
      CalculateTransactionIndexTiles(offset, txs[0]);
      CalculateTransactionIndexesTiles(next, txs[1..]);
      TilesAppend(FlatTransactionIndex(first), FlatTransactionSize(txs[0]), offset, next,
                  FlatTransactionIndexes(rest), FlatTransactionSizes(txs[1..]), end);
      assert ([first] + rest)[1..] == rest;
    }
  }

  /** The whole index tree, flattened into field order (hash, header, each
      uncle, each transaction, proposals), tiles `[0, end)` with the field sizes. */
  lemma CalculateBlockIndexTiles(block: BlockSize)
    ensures var (end, index) := CalculateBlockIndex(block);
      Tiles(FlatBlockIndex(index), FlatBlockSize(block), 0, end)
  {
    var (o1, hash) := CalculatePosition(0, block.hash);
    var (o2, header) := CalculatePosition(o1, block.header);
    var (o3, uncles) := CalculateUncleIndexes(o2, block.uncles);
    var (o4, transactions) := CalculateTransactionIndexes(o3, block.transactions);
    var (o5, proposals) := CalculatePositions(o4, block.proposals);
    var p2, l2 := [hash, header], [block.hash, block.header];
    var pu, lu := FlatUncleIndexes(uncles), FlatUncleSizes(block.uncles);
    var pt, lt := FlatTransactionIndexes(transactions), FlatTransactionSizes(block.transactions);
    CalculateUncleIndexesTiles(o2, block.uncles);
    CalculateTransactionIndexesTiles(o3, block.transactions);
    CalculatePositionsTiles(o4, block.proposals);
    TilesAppend([hash], [block.hash], 0, o1, [header], [block.header], o2);
    TilesAppend(p2, l2, 0, o2, pu, lu, o3);
    TilesAppend(p2 + pu, l2 + lu, 0, o3, pt, lt, o4);
    TilesAppend(p2 + pu + pt, l2 + lu + lt, 0, o4, proposals, block.proposals, o5);
  }

  // ---------------------------------------------------------------------------
  // Serialize pass: every function appends to `bytes` and never rewrites it

  function Serialize<T>(c: Codec<T>, bytes: seq<byte>, x: T): seq<byte> {
    bytes + c.enc(x)
  }

  /** `serialize_many`. */
  function SerializeMany<T>(c: Codec<T>, bytes: seq<byte>, xs: seq<T>): (r: seq<byte>)
    ensures bytes <= r
    decreases |xs|
  {
    if xs == [] then bytes else SerializeMany(c, Serialize(c, bytes, xs[0]), xs[1..])
  }

  /** `serialize_uncle_block`. */
  function SerializeUncleBlock(cfg: Config, bytes: seq<byte>, uncle: UncleBlockView): (r: seq<byte>)
    ensures bytes <= r
  {
    var b1 := Serialize(cfg.hash, bytes, uncle.header.hash);
    var b2 := Serialize(cfg.header, b1, uncle.header.inner);
    SerializeMany(cfg.proposal, b2, uncle.proposals)
  }

  /** `serialize_transaction`. */
  function SerializeTransaction(cfg: Config, bytes: seq<byte>, tx: TransactionView): (r: seq<byte>)
    ensures bytes <= r
  {
    var b1 := Serialize(cfg.hash, bytes, tx.hash);
    var b2 := Serialize(cfg.version, b1, tx.inner.version);
    var b3 := SerializeMany(cfg.dep, b2, tx.inner.deps);
    var b4 := SerializeMany(cfg.input, b3, tx.inner.inputs);
    var b5 := SerializeMany(cfg.output, b4, tx.inner.outputs);
    SerializeMany(cfg.witnessEntry, b5, tx.inner.witnesses)
  }

  /** The loop over the uncles in `serialize_block`. */
  function SerializeUncles(cfg: Config, bytes: seq<byte>, uncles: seq<UncleBlockView>): (r: seq<byte>)
    ensures bytes <= r
    decreases |uncles|
  {
    if uncles == [] then bytes
    else SerializeUncles(cfg, SerializeUncleBlock(cfg, bytes, uncles[0]), uncles[1..])
  }

  /** The loop over the transactions in `serialize_block`. */
  function SerializeTransactions(cfg: Config, bytes: seq<byte>, txs: seq<TransactionView>): (r: seq<byte>)
    ensures bytes <= r
    decreases |txs|
  {
    if txs == [] then bytes
    else SerializeTransactions(cfg, SerializeTransaction(cfg, bytes, txs[0]), txs[1..])
  }

  /** `serialize_block`. */
  function SerializeBlock(cfg: Config, bytes: seq<byte>, block: BlockView): (r: seq<byte>)
    ensures bytes <= r
  {
    var b1 := Serialize(cfg.hash, bytes, block.header.hash);
    var b2 := Serialize(cfg.header, b1, block.header.inner);
    var b3 := SerializeUncles(cfg, b2, block.uncles);
    var b4 := SerializeTransactions(cfg, b3, block.transactions);
    SerializeMany(cfg.proposal, b4, block.proposals)
  }

  // ---------------------------------------------------------------------------
  // Decoding

  /** The bytes a position addresses; the Rust slice `&bytes[offset..end]` panics out of range. */
  function Slice(bytes: seq<byte>, position: Position): seq<byte>
    requires position.End() <= |bytes|
  {
    bytes[position.offset..position.End()]
  }

  /** `config.deserialize`: a rejected input is a `Serde` error. */
  function Decode<T>(c: Codec<T>, bytes: seq<byte>): (r: Result<T>)
    ensures r.Ok? <==> c.dec(bytes).Some?
    ensures r.Ok? ==> c.dec(bytes) == Some(r.value)
    ensures r.Err? ==> r.error == Serde
  {
    match c.dec(bytes)
    case Some(x) => Ok(x)
    case None => Err(Serde)
  }

  /** `deserialize`: decodes the bytes of one position, and nothing else. */
  function Deserialize<T>(c: Codec<T>, bytes: seq<byte>, position: Position): (r: Result<T>)
    requires position.End() <= |bytes|
    ensures r.Ok? <==> c.dec(Slice(bytes, position)).Some?
    ensures r.Ok? ==> c.dec(Slice(bytes, position)) == Some(r.value)
    ensures r.Err? ==> r.error == Serde
  {
    Decode(c, Slice(bytes, position))
  }

  predicate AllFit(positions: seq<Position>, length: nat) {
    forall k :: 0 <= k < |positions| ==> positions[k].End() <= length
  }

  predicate UncleFits(index: UncleBlockIndex, length: nat) {
    index.hash.End() <= length && index.header.End() <= length && AllFit(index.proposals, length)
  }

  predicate TransactionFits(index: TransactionIndex, length: nat) {
    && index.hash.End() <= length
    && index.version.End() <= length
    && AllFit(index.deps, length)
    && AllFit(index.inputs, length)
    && AllFit(index.outputs, length)
    && AllFit(index.witnesses, length)
  }

  /** Every position of the index lies inside a buffer of `length` bytes, so
      no slice taken while decoding goes out of range. */
  predicate BlockFits(index: BlockIndex, length: nat) {
    && index.hash.End() <= length
    && index.header.End() <= length
    && (forall k :: 0 <= k < |index.uncles| ==> UncleFits(index.uncles[k], length))
    && (forall k :: 0 <= k < |index.transactions| ==> TransactionFits(index.transactions[k], length))
    && AllFit(index.proposals, length)
  }

  /** `deserialize_many`: succeeds exactly when every position decodes, and
      then returns one value per position, in the positions' order. */
  function DeserializeMany<T>(c: Codec<T>, bytes: seq<byte>, positions: seq<Position>): (r: Result<seq<T>>)
    requires AllFit(positions, |bytes|)
    ensures r.Ok? <==> forall k :: 0 <= k < |positions| ==> c.dec(Slice(bytes, positions[k])).Some?
    ensures r.Ok? ==> |r.value| == |positions|
    ensures r.Ok? ==> forall k :: 0 <= k < |positions| ==> c.dec(Slice(bytes, positions[k])) == Some(r.value[k])
    ensures r.Err? ==> r.error == Serde
    decreases |positions|
  {
    if positions == [] then
      Ok([])
    else
      var x :- Deserialize(c, bytes, positions[0]);
      var xs :- DeserializeMany(c, bytes, positions[1..]);
      Ok([x] + xs)
  }

  /** `deserialize_uncle_block`. */
  function DeserializeUncleBlock(cfg: Config, bytes: seq<byte>, index: UncleBlockIndex): (r: Result<UncleBlockView>)
    requires UncleFits(index, |bytes|)
    ensures r.Err? ==> r.error == Serde
  {
    var hash :- Deserialize(cfg.hash, bytes, index.hash);
    var inner :- Deserialize(cfg.header, bytes, index.header);
    var proposals :- DeserializeMany(cfg.proposal, bytes, index.proposals);
    Ok(UncleBlockView(HeaderView(hash, inner), proposals))
  }

  /** `deserialize_transaction`. */
  function DeserializeTransaction(cfg: Config, bytes: seq<byte>, index: TransactionIndex): (r: Result<TransactionView>)
    requires TransactionFits(index, |bytes|)
    ensures r.Err? ==> r.error == Serde
  {
    var hash :- Deserialize(cfg.hash, bytes, index.hash);
    var version :- Deserialize(cfg.version, bytes, index.version);
    var deps :- DeserializeMany(cfg.dep, bytes, index.deps);
    var inputs :- DeserializeMany(cfg.input, bytes, index.inputs);
    var outputs :- DeserializeMany(cfg.output, bytes, index.outputs);
    var witnesses :- DeserializeMany(cfg.witnessEntry, bytes, index.witnesses);
    Ok(TransactionView(hash, Transaction(version, deps, inputs, outputs, witnesses)))
  }

  /** The collect over the uncle indexes in `deserialize_block`: one uncle per
      index, each decoded from its own index. */
  function DeserializeUncles(cfg: Config, bytes: seq<byte>, indexes: seq<UncleBlockIndex>): (r: Result<seq<UncleBlockView>>)
    requires forall k :: 0 <= k < |indexes| ==> UncleFits(indexes[k], |bytes|)
    ensures r.Ok? <==> forall k :: 0 <= k < |indexes| ==> DeserializeUncleBlock(cfg, bytes, indexes[k]).Ok?
    ensures r.Ok? ==> |r.value| == |indexes|
    ensures r.Ok? ==> forall k :: 0 <= k < |indexes| ==> DeserializeUncleBlock(cfg, bytes, indexes[k]) == Ok(r.value[k])
    ensures r.Err? ==> r.error == Serde
    decreases |indexes|
  {
    if indexes == [] then
      Ok([])
    else
      var first :- DeserializeUncleBlock(cfg, bytes, indexes[0]);
      var rest :- DeserializeUncles(cfg, bytes, indexes[1..]);
      Ok([first] + rest)
  }

  /** The collect over the transaction indexes in `deserialize_block`. */
  function DeserializeTransactions(cfg: Config, bytes: seq<byte>, indexes: seq<TransactionIndex>): (r: Result<seq<TransactionView>>)
    requires forall k :: 0 <= k < |indexes| ==> TransactionFits(indexes[k], |bytes|)
    ensures r.Ok? <==> forall k :: 0 <= k < |indexes| ==> DeserializeTransaction(cfg, bytes, indexes[k]).Ok?
    ensures r.Ok? ==> |r.value| == |indexes|
    ensures r.Ok? ==> forall k :: 0 <= k < |indexes| ==> DeserializeTransaction(cfg, bytes, indexes[k]) == Ok(r.value[k])
    ensures r.Err? ==> r.error == Serde
    decreases |indexes|
  {
    if indexes == [] then
      Ok([])
    else
      var first :- DeserializeTransaction(cfg, bytes, indexes[0]);
      var rest :- DeserializeTransactions(cfg, bytes, indexes[1..]);
      Ok([first] + rest)
  }

  /** `deserialize_block`: the full decode, walking the whole index. */
  function DeserializeBlock(cfg: Config, bytes: seq<byte>, index: BlockIndex): (r: Result<BlockView>)
    requires BlockFits(index, |bytes|)
    ensures r.Err? ==> r.error == Serde
  {
    var hash :- Deserialize(cfg.hash, bytes, index.hash);
    var inner :- Deserialize(cfg.header, bytes, index.header);
    var uncles :- DeserializeUncles(cfg, bytes, index.uncles);
    var transactions :- DeserializeTransactions(cfg, bytes, index.transactions);
    var proposals :- DeserializeMany(cfg.proposal, bytes, index.proposals);
    Ok(BlockView(HeaderView(hash, inner), uncles, transactions, proposals))
  }
}
