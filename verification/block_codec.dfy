/** `serialize_block_with_index` and the guarantees the store relies on: the
    buffer is exactly as long as the index says, the index tiles it in field
    order, and any one position of the index decodes to its own field. */
module BlockCodec {
  import opened Wrappers
  import opened Errors
  import opened Types
  import opened Positions
  import opened Serde
  import opened Layout

  /** The index the codec computes for `block`. */
  function BlockIndexOf(cfg: Config, block: BlockView): BlockIndex {
    CalculateBlockIndex(SerializedBlockSize(cfg, block)).1
  }

  /** `serialize_block_with_index`: the block buffer and the encoded index.
      The Rust `assert_eq!(block_length, block_bytes.len())` is the
      `assert` below; it holds whenever bincode's sizes are exact. */
  function SerializeBlockWithIndex(cfg: Config, block: BlockView): (r: (seq<byte>, seq<byte>))
    requires SizesExact(cfg)
    ensures |r.0| == CalculateBlockIndex(SerializedBlockSize(cfg, block)).0
  {
    var size := SerializedBlockSize(cfg, block);
    var (blockLength, blockIndex) := CalculateBlockIndex(size);
    var blockBytes := SerializeBlock(cfg, [], block);
    SerializeBlockLaysOut(cfg, block);
    assert blockLength == |blockBytes|;
    (blockBytes, cfg.index.enc(blockIndex))
  }

  /** The buffer holds every field's encoding at its position in the index,
      the index tiles the buffer in field order, and the encoded index
      decodes back when the index codec is lawful. */
  lemma SerializeBlockWithIndexLaysOut(cfg: Config, block: BlockView)
    requires SizesExact(cfg)
    ensures var (buf, indexBytes) := SerializeBlockWithIndex(cfg, block);
      && BlockLaidOut(cfg, buf, BlockIndexOf(cfg, block), block)
      && Tiles(FlatBlockIndex(BlockIndexOf(cfg, block)), FlatBlockSize(SerializedBlockSize(cfg, block)), 0, |buf|)
      && (DecodeInverse(cfg.index) ==> cfg.index.dec(indexBytes) == Some(BlockIndexOf(cfg, block)))
  {
    SerializeBlockLaysOut(cfg, block);
    CalculateBlockIndexTiles(SerializedBlockSize(cfg, block));
  }

  /** Index monotonicity: the positions, in serialization order, start at 0,
      each ends where the next begins, each has its field's size, and the last
      ends at the end of the buffer. */
  lemma BlockIndexContiguous(cfg: Config, block: BlockView)
    requires SizesExact(cfg)
    ensures var (buf, _) := SerializeBlockWithIndex(cfg, block);
      var positions := FlatBlockIndex(BlockIndexOf(cfg, block));
      var sizes := FlatBlockSize(SerializedBlockSize(cfg, block));
      && |positions| == |sizes| >= 2
      && positions[0].offset == 0
      && positions[|positions| - 1].End() == |buf|
      && (forall k :: 0 <= k < |positions| ==> positions[k].length == sizes[k] && positions[k].End() <= |buf|)
      && (forall k :: 0 <= k < |positions| - 1 ==> positions[k].End() == positions[k + 1].offset)
      && |buf| == Sum(sizes)
  {
    SerializeBlockWithIndexLaysOut(cfg, block);
    var (buf, _) := SerializeBlockWithIndex(cfg, block);
    var index := BlockIndexOf(cfg, block);
    var positions := FlatBlockIndex(index);
    TilesContiguous(positions, FlatBlockSize(SerializedBlockSize(cfg, block)), |buf|);
    assert |positions| == 2 + |FlatUncleIndexes(index.uncles) + FlatTransactionIndexes(index.transactions) + index.proposals|;
  }

  /** Full round trip: the stored index decodes, fits the buffer, and the
      full decode of the buffer along it gives back the block. */
  lemma FullRoundTrip(cfg: Config, block: BlockView)
    requires Lawful(cfg)
    ensures var (buf, indexBytes) := SerializeBlockWithIndex(cfg, block);
      var index := BlockIndexOf(cfg, block);
      && cfg.index.dec(indexBytes) == Some(index)
      && BlockFits(index, |buf|)
      && DeserializeBlock(cfg, buf, index) == Ok(block)
  {
    SerializeBlockWithIndexLaysOut(cfg, block);
    var (buf, _) := SerializeBlockWithIndex(cfg, block);
    DeserializeBlockRoundTrip(cfg, buf, BlockIndexOf(cfg, block), block);
  }

  /** Partial round trip: the `k`-th transaction index alone decodes to the `k`-th transaction. */
  lemma TransactionRoundTrip(cfg: Config, block: BlockView, k: nat)
    requires Lawful(cfg) && k < |block.transactions|
    ensures var (buf, _) := SerializeBlockWithIndex(cfg, block);
      var index := BlockIndexOf(cfg, block);
      && k < |index.transactions|
      && TransactionFits(index.transactions[k], |buf|)
      && DeserializeTransaction(cfg, buf, index.transactions[k]) == Ok(block.transactions[k])
  {
    SerializeBlockWithIndexLaysOut(cfg, block);
    var (buf, _) := SerializeBlockWithIndex(cfg, block);
    var index := BlockIndexOf(cfg, block);
    DeserializeTransactionRoundTrip(cfg, buf, index.transactions[k], block.transactions[k]);
  }

  /** Partial round trip for the `k`-th uncle. */
  lemma UncleRoundTrip(cfg: Config, block: BlockView, k: nat)
    requires Lawful(cfg) && k < |block.uncles|
    ensures var (buf, _) := SerializeBlockWithIndex(cfg, block);
      var index := BlockIndexOf(cfg, block);
      && k < |index.uncles|
      && UncleFits(index.uncles[k], |buf|)
      && DeserializeUncleBlock(cfg, buf, index.uncles[k]) == Ok(block.uncles[k])
  {
    SerializeBlockWithIndexLaysOut(cfg, block);
    var (buf, _) := SerializeBlockWithIndex(cfg, block);
    var index := BlockIndexOf(cfg, block);
    DeserializeUncleBlockRoundTrip(cfg, buf, index.uncles[k], block.uncles[k]);
  }

  /** Partial round trip for a single field: output `j` of transaction `k`. */
  lemma CellOutputRoundTrip(cfg: Config, block: BlockView, k: nat, j: nat)
    requires Lawful(cfg) && k < |block.transactions| && j < |block.transactions[k].inner.outputs|
    ensures var (buf, _) := SerializeBlockWithIndex(cfg, block);
      var index := BlockIndexOf(cfg, block);
      && k < |index.transactions|
      && j < |index.transactions[k].outputs|
      && index.transactions[k].outputs[j].End() <= |buf|
      && Deserialize(cfg.output, buf, index.transactions[k].outputs[j]) == Ok(block.transactions[k].inner.outputs[j])
  {
    SerializeBlockWithIndexLaysOut(cfg, block);
    var (buf, _) := SerializeBlockWithIndex(cfg, block);
    var index := BlockIndexOf(cfg, block);
    var position := index.transactions[k].outputs[j];
    assert Holds(cfg.output, buf, position, block.transactions[k].inner.outputs[j]);
    assert Slice(buf, position) == cfg.output.enc(block.transactions[k].inner.outputs[j]);
  }

  /** Partial round trip for the `j`-th proposal of the block. */
  lemma ProposalRoundTrip(cfg: Config, block: BlockView, j: nat)
    requires Lawful(cfg) && j < |block.proposals|
    ensures var (buf, _) := SerializeBlockWithIndex(cfg, block);
      var index := BlockIndexOf(cfg, block);
      && j < |index.proposals|
      && index.proposals[j].End() <= |buf|
      && Deserialize(cfg.proposal, buf, index.proposals[j]) == Ok(block.proposals[j])
  {
    SerializeBlockWithIndexLaysOut(cfg, block);
    var (buf, _) := SerializeBlockWithIndex(cfg, block);
    var index := BlockIndexOf(cfg, block);
    assert Holds(cfg.proposal, buf, index.proposals[j], block.proposals[j]);
    assert Slice(buf, index.proposals[j]) == cfg.proposal.enc(block.proposals[j]);
  }

  /** Two buffers hold the same bytes at every one of `positions`. */
  ghost predicate AgreeOn(buf1: seq<byte>, buf2: seq<byte>, positions: seq<Position>) {
    && AllFit(positions, |buf1|)
    && AllFit(positions, |buf2|)
    && forall k :: 0 <= k < |positions| ==> Slice(buf1, positions[k]) == Slice(buf2, positions[k])
  }

  lemma AgreeOnPart(buf1: seq<byte>, buf2: seq<byte>, whole: seq<Position>, before: seq<Position>,
                    part: seq<Position>, after: seq<Position>)
    requires whole == before + part + after
    requires AgreeOn(buf1, buf2, whole)
    ensures AgreeOn(buf1, buf2, part)
  {
    forall k | 0 <= k < |part|
      ensures part[k] == whole[|before| + k]
    {
    }
  }

  lemma DeserializeManyLocal<T>(c: Codec<T>, buf1: seq<byte>, buf2: seq<byte>, positions: seq<Position>)
    requires AgreeOn(buf1, buf2, positions)
    ensures DeserializeMany(c, buf1, positions) == DeserializeMany(c, buf2, positions)
  {
    var r1, r2 := DeserializeMany(c, buf1, positions), DeserializeMany(c, buf2, positions);
    if r1.Ok? && r2.Ok? {
      assert r1.value == r2.value;
    }
  }

  /** Decoding one transaction reads only the bytes its own index addresses:
      buffers that agree there, whatever they hold elsewhere (sibling
      transactions, uncles, proposals), decode to the same result. */
  lemma DeserializeTransactionReadsOnlyItsFields(cfg: Config, buf1: seq<byte>, buf2: seq<byte>, index: TransactionIndex)
    requires AgreeOn(buf1, buf2, FlatTransactionIndex(index))
    ensures TransactionFits(index, |buf1|) && TransactionFits(index, |buf2|)
    ensures DeserializeTransaction(cfg, buf1, index) == DeserializeTransaction(cfg, buf2, index)
  {
    var whole := FlatTransactionIndex(index);
    var head := [index.hash, index.version];
    AgreeOnPart(buf1, buf2, whole, [], head, index.deps + index.inputs + index.outputs + index.witnesses);
    AgreeOnPart(buf1, buf2, whole, head, index.deps, index.inputs + index.outputs + index.witnesses);
    AgreeOnPart(buf1, buf2, whole, head + index.deps, index.inputs, index.outputs + index.witnesses);
    AgreeOnPart(buf1, buf2, whole, head + index.deps + index.inputs, index.outputs, index.witnesses);
    AgreeOnPart(buf1, buf2, whole, head + index.deps + index.inputs + index.outputs, index.witnesses, []);
    assert head[0] == index.hash && head[1] == index.version;
    DeserializeManyLocal(cfg.dep, buf1, buf2, index.deps);
    DeserializeManyLocal(cfg.input, buf1, buf2, index.inputs);
    DeserializeManyLocal(cfg.output, buf1, buf2, index.outputs);
    DeserializeManyLocal(cfg.witnessEntry, buf1, buf2, index.witnesses);
  }

  /** Decoding one uncle reads only the bytes its own index addresses. */
  lemma DeserializeUncleBlockReadsOnlyItsFields(cfg: Config, buf1: seq<byte>, buf2: seq<byte>, index: UncleBlockIndex)
    requires AgreeOn(buf1, buf2, FlatUncleIndex(index))
    ensures UncleFits(index, |buf1|) && UncleFits(index, |buf2|)
    ensures DeserializeUncleBlock(cfg, buf1, index) == DeserializeUncleBlock(cfg, buf2, index)
  {
    var whole := FlatUncleIndex(index);
    var head := [index.hash, index.header];
    AgreeOnPart(buf1, buf2, whole, [], head, index.proposals);
    AgreeOnPart(buf1, buf2, whole, head, index.proposals, []);
    assert head[0] == index.hash && head[1] == index.header;
    DeserializeManyLocal(cfg.proposal, buf1, buf2, index.proposals);
  }
}
