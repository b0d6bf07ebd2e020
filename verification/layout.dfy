/** What the serialize pass leaves in the buffer: every position of the index
    pass addresses exactly the encoding of its field. From that follow the
    full and the partial round trips of client/src/serde.rs. */
module Layout {
  import opened Wrappers
  import opened Errors
  import opened Types
  import opened Positions
  import opened Serde

  /** The bytes at `position` are exactly the encoding of `x`. */
  ghost predicate Holds<T>(c: Codec<T>, buf: seq<byte>, position: Position, x: T) {
    position.End() <= |buf| && buf[position.offset..position.End()] == c.enc(x)
  }

  ghost predicate AllHold<T>(c: Codec<T>, buf: seq<byte>, positions: seq<Position>, xs: seq<T>) {
    |positions| == |xs| && forall k :: 0 <= k < |positions| ==> Holds(c, buf, positions[k], xs[k])
  }

  ghost predicate UncleLaidOut(cfg: Config, buf: seq<byte>, index: UncleBlockIndex, uncle: UncleBlockView) {
    && Holds(cfg.hash, buf, index.hash, uncle.header.hash)
    && Holds(cfg.header, buf, index.header, uncle.header.inner)
    && AllHold(cfg.proposal, buf, index.proposals, uncle.proposals)
  }

  ghost predicate TransactionLaidOut(cfg: Config, buf: seq<byte>, index: TransactionIndex, tx: TransactionView) {
    && Holds(cfg.hash, buf, index.hash, tx.hash)
    && Holds(cfg.version, buf, index.version, tx.inner.version)
    && AllHold(cfg.dep, buf, index.deps, tx.inner.deps)
    && AllHold(cfg.input, buf, index.inputs, tx.inner.inputs)
    && AllHold(cfg.output, buf, index.outputs, tx.inner.outputs)
    && AllHold(cfg.witnessEntry, buf, index.witnesses, tx.inner.witnesses)
  }

  ghost predicate BlockLaidOut(cfg: Config, buf: seq<byte>, index: BlockIndex, block: BlockView) {
    && Holds(cfg.hash, buf, index.hash, block.header.hash)
    && Holds(cfg.header, buf, index.header, block.header.inner)
    && |index.uncles| == |block.uncles|
    && (forall k :: 0 <= k < |index.uncles| ==> UncleLaidOut(cfg, buf, index.uncles[k], block.uncles[k]))
    && |index.transactions| == |block.transactions|
    && (forall k :: 0 <= k < |index.transactions| ==>
          TransactionLaidOut(cfg, buf, index.transactions[k], block.transactions[k]))
    && AllHold(cfg.proposal, buf, index.proposals, block.proposals)
  }

  // ---------------------------------------------------------------------------
  // Appending never disturbs what is already laid out

  lemma HoldsExtends<T>(c: Codec<T>, buf: seq<byte>, position: Position, x: T, longer: seq<byte>)
    requires Holds(c, buf, position, x) && buf <= longer
    ensures Holds(c, longer, position, x)
  {
    assert longer[..|buf|] == buf;
    assert longer[position.offset..position.End()] == buf[position.offset..position.End()];
  }

  lemma AllHoldExtends<T>(c: Codec<T>, buf: seq<byte>, positions: seq<Position>, xs: seq<T>, longer: seq<byte>)
    requires AllHold(c, buf, positions, xs) && buf <= longer
    ensures AllHold(c, longer, positions, xs)
  {
    forall k | 0 <= k < |positions|
      ensures Holds(c, longer, positions[k], xs[k])
    {
      HoldsExtends(c, buf, positions[k], xs[k], longer);
    }
  }

  lemma UncleLaidOutExtends(cfg: Config, buf: seq<byte>, index: UncleBlockIndex, uncle: UncleBlockView, longer: seq<byte>)
    requires UncleLaidOut(cfg, buf, index, uncle) && buf <= longer
    ensures UncleLaidOut(cfg, longer, index, uncle)
  {
    HoldsExtends(cfg.hash, buf, index.hash, uncle.header.hash, longer);
    HoldsExtends(cfg.header, buf, index.header, uncle.header.inner, longer);
    AllHoldExtends(cfg.proposal, buf, index.proposals, uncle.proposals, longer);
  }

  lemma TransactionLaidOutExtends(cfg: Config, buf: seq<byte>, index: TransactionIndex, tx: TransactionView, longer: seq<byte>)
    requires TransactionLaidOut(cfg, buf, index, tx) && buf <= longer
    ensures TransactionLaidOut(cfg, longer, index, tx)
  {
    HoldsExtends(cfg.hash, buf, index.hash, tx.hash, longer);
    HoldsExtends(cfg.version, buf, index.version, tx.inner.version, longer);
    AllHoldExtends(cfg.dep, buf, index.deps, tx.inner.deps, longer);
    AllHoldExtends(cfg.input, buf, index.inputs, tx.inner.inputs, longer);
    AllHoldExtends(cfg.output, buf, index.outputs, tx.inner.outputs, longer);
    AllHoldExtends(cfg.witnessEntry, buf, index.witnesses, tx.inner.witnesses, longer);
  }

  lemma PrefixTransitive(a: seq<byte>, b: seq<byte>, c: seq<byte>)
    requires a <= b && b <= c
    ensures a <= c
  {
  }

  // ---------------------------------------------------------------------------
  // The serialize pass follows the index pass field by field

  lemma {:induction false} SerializeManyLaysOut<T(!new)>(c: Codec<T>, bytes: seq<byte>, xs: seq<T>)
    requires SizeExact(c)
    ensures var (end, positions) := CalculatePositions(|bytes|, SerializedSizes(c, xs));
      var buf := SerializeMany(c, bytes, xs);
      |buf| == end && AllHold(c, buf, positions, xs)
    decreases |xs|
  {
    if xs != [] {
      var sizes := SerializedSizes(c, xs);
      var (end, positions) := CalculatePositions(|bytes|, sizes);
      var first := Serialize(c, bytes, xs[0]);
      var buf := SerializeMany(c, bytes, xs);
      assert sizes[1..] == SerializedSizes(c, xs[1..]);
      SerializeManyLaysOut(c, first, xs[1..]);
      var (end', rest) := CalculatePositions(|first|, sizes[1..]);
      assert positions == [Position(|bytes|, sizes[0])] + rest;
      assert Holds(c, first, positions[0], xs[0]);
      HoldsExtends(c, first, positions[0], xs[0], buf);
      forall k | 0 <= k < |positions|
        ensures Holds(c, buf, positions[k], xs[k])
      {
        if k > 0 {
          assert positions[k] == rest[k - 1] && xs[k] == xs[1..][k - 1];
        }
      }
    }
  }

  /** A field written at the end of `bytes` (which is `offset` long) sits
      right after it, in any longer buffer. */
  lemma SerializeLaysOutIn<T(!new)>(c: Codec<T>, bytes: seq<byte>, offset: nat, x: T, buf: seq<byte>)
    requires SizeExact(c) && offset == |bytes| && Serialize(c, bytes, x) <= buf
    ensures |Serialize(c, bytes, x)| == offset + c.size(x)
    ensures Holds(c, buf, Position(offset, c.size(x)), x)
  {
    var written := Serialize(c, bytes, x);
    assert written[|bytes|..] == c.enc(x);
    HoldsExtends(c, written, Position(|bytes|, c.size(x)), x, buf);
  }

  /** `SerializeManyLaysOut`, carried over to any longer buffer. */
  lemma SerializeManyLaysOutIn<T(!new)>(c: Codec<T>, bytes: seq<byte>, offset: nat, xs: seq<T>, buf: seq<byte>)
    requires SizeExact(c) && offset == |bytes| && SerializeMany(c, bytes, xs) <= buf
    ensures |SerializeMany(c, bytes, xs)| == CalculatePositions(offset, SerializedSizes(c, xs)).0
    ensures AllHold(c, buf, CalculatePositions(offset, SerializedSizes(c, xs)).1, xs)
  {
    SerializeManyLaysOut(c, bytes, xs);
    AllHoldExtends(c, SerializeMany(c, bytes, xs), CalculatePositions(|bytes|, SerializedSizes(c, xs)).1, xs, buf);
  }

  lemma SerializeUncleBlockLaysOut(cfg: Config, bytes: seq<byte>, uncle: UncleBlockView)
    requires SizesExact(cfg)
    ensures var (end, index) := CalculateUncleBlockIndex(|bytes|, SerializedUncleBlockSize(cfg, uncle));
      var buf := SerializeUncleBlock(cfg, bytes, uncle);
      |buf| == end && UncleLaidOut(cfg, buf, index, uncle)
  {
    var b1 := Serialize(cfg.hash, bytes, uncle.header.hash);
    var b2 := Serialize(cfg.header, b1, uncle.header.inner);
    var buf := SerializeMany(cfg.proposal, b2, uncle.proposals);
    assert SerializeUncleBlock(cfg, bytes, uncle) == buf;
    assert b1 <= b2 <= buf;
    var o1 := |bytes| + cfg.hash.size(uncle.header.hash);
    SerializeLaysOutIn(cfg.hash, bytes, |bytes|, uncle.header.hash, buf);
    SerializeLaysOutIn(cfg.header, b1, o1, uncle.header.inner, buf);
    SerializeManyLaysOutIn(cfg.proposal, b2, o1 + cfg.header.size(uncle.header.inner), uncle.proposals, buf);
  }

  lemma SerializeTransactionLaysOut(cfg: Config, bytes: seq<byte>, tx: TransactionView)
    requires SizesExact(cfg)
    ensures var (end, index) := CalculateTransactionIndex(|bytes|, SerializedTransactionSize(cfg, tx));
      var buf := SerializeTransaction(cfg, bytes, tx);
      |buf| == end && TransactionLaidOut(cfg, buf, index, tx)
  {
    CalculateTransactionIndexFields(cfg, |bytes|, tx);
    SerializeTransactionFields(cfg, bytes, tx);
  }

  /** `calculate_transaction_index` on the transaction's sizes, one field after the other. */
  lemma CalculateTransactionIndexFields(cfg: Config, offset: nat, tx: TransactionView)
    ensures var o1 := offset + cfg.hash.size(tx.hash);
      var deps := CalculatePositions(o1 + cfg.version.size(tx.inner.version), SerializedSizes(cfg.dep, tx.inner.deps));
      var inputs := CalculatePositions(deps.0, SerializedSizes(cfg.input, tx.inner.inputs));
      var outputs := CalculatePositions(inputs.0, SerializedSizes(cfg.output, tx.inner.outputs));
      var witnesses := CalculatePositions(outputs.0, SerializedSizes(cfg.witnessEntry, tx.inner.witnesses));
      CalculateTransactionIndex(offset, SerializedTransactionSize(cfg, tx)) ==
        (witnesses.0, TransactionIndex(Position(offset, cfg.hash.size(tx.hash)), Position(o1, cfg.version.size(tx.inner.version)),
                                       deps.1, inputs.1, outputs.1, witnesses.1))
  {
  }

  /** The transaction's fields, written one after the other from the end of
      `bytes`, each sit where the running offset placed them. */
  lemma SerializeTransactionFields(cfg: Config, bytes: seq<byte>, tx: TransactionView)
    requires SizeExact(cfg.hash) && SizeExact(cfg.version)
    requires SizeExact(cfg.dep) && SizeExact(cfg.input) && SizeExact(cfg.output) && SizeExact(cfg.witnessEntry)
    ensures var o1 := |bytes| + cfg.hash.size(tx.hash);
      var deps := CalculatePositions(o1 + cfg.version.size(tx.inner.version), SerializedSizes(cfg.dep, tx.inner.deps));
      var inputs := CalculatePositions(deps.0, SerializedSizes(cfg.input, tx.inner.inputs));
      var outputs := CalculatePositions(inputs.0, SerializedSizes(cfg.output, tx.inner.outputs));
      var witnesses := CalculatePositions(outputs.0, SerializedSizes(cfg.witnessEntry, tx.inner.witnesses));
      var buf := SerializeTransaction(cfg, bytes, tx);
      && |buf| == witnesses.0
      && TransactionLaidOut(cfg, buf, TransactionIndex(
           Position(|bytes|, cfg.hash.size(tx.hash)), Position(o1, cfg.version.size(tx.inner.version)),
           deps.1, inputs.1, outputs.1, witnesses.1), tx)
  {
    SerializeTransactionHeadIn(cfg, bytes, tx);
    SerializeTransactionListsIn(cfg, bytes, tx);
  }

  /** The transaction hash and version sit right after `bytes`. */
  lemma SerializeTransactionHeadIn(cfg: Config, bytes: seq<byte>, tx: TransactionView)
    requires SizeExact(cfg.hash) && SizeExact(cfg.version)
    ensures var o1 := |bytes| + cfg.hash.size(tx.hash);
      var buf := SerializeTransaction(cfg, bytes, tx);
      && Holds(cfg.hash, buf, Position(|bytes|, cfg.hash.size(tx.hash)), tx.hash)
      && Holds(cfg.version, buf, Position(o1, cfg.version.size(tx.inner.version)), tx.inner.version)
  {
    var b1 := Serialize(cfg.hash, bytes, tx.hash);
    var b2 := Serialize(cfg.version, b1, tx.inner.version);
    var buf := SerializeTransaction(cfg, bytes, tx);
    assert b2 <= buf by {
      var b3 := SerializeMany(cfg.dep, b2, tx.inner.deps);
      var b4 := SerializeMany(cfg.input, b3, tx.inner.inputs);
      var b5 := SerializeMany(cfg.output, b4, tx.inner.outputs);
      PrefixTransitive(b2, b3, b4);
      PrefixTransitive(b2, b4, b5);
    }
    PrefixTransitive(b1, b2, buf);
    SerializeLaysOutIn(cfg.hash, bytes, |bytes|, tx.hash, buf);
    SerializeLaysOutIn(cfg.version, b1, |b1|, tx.inner.version, buf);
  }

  /** The four list fields of a transaction, written after its hash and version. */
  lemma SerializeTransactionListsIn(cfg: Config, bytes: seq<byte>, tx: TransactionView)
    requires SizeExact(cfg.hash) && SizeExact(cfg.version)
    requires SizeExact(cfg.dep) && SizeExact(cfg.input) && SizeExact(cfg.output) && SizeExact(cfg.witnessEntry)
    ensures var o1 := |bytes| + cfg.hash.size(tx.hash);
      var deps := CalculatePositions(o1 + cfg.version.size(tx.inner.version), SerializedSizes(cfg.dep, tx.inner.deps));
      var inputs := CalculatePositions(deps.0, SerializedSizes(cfg.input, tx.inner.inputs));
      var outputs := CalculatePositions(inputs.0, SerializedSizes(cfg.output, tx.inner.outputs));
      var witnesses := CalculatePositions(outputs.0, SerializedSizes(cfg.witnessEntry, tx.inner.witnesses));
      var buf := SerializeTransaction(cfg, bytes, tx);
      && |buf| == witnesses.0
      && AllHold(cfg.dep, buf, deps.1, tx.inner.deps)
      && AllHold(cfg.input, buf, inputs.1, tx.inner.inputs)
      && AllHold(cfg.output, buf, outputs.1, tx.inner.outputs)
      && AllHold(cfg.witnessEntry, buf, witnesses.1, tx.inner.witnesses)
  {
    var b1 := Serialize(cfg.hash, bytes, tx.hash);
    var b2 := Serialize(cfg.version, b1, tx.inner.version);
    assert |b2| == |bytes| + cfg.hash.size(tx.hash) + cfg.version.size(tx.inner.version);
    var b3 := SerializeMany(cfg.dep, b2, tx.inner.deps);
    var b4 := SerializeMany(cfg.input, b3, tx.inner.inputs);
    var b5 := SerializeMany(cfg.output, b4, tx.inner.outputs);
    var buf := SerializeMany(cfg.witnessEntry, b5, tx.inner.witnesses);
    var deps := CalculatePositions(|b2|, SerializedSizes(cfg.dep, tx.inner.deps));
    var inputs := CalculatePositions(deps.0, SerializedSizes(cfg.input, tx.inner.inputs));
    var outputs := CalculatePositions(inputs.0, SerializedSizes(cfg.output, tx.inner.outputs));
    assert b3 <= b4 <= b5 <= buf;
    SerializeManyLaysOutIn(cfg.dep, b2, |b2|, tx.inner.deps, buf);
    SerializeManyLaysOutIn(cfg.input, b3, deps.0, tx.inner.inputs, buf);
    SerializeManyLaysOutIn(cfg.output, b4, inputs.0, tx.inner.outputs, buf);
    SerializeManyLaysOutIn(cfg.witnessEntry, b5, outputs.0, tx.inner.witnesses, buf);
  }

  lemma {:induction false} SerializeUnclesLaysOut(cfg: Config, bytes: seq<byte>, uncles: seq<UncleBlockView>)
    requires SizesExact(cfg)
    ensures var (end, indexes) := CalculateUncleIndexes(|bytes|, SerializedUncleSizes(cfg, uncles));
      var buf := SerializeUncles(cfg, bytes, uncles);
      && |buf| == end
      && |indexes| == |uncles|
      && forall k :: 0 <= k < |uncles| ==> UncleLaidOut(cfg, buf, indexes[k], uncles[k])
    decreases |uncles|
  {
    if uncles != [] {
      var sizes := SerializedUncleSizes(cfg, uncles);
      var (end, indexes) := CalculateUncleIndexes(|bytes|, sizes);
      var first := SerializeUncleBlock(cfg, bytes, uncles[0]);
      var buf := SerializeUncles(cfg, bytes, uncles);
      SerializeUncleBlockLaysOut(cfg, bytes, uncles[0]);
      var (next, firstIndex) := CalculateUncleBlockIndex(|bytes|, sizes[0]);
      assert sizes[1..] == SerializedUncleSizes(cfg, uncles[1..]);
      SerializeUnclesLaysOut(cfg, first, uncles[1..]);
      var (end', rest) := CalculateUncleIndexes(next, sizes[1..]);
      assert indexes == [firstIndex] + rest;
      UncleLaidOutExtends(cfg, first, firstIndex, uncles[0], buf);
      forall k | 0 <= k < |uncles|
        ensures UncleLaidOut(cfg, buf, indexes[k], uncles[k])
      {
        if k > 0 {
          assert indexes[k] == rest[k - 1] && uncles[k] == uncles[1..][k - 1];
        }
      }
    }
  }

  lemma {:induction false} SerializeTransactionsLaysOut(cfg: Config, bytes: seq<byte>, txs: seq<TransactionView>)
    requires SizesExact(cfg)
    ensures var (end, indexes) := CalculateTransactionIndexes(|bytes|, SerializedTransactionSizes(cfg, txs));
      var buf := SerializeTransactions(cfg, bytes, txs);
      && |buf| == end
      && |indexes| == |txs|
      && forall k :: 0 <= k < |txs| ==> TransactionLaidOut(cfg, buf, indexes[k], txs[k])
    decreases |txs|
  {
    if txs != [] {
      var sizes := SerializedTransactionSizes(cfg, txs);
      var (end, indexes) := CalculateTransactionIndexes(|bytes|, sizes);
      var first := SerializeTransaction(cfg, bytes, txs[0]);
      var buf := SerializeTransactions(cfg, bytes, txs);
      SerializeTransactionLaysOut(cfg, bytes, txs[0]);
      var (next, firstIndex) := CalculateTransactionIndex(|bytes|, sizes[0]);
      assert sizes[1..] == SerializedTransactionSizes(cfg, txs[1..]);
      SerializeTransactionsLaysOut(cfg, first, txs[1..]);
      var (end', rest) := CalculateTransactionIndexes(next, sizes[1..]);
      assert indexes == [firstIndex] + rest;
      TransactionLaidOutExtends(cfg, first, firstIndex, txs[0], buf);
      forall k | 0 <= k < |txs|
        ensures TransactionLaidOut(cfg, buf, indexes[k], txs[k])
      {
        if k > 0 {
          assert indexes[k] == rest[k - 1] && txs[k] == txs[1..][k - 1];
        }
      }
    }
  }

  /** The block buffer, written from empty, is exactly as long as the index
      pass computed, and every position of the index addresses its field. */
  lemma SerializeBlockLaysOut(cfg: Config, block: BlockView)
    requires SizesExact(cfg)
    ensures var (end, index) := CalculateBlockIndex(SerializedBlockSize(cfg, block));
      var buf := SerializeBlock(cfg, [], block);
      |buf| == end && BlockLaidOut(cfg, buf, index, block)
  {
    CalculateBlockIndexFields(cfg, block);
    SerializeBlockFields(cfg, block);
  }

  /** `calculate_block_index` on the block's sizes, one field after the other. */
  lemma CalculateBlockIndexFields(cfg: Config, block: BlockView)
    ensures var o1 := cfg.hash.size(block.header.hash);
      var uncles := CalculateUncleIndexes(o1 + cfg.header.size(block.header.inner), SerializedUncleSizes(cfg, block.uncles));
      var transactions := CalculateTransactionIndexes(uncles.0, SerializedTransactionSizes(cfg, block.transactions));
      var proposals := CalculatePositions(transactions.0, SerializedSizes(cfg.proposal, block.proposals));
      CalculateBlockIndex(SerializedBlockSize(cfg, block)) ==
        (proposals.0, BlockIndex(Position(0, o1), Position(o1, cfg.header.size(block.header.inner)),
                                 uncles.1, transactions.1, proposals.1))
  {
  }

  /** The block's fields, written from empty, each sit where the running
      offset placed them. */
  lemma SerializeBlockFields(cfg: Config, block: BlockView)
    requires SizesExact(cfg)
    ensures var o1 := cfg.hash.size(block.header.hash);
      var uncles := CalculateUncleIndexes(o1 + cfg.header.size(block.header.inner), SerializedUncleSizes(cfg, block.uncles));
      var transactions := CalculateTransactionIndexes(uncles.0, SerializedTransactionSizes(cfg, block.transactions));
      var proposals := CalculatePositions(transactions.0, SerializedSizes(cfg.proposal, block.proposals));
      var buf := SerializeBlock(cfg, [], block);
      && |buf| == proposals.0
      && BlockLaidOut(cfg, buf, BlockIndex(
           Position(0, o1), Position(o1, cfg.header.size(block.header.inner)),
           uncles.1, transactions.1, proposals.1), block)
  {
    var b2 := HeadBytes(cfg, block);
    assert |b2| == cfg.hash.size(block.header.hash) + cfg.header.size(block.header.inner);
    HeadLaidOut(cfg, block, SerializeBlock(cfg, [], block));
    SerializeBodyLaysOut(cfg, block, b2);
  }

  /** The uncles, transactions and proposals, written after the header, are
      laid out as the index pass places them from that offset. */
  lemma SerializeBodyLaysOut(cfg: Config, block: BlockView, b2: seq<byte>)
    requires SizesExact(cfg)
    ensures var uncles := CalculateUncleIndexes(|b2|, SerializedUncleSizes(cfg, block.uncles));
      var transactions := CalculateTransactionIndexes(uncles.0, SerializedTransactionSizes(cfg, block.transactions));
      var proposals := CalculatePositions(transactions.0, SerializedSizes(cfg.proposal, block.proposals));
      var buf := SerializeMany(cfg.proposal, SerializeTransactions(cfg, SerializeUncles(cfg, b2, block.uncles), block.transactions), block.proposals);
      && |buf| == proposals.0
      && |uncles.1| == |block.uncles|
      && (forall k :: 0 <= k < |uncles.1| ==> UncleLaidOut(cfg, buf, uncles.1[k], block.uncles[k]))
      && |transactions.1| == |block.transactions|
      && (forall k :: 0 <= k < |transactions.1| ==> TransactionLaidOut(cfg, buf, transactions.1[k], block.transactions[k]))
      && AllHold(cfg.proposal, buf, proposals.1, block.proposals)
  {
    var b3 := SerializeUncles(cfg, b2, block.uncles);
    var b4 := SerializeTransactions(cfg, b3, block.transactions);
    var buf := SerializeMany(cfg.proposal, b4, block.proposals);
    var uncles := CalculateUncleIndexes(|b2|, SerializedUncleSizes(cfg, block.uncles));
    var transactions := CalculateTransactionIndexes(uncles.0, SerializedTransactionSizes(cfg, block.transactions));
    SerializeUnclesLaysOut(cfg, b2, block.uncles);
    SerializeTransactionsLaysOut(cfg, b3, block.transactions);
    SerializeManyLaysOut(cfg.proposal, b4, block.proposals);
    BodyLaidOut(cfg, block, b3, b4, buf, uncles.1, transactions.1);
  }

  /** The uncles and transactions, written before the proposals, stay where
      the index puts them. */
  lemma BodyLaidOut(cfg: Config, block: BlockView, b3: seq<byte>, b4: seq<byte>, buf: seq<byte>,
                    uncles: seq<UncleBlockIndex>, transactions: seq<TransactionIndex>)
    requires b3 <= b4 <= buf
    requires |uncles| == |block.uncles| && |transactions| == |block.transactions|
    requires forall k :: 0 <= k < |uncles| ==> UncleLaidOut(cfg, b3, uncles[k], block.uncles[k])
    requires forall k :: 0 <= k < |transactions| ==> TransactionLaidOut(cfg, b4, transactions[k], block.transactions[k])
    ensures forall k :: 0 <= k < |uncles| ==> UncleLaidOut(cfg, buf, uncles[k], block.uncles[k])
    ensures forall k :: 0 <= k < |transactions| ==> TransactionLaidOut(cfg, buf, transactions[k], block.transactions[k])
  {
    forall k | 0 <= k < |uncles|
      ensures UncleLaidOut(cfg, buf, uncles[k], block.uncles[k])
    {
      UncleLaidOutExtends(cfg, b3, uncles[k], block.uncles[k], buf);
    }
    forall k | 0 <= k < |transactions|
      ensures TransactionLaidOut(cfg, buf, transactions[k], block.transactions[k])
    {
      TransactionLaidOutExtends(cfg, b4, transactions[k], block.transactions[k], buf);
    }
  }

  /** The block hash and header, written first, stay where the index puts them. */
  lemma HeadLaidOut(cfg: Config, block: BlockView, buf: seq<byte>)
    requires SizeExact(cfg.hash) && SizeExact(cfg.header)
    requires HeadBytes(cfg, block) <= buf
    ensures var o1 := cfg.hash.size(block.header.hash);
      && Holds(cfg.hash, buf, Position(0, o1), block.header.hash)
      && Holds(cfg.header, buf, Position(o1, cfg.header.size(block.header.inner)), block.header.inner)
  {
    var b1 := Serialize(cfg.hash, [], block.header.hash);
    SerializeLaysOutIn(cfg.hash, [], 0, block.header.hash, buf);
    SerializeLaysOutIn(cfg.header, b1, |b1|, block.header.inner, buf);
  }

  /** The block hash and header encodings, the first bytes `serialize_block` writes. */
  function HeadBytes(cfg: Config, block: BlockView): seq<byte> {
    Serialize(cfg.header, Serialize(cfg.hash, [], block.header.hash), block.header.inner)
  }

  // ---------------------------------------------------------------------------
  // Decoding what is laid out

  lemma DeserializeManyRoundTrip<T(!new)>(c: Codec<T>, buf: seq<byte>, positions: seq<Position>, xs: seq<T>)
    requires DecodeInverse(c) && AllHold(c, buf, positions, xs)
    ensures AllFit(positions, |buf|) && DeserializeMany(c, buf, positions) == Ok(xs)
  {
    var r := DeserializeMany(c, buf, positions);
    assert r.Ok? by {
      forall k | 0 <= k < |positions|
        ensures c.dec(Slice(buf, positions[k])).Some?
      {
        assert Slice(buf, positions[k]) == c.enc(xs[k]);
      }
    }
    assert r.value == xs by {
      forall k | 0 <= k < |positions|
        ensures r.value[k] == xs[k]
      {
        assert Slice(buf, positions[k]) == c.enc(xs[k]);
      }
    }
  }

  lemma DeserializeUncleBlockRoundTrip(cfg: Config, buf: seq<byte>, index: UncleBlockIndex, uncle: UncleBlockView)
    requires DecodersInverse(cfg) && UncleLaidOut(cfg, buf, index, uncle)
    ensures UncleFits(index, |buf|) && DeserializeUncleBlock(cfg, buf, index) == Ok(uncle)
  {
    DeserializeManyRoundTrip(cfg.proposal, buf, index.proposals, uncle.proposals);
    assert Slice(buf, index.hash) == cfg.hash.enc(uncle.header.hash);
    assert Slice(buf, index.header) == cfg.header.enc(uncle.header.inner);
  }

  lemma DeserializeTransactionRoundTrip(cfg: Config, buf: seq<byte>, index: TransactionIndex, tx: TransactionView)
    requires DecodersInverse(cfg) && TransactionLaidOut(cfg, buf, index, tx)
    ensures TransactionFits(index, |buf|) && DeserializeTransaction(cfg, buf, index) == Ok(tx)
  {
    DeserializeManyRoundTrip(cfg.dep, buf, index.deps, tx.inner.deps);
    DeserializeManyRoundTrip(cfg.input, buf, index.inputs, tx.inner.inputs);
    DeserializeManyRoundTrip(cfg.output, buf, index.outputs, tx.inner.outputs);
    DeserializeManyRoundTrip(cfg.witnessEntry, buf, index.witnesses, tx.inner.witnesses);
    assert Slice(buf, index.hash) == cfg.hash.enc(tx.hash);
    assert Slice(buf, index.version) == cfg.version.enc(tx.inner.version);
  }

  lemma {:induction false} DeserializeUnclesRoundTrip(cfg: Config, buf: seq<byte>, indexes: seq<UncleBlockIndex>, uncles: seq<UncleBlockView>)
    requires DecodersInverse(cfg) && |indexes| == |uncles|
    requires forall k :: 0 <= k < |indexes| ==> UncleLaidOut(cfg, buf, indexes[k], uncles[k])
    ensures forall k :: 0 <= k < |indexes| ==> UncleFits(indexes[k], |buf|)
    ensures DeserializeUncles(cfg, buf, indexes) == Ok(uncles)
  {
    forall k | 0 <= k < |indexes|
      ensures UncleFits(indexes[k], |buf|)
      ensures DeserializeUncleBlock(cfg, buf, indexes[k]) == Ok(uncles[k])
    {
      DeserializeUncleBlockRoundTrip(cfg, buf, indexes[k], uncles[k]);
    }
    var r := DeserializeUncles(cfg, buf, indexes);
    assert r.Ok? && r.value == uncles;
  }

  lemma {:induction false} DeserializeTransactionsRoundTrip(cfg: Config, buf: seq<byte>, indexes: seq<TransactionIndex>, txs: seq<TransactionView>)
    requires DecodersInverse(cfg) && |indexes| == |txs|
    requires forall k :: 0 <= k < |indexes| ==> TransactionLaidOut(cfg, buf, indexes[k], txs[k])
    ensures forall k :: 0 <= k < |indexes| ==> TransactionFits(indexes[k], |buf|)
    ensures DeserializeTransactions(cfg, buf, indexes) == Ok(txs)
  {
    forall k | 0 <= k < |indexes|
      ensures TransactionFits(indexes[k], |buf|)
      ensures DeserializeTransaction(cfg, buf, indexes[k]) == Ok(txs[k])
    {
      DeserializeTransactionRoundTrip(cfg, buf, indexes[k], txs[k]);
    }
    var r := DeserializeTransactions(cfg, buf, indexes);
    assert r.Ok? && r.value == txs;
  }

  lemma DeserializeBlockRoundTrip(cfg: Config, buf: seq<byte>, index: BlockIndex, block: BlockView)
    requires DecodersInverse(cfg) && BlockLaidOut(cfg, buf, index, block)
    ensures BlockFits(index, |buf|) && DeserializeBlock(cfg, buf, index) == Ok(block)
  {
    DeserializeUnclesRoundTrip(cfg, buf, index.uncles, block.uncles);
    DeserializeTransactionsRoundTrip(cfg, buf, index.transactions, block.transactions);
    DeserializeManyRoundTrip(cfg.proposal, buf, index.proposals, block.proposals);
    assert Slice(buf, index.hash) == cfg.hash.enc(block.header.hash);
    assert Slice(buf, index.header) == cfg.header.enc(block.header.inner);
  }
}
