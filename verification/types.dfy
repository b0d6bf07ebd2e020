/** The block values the store persists, as the JSON-RPC types deliver them.
    Only the fields the store reads are given structure; the other fields of a
    header, a cell output and a script are carried as opaque payloads. */
module Types {
  import opened Wrappers

  newtype byte = x: int | 0 <= x < 256

  const U32_LIMIT: int := 0x1_0000_0000
  const U64_LIMIT: int := 0x1_0000_0000_0000_0000

  type u32 = x: int | 0 <= x < U32_LIMIT
  type u64 = x: int | 0 <= x < U64_LIMIT
  /** The store is built for 64-bit targets, where `usize` and `u64` have the same range. */
  type usize = u64

  const HASH_LENGTH: nat := 32
  const ZERO_HASH: seq<byte> := seq(HASH_LENGTH, _ => 0)

  /** An `H256`: exactly 32 bytes. */
  type Hash = s: seq<byte> | |s| == HASH_LENGTH witness ZERO_HASH

  /** A header; everything but the block number is an opaque payload here. */
  datatype Header = Header(number: u64, fields: seq<byte>)

  datatype HeaderView = HeaderView(hash: Hash, inner: Header)

  datatype ProposalShortId = ProposalShortId(id: seq<byte>)

  /** The output `index` of transaction `txHash`. The JSON-RPC integer type
      carries a `u64`; `CellIndex::into_bytes` later keeps only its low 32 bits. */
  datatype CellOutPoint = CellOutPoint(txHash: Hash, index: u64)

  datatype OutPoint = OutPoint(cell: Option<CellOutPoint>, blockHash: Option<Hash>)

  datatype CellInput = CellInput(previousOutput: OutPoint, since: u64)

  datatype CellOutput = CellOutput(capacity: u64, data: seq<byte>, lock: seq<byte>, typeScript: Option<seq<byte>>)

  datatype Witness = Witness(data: seq<seq<byte>>)

  datatype Transaction = Transaction(
    version: u32,
    deps: seq<OutPoint>,
    inputs: seq<CellInput>,
    outputs: seq<CellOutput>,
    witnesses: seq<Witness>)

  datatype TransactionView = TransactionView(hash: Hash, inner: Transaction)

  datatype UncleBlockView = UncleBlockView(header: HeaderView, proposals: seq<ProposalShortId>)

  datatype BlockView = BlockView(
    header: HeaderView,
    uncles: seq<UncleBlockView>,
    transactions: seq<TransactionView>,
    proposals: seq<ProposalShortId>)

  /** A block that exists in memory: every slot the store enumerates
      (uncle, transaction, output) is a `usize`. */
  predicate Addressable(b: BlockView) {
    && |b.uncles| < U64_LIMIT
    && |b.transactions| < U64_LIMIT
    && forall k :: 0 <= k < |b.transactions| ==> |b.transactions[k].inner.outputs| < U64_LIMIT
  }
}
