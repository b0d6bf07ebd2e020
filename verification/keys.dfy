/** Fixed-width key and value encodings of the store (client/src/storage.rs):
    `u64::to_le_bytes`, the 16-byte location `Index` and the 36-byte live-cell
    key `CellIndex`. */
module Keys {
  import opened Types

  function Pow256(width: nat): (r: nat)
    ensures r > 0
  {
    if width == 0 then 1 else 256 * Pow256(width - 1)
  }

  /** The `width` low-order bytes of `n`, least significant first: the value
      modulo 256^width, as a fixed-width little-endian integer holds it. */
  function LeBytes(n: nat, width: nat): (r: seq<byte>)
    ensures |r| == width
  {
    if width == 0 then [] else [(n % 256) as byte] + LeBytes(n / 256, width - 1)
  }

  /** Reads a little-endian unsigned integer. */
  function FromLe(bytes: seq<byte>): (r: nat)
    ensures r < Pow256(|bytes|)
  {
    if bytes == [] then 0 else bytes[0] as nat + 256 * FromLe(bytes[1..])
  }

  lemma Pow256Values()
    ensures Pow256(4) == U32_LIMIT
    ensures Pow256(8) == U64_LIMIT
  {
    assert Pow256(1) == 256;
    assert Pow256(2) == 0x1_0000;
    assert Pow256(3) == 0x100_0000;
    assert Pow256(4) == 0x1_0000_0000;
    assert Pow256(5) == 0x100_0000_0000;
    assert Pow256(6) == 0x1_0000_0000_0000;
    assert Pow256(7) == 0x100_0000_0000_0000;
  }

  /** Decoding the little-endian bytes of a value that fits the width gives the value back. */
  lemma {:induction false} LeBytesRoundTrip(n: nat, width: nat)
    requires n < Pow256(width)
    ensures FromLe(LeBytes(n, width)) == n
  {
    if width > 0 {
      assert n / 256 < Pow256(width - 1);
      LeBytesRoundTrip(n / 256, width - 1);
      var bytes := LeBytes(n, width);
      assert bytes[1..] == LeBytes(n / 256, width - 1);
    }
  }

  /** Re-encoding a little-endian reading at the same width gives the bytes back. */
  lemma {:induction false} FromLeRoundTrip(bytes: seq<byte>)
    ensures LeBytes(FromLe(bytes), |bytes|) == bytes
  {
    if bytes != [] {
      var n := FromLe(bytes);
      assert n % 256 == bytes[0] as nat && n / 256 == FromLe(bytes[1..]);
      FromLeRoundTrip(bytes[1..]);
      assert bytes == [bytes[0]] + bytes[1..];
    }
  }

  /** `u64::to_le_bytes`: the key of the number-indexed tables. */
  function U64Bytes(n: u64): (r: seq<byte>)
    ensures |r| == 8
  {
    LeBytes(n, 8)
  }

  lemma U64BytesInjective(a: u64, b: u64)
    requires U64Bytes(a) == U64Bytes(b)
    ensures a == b
  {
    Pow256Values();
    LeBytesRoundTrip(a, 8);
    LeBytesRoundTrip(b, 8);
  }

  /** The location of an uncle or a transaction: the number of its block and
      its slot within that block. */
  datatype Index = Index(number: u64, slot: usize)

  /** `Index::into_bytes`: 8 little-endian bytes of the number, then 8 of the slot. */
  function IndexIntoBytes(index: Index): (r: seq<byte>)
    ensures |r| == 16
  {
    LeBytes(index.number, 8) + LeBytes(index.slot, 8)
  }

  /** `Index::from_slice`: reads the first 16 bytes; on a shorter slice its
      `copy_from_slice` panics, hence the precondition. */
  function IndexFromSlice(slice: seq<byte>): Index
    requires |slice| >= 16
  {
    Pow256Values();
    Index(FromLe(slice[0..8]), FromLe(slice[8..16]))
  }

  /** The location read from a slice is the one whose encoding is the slice's first 16 bytes. */
  lemma IndexFromSliceInverse(slice: seq<byte>)
    requires |slice| >= 16
    ensures IndexIntoBytes(IndexFromSlice(slice)) == slice[..16]
  {
    FromLeRoundTrip(slice[0..8]);
    FromLeRoundTrip(slice[8..16]);
    assert slice[..16] == slice[0..8] + slice[8..16];
  }

  /** A stored location reads back as the location written, whatever follows the 16 bytes. */
  lemma IndexRoundTrip(index: Index, suffix: seq<byte>)
    ensures IndexFromSlice(IndexIntoBytes(index) + suffix) == index
  {
    Pow256Values();
    var bytes := IndexIntoBytes(index) + suffix;
    assert bytes[0..8] == LeBytes(index.number, 8);
    assert bytes[8..16] == LeBytes(index.slot, 8);
    LeBytesRoundTrip(index.number, 8);
    LeBytesRoundTrip(index.slot, 8);
  }

  /** The key of the live-cell table: output `index` of transaction `txHash`. */
  datatype CellIndex = CellIndex(txHash: Hash, index: usize)

  /** `CellIndex::into_bytes`: the 32 hash bytes, then `index as u32` in
      little-endian order; the cast keeps the index modulo 2^32. */
  function CellIndexIntoBytes(cell: CellIndex): (r: seq<byte>)
    ensures |r| == 36
  {
    cell.txHash + LeBytes(cell.index % U32_LIMIT, 4)
  }

  /** Below 2^32 distinct cells get distinct keys, and the key is the hash followed by the index. */
  lemma CellIndexInjective(a: CellIndex, b: CellIndex)
    requires a.index < U32_LIMIT && b.index < U32_LIMIT
    ensures CellIndexIntoBytes(a) == CellIndexIntoBytes(b) <==> a == b
  {
    if CellIndexIntoBytes(a) == CellIndexIntoBytes(b) {
      CellKeyParts(a);
      CellKeyParts(b);
    }
  }

  /** Below 2^32 a cell key reads back as its hash and its index. */
  lemma CellKeyParts(cell: CellIndex)
    requires cell.index < U32_LIMIT
    ensures CellIndexIntoBytes(cell)[..32] == cell.txHash
    ensures FromLe(CellIndexIntoBytes(cell)[32..]) == cell.index
  {
    Pow256Values();
    var key := CellIndexIntoBytes(cell);
    assert cell.index % U32_LIMIT == cell.index;
    assert key[32..] == LeBytes(cell.index, 4);
    LeBytesRoundTrip(cell.index, 4);
  }

  /** The `as u32` cast makes output `2^32 + j` of a transaction share the key of output `j`. */
  lemma CellIndexWrapsAt32Bits(txHash: Hash, index: usize)
    requires index >= U32_LIMIT
    ensures CellIndexIntoBytes(CellIndex(txHash, index)) == CellIndexIntoBytes(CellIndex(txHash, index - U32_LIMIT))
  {
    ModShift32(index - U32_LIMIT);
  }

  /** Adding 2^32 once does not change the remainder modulo 2^32. */
  lemma ModShift32(j: nat)
    ensures (j + U32_LIMIT) % U32_LIMIT == j % U32_LIMIT
  {
  }
}
