/** Address translation, bounded file reads and grid block headers. */
module Layout {
  import opened Wrappers
  import opened Records

  datatype ReaderError = Io | InvalidBlock | NotCheckpointed(sequence: nat)

  /** On-disk layout of a data file. */
  datatype Config = Config(
    blockSize: nat, superblockCopySize: nat, superblockCopies: nat, gridZoneStart: nat,
    journalSlotCount: nat, messageSizeMax: nat)
  {
    /**
      Block addresses start at 1. Address 0 is the null sentinel: without debug assertions the subtraction
      wraps, and what is addressed is the block just before the grid zone.
     */
    function BlockOffset(address: nat): int {
      gridZoneStart + (address - 1) * blockSize
    }

    function WalHeadersStart(): nat {
      superblockCopies * superblockCopySize
    }

    function WalPreparesStart(): nat {
      WalHeadersStart() + journalSlotCount * 256
    }
  }

  /** Blocks at different addresses never overlap. */
  lemma BlocksDisjoint(config: Config, a: nat, b: nat)
    requires a < b
    ensures config.BlockOffset(a) + config.blockSize <= config.BlockOffset(b)
  {
    OffsetsGrow(a - 1, b - 1, config.blockSize);
  }

  lemma {:induction false} OffsetsGrow(i: int, j: int, size: nat)
    requires i < j
    ensures i * size + size <= j * size
    decreases j - i
  {
    assert j * size == (j - 1) * size + size;
    if i < j - 1 {
      OffsetsGrow(i, j - 1, size);
    }
  }

  /** The data file, as the bytes it holds. */
  type File = seq<Byte>

  /** Seek and read exactly `n` bytes; fails outside the file. */
  function ReadExact(file: File, offset: int, n: nat): (r: Result<seq<Byte>, ReaderError>)
    ensures r.Ok? ==> |r.value| == n
    ensures r.Err? ==> r.error == Io
  {
    if 0 <= offset && offset + n <= |file| then Ok(file[offset..offset + n]) else Err(Io)
  }

  const HEADER_SIZE: nat := 256
  const COMMAND_BLOCK: nat := 20
  const BLOCK_TYPE_MANIFEST: nat := 3
  const BLOCK_TYPE_INDEX: nat := 4
  const BLOCK_TYPE_VALUE: nat := 5
  const OFF_SIZE: nat := 96
  const OFF_COMMAND: nat := 114
  const OFF_METADATA: nat := 128
  const OFF_ADDRESS: nat := 224
  const OFF_BLOCK_TYPE: nat := 240

  datatype BlockHeader = BlockHeader(size: nat, blockType: nat) {
    function BodySize(): nat {
      if size >= HEADER_SIZE then size - HEADER_SIZE else 0
    }
  }

  /** Checks the block header; the size it returns bounds every record slot of the block. */
  function ParseHeader(block: seq<Byte>): (r: Result<BlockHeader, ReaderError>)
    ensures r.Ok? ==> HEADER_SIZE <= r.value.size <= |block|
    ensures r.Ok? ==> HEADER_SIZE + r.value.BodySize() == r.value.size
    ensures r.Err? ==> r.error == InvalidBlock
  {
    if |block| < HEADER_SIZE then Err(InvalidBlock)
    else if block[OFF_COMMAND] != COMMAND_BLOCK then Err(InvalidBlock)
    else
      var size := ReadU32(block, OFF_SIZE);
      if size < HEADER_SIZE then Err(InvalidBlock)
      else if size > |block| then Err(InvalidBlock)
      else if ReadU64(block, OFF_ADDRESS) == 0 then Err(InvalidBlock)
      else Ok(BlockHeader(size, block[OFF_BLOCK_TYPE]))
  }

  /** A block of the expected type, or an error. */
  function ReadBlock(file: File, config: Config, address: nat, blockType: nat): (r: Result<seq<Byte>, ReaderError>)
    ensures r.Ok? ==> |r.value| == config.blockSize >= HEADER_SIZE && ParseHeader(r.value).Ok?
    ensures r.Err? ==> r.error == Io || r.error == InvalidBlock
  {
    var block :- ReadExact(file, config.BlockOffset(address), config.blockSize);
    var header :- ParseHeader(block);
    if header.blockType != blockType then Err(InvalidBlock) else Ok(block)
  }
}
