/** The constants of header/common_config.h and the raw types of the disk. */
module Geometry {

  const N := 512          // addresses per block
  const BLOCK_SIZE := 4096
  const DIRECT := 10      // direct addresses in an inode
  const INODES_PER_BLOCK := 15

  /** The sizes that depend on the disk at hand; every result holds for all of them. */
  datatype Layout = Layout(inodeBlocks: int, blocks: int)

  type DiskLayout = l: Layout |
      && 2 <= l.inodeBlocks
      && 2 * l.inodeBlocks + 2 <= l.blocks
      && l.blocks < 0x8_0000_0000_0000  // so many that their bytes are counted by 64 bits
    witness Layout(157286, 10485760)

  const LAYOUT: DiskLayout

  const INODE_BLOCK_COUNT: int := LAYOUT.inodeBlocks
  const BLOCK_COUNT: int := LAYOUT.blocks
  // The bound of the bump pointer; the blocks from here to BLOCK_COUNT are never used.
  const NUM_OF_DATA_BLOCKS: int := BLOCK_COUNT - INODE_BLOCK_COUNT - 1

  type byte = x: int | 0 <= x < 256

  type Block = s: seq<byte> | |s| == BLOCK_SIZE witness Zeros(BLOCK_SIZE)

  /** A run of zero bytes, what `calloc` and `memset` leave. */
  function Zeros(n: nat): (s: seq<byte>)
    ensures |s| == n && forall i :: 0 <= i < n ==> s[i] == 0
  {
    seq(n, _ => 0)
  }

  function ZeroBlock(): Block {
    Zeros(BLOCK_SIZE)
  }

  type Image = s: seq<Block> | |s| == BLOCK_COUNT witness seq<Block>(BLOCK_COUNT, _ => ZeroBlock())

  /** A block the data area may ever hand out. */
  predicate InData(b: int) {
    INODE_BLOCK_COUNT < b < NUM_OF_DATA_BLOCKS
  }
}
