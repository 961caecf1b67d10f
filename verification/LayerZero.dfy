/** The memory-backed disk and its superblock (src/layerZero.cpp). */
module LayerZero {
  import opened Geometry
  import opened Words
  import opened FreeList
  import opened Wrappers

  /** The contents of every block and the set of blocks in use. */
  datatype Store = Store(img: Image, live: set<int>)

  /** The superblock as block 0 holds it: the two fixed sizes, the bump pointer, the list head and the inode count. */
  function SuperImage(maxAlloc: int, freelistHead: int): Block
    requires IsInt64(maxAlloc) && IsInt64(freelistHead)
  {
    var block := PutWord(PutWord(ZeroBlock(), 0, INODE_BLOCK_COUNT), 1, NUM_OF_DATA_BLOCKS);
    PutWord(PutWord(PutWord(block, 2, maxAlloc), 3, freelistHead), 4, INODE_BLOCK_COUNT * INODES_PER_BLOCK)
  }

  /** What is read back of it. */
  lemma SuperWords(maxAlloc: int, freelistHead: int)
    requires IsInt64(maxAlloc) && IsInt64(freelistHead)
    ensures var block := SuperImage(maxAlloc, freelistHead);
      && Word(block, 0) == LAYOUT.inodeBlocks && Word(block, 1) == LAYOUT.blocks - LAYOUT.inodeBlocks - 1
      && Word(block, 2) == maxAlloc && Word(block, 3) == freelistHead
      && Word(block, 4) == LAYOUT.inodeBlocks * 15
  {
    hide Word, PutWord;
    var b0 := PutWord(ZeroBlock(), 0, INODE_BLOCK_COUNT);
    var b1 := PutWord(b0, 1, NUM_OF_DATA_BLOCKS);
    var b2 := PutWord(b1, 2, maxAlloc);
    var b3 := PutWord(b2, 3, freelistHead);
    PutWordAll(ZeroBlock(), 0, INODE_BLOCK_COUNT);
    PutWordAll(b0, 1, NUM_OF_DATA_BLOCKS);
    PutWordAll(b1, 2, maxAlloc);
    PutWordAll(b2, 3, freelistHead);
    PutWordAll(b3, 4, INODE_BLOCK_COUNT * INODES_PER_BLOCK);
  }

  class Disk {
    const mem: array<Block>     // fs_memory_ptr, one entry a block
    var maxAlloc: int           // fs_superblock: the bump pointer
    var freelistHead: int       // fs_superblock: first block of the free list, or 0

    ghost var img: Image        // mem[..], but for the superblock in block 0
    ghost var free: seq<int>    // the blocks of the free list, in order
    ghost var live: set<int>    // the blocks handed out and not given back

    ghost predicate Mirrored()
      reads this, mem
    {
      && mem.Length == BLOCK_COUNT && img[0] == ZeroBlock()
      && forall b :: 1 <= b < BLOCK_COUNT ==> img[b] == mem[b]
    }

    /** The superblock in block 0 is the one given. */
    ghost predicate Saved(maxAlloc: int, freelistHead: int)
      reads this, mem
    {
      && IsInt64(maxAlloc) && IsInt64(freelistHead)
      && mem.Length == BLOCK_COUNT && mem[0] == SuperImage(maxAlloc, freelistHead)
    }

    /** The allocator's state is as its fields say, and block 0 has a copy of them. */
    ghost predicate Valid()
      reads this, mem
      ensures Valid() ==> Mirrored()
    {
      Mirrored() && Saved(maxAlloc, freelistHead) && Allocates(maxAlloc, freelistHead)
    }

    ghost predicate Allocates(maxAlloc: int, freelistHead: int)
      reads this
    {
      Allocator(img, maxAlloc, freelistHead, free) && live == LiveBlocks(maxAlloc, free)
    }

    ghost function Now(): Store
      reads this
    {
      Store(img, live)
    }

    /** A fresh disk: zeroed memory and the superblock of fs_create_superblock. */
    constructor ()
      ensures Valid() && fresh(mem)
      ensures live == {} && free == []
      ensures forall b :: 0 <= b < BLOCK_COUNT ==> img[b] == ZeroBlock()
    {
      mem := new Block[BLOCK_COUNT](_ => ZeroBlock());
      maxAlloc := INODE_BLOCK_COUNT + 1;
      freelistHead := 0;
      free, live := [], {};
      new;
      img := mem[..];
      var _ := WriteSuperblock();
    }

    predicate OutOfRange(b: int) {
      b < 0 || b >= BLOCK_COUNT
    }

    method ReadBlock(b: int) returns (r: Option<Block>)
      requires Mirrored()
      ensures OutOfRange(b) ==> r == None
      ensures !OutOfRange(b) ==> r == Some(if b == 0 then mem[0] else img[b])
    {
      if OutOfRange(b) {
        return None;
      }
      r := Some(mem[b]);
    }

    method WriteBlock(b: int, block: Block) returns (ok: bool)
      requires Mirrored()
      modifies this`img, mem
      ensures Mirrored()
      ensures ok == !OutOfRange(b)
      ensures img == if ok && b != 0 then old(img)[b := block] else old(img)
      ensures mem[0] == if b == 0 then block else old(mem[0])
    {
      if OutOfRange(b) {
        return false;
      }
      mem[b] := block;
      if b != 0 {
        img := img[b := block];
      }
      ok := true;
    }

    /** Copies the superblock to block 0. */
    method WriteSuperblock() returns (ok: bool)
      requires Mirrored() && IsInt64(maxAlloc) && IsInt64(freelistHead)
      modifies this`img, mem
      ensures ok && Mirrored() && img == old(img) && Saved(maxAlloc, freelistHead)
    {
      ok := WriteBlock(0, SuperImage(maxAlloc, freelistHead));
    }

    /**
     * Takes the superblock from block 0. Whatever the fields were, they are then the ones that were copied last, so
     * that a valid disk is valid again.
     */
    method LoadSuperblock() returns (ok: bool)
      requires Mirrored()
      modifies this`maxAlloc, this`freelistHead
      ensures maxAlloc == Word(mem[0], 2) && freelistHead == Word(mem[0], 3)
      ensures ok <==> Word(mem[0], 4) != 0
      ensures forall a, h :: old(Saved(a, h)) ==>
        ok && maxAlloc == a && freelistHead == h && Saved(maxAlloc, freelistHead)
      ensures forall a, h :: old(Saved(a, h)) && old(Allocates(a, h)) ==> Valid()
    {
      var sb := ReadBlock(0);
      maxAlloc := Word(sb.value, 2);
      freelistHead := Word(sb.value, 3);
      forall a, h | old(Saved(a, h))
        ensures Word(mem[0], 2) == a && Word(mem[0], 3) == h && Word(mem[0], 4) != 0
      {
        SuperWords(a, h);
      }
      ok := Word(sb.value, 4) != 0;
    }
  }
}
