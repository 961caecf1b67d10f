/** Allocating, freeing, reading and writing data blocks (src/data_block_operation.cpp). */
module DataBlocks {
  import opened Geometry
  import opened Words
  import opened FreeList
  import opened LayerZero
  import opened Wrappers

  /** The addresses the data block operations refuse; BLOCK_COUNT itself slips through. */
  predicate Refused(b: int) {
    b <= INODE_BLOCK_COUNT || b > BLOCK_COUNT
  }

  /** Words 1 and up are zero; word 0 may hold a stale link. */
  ghost predicate ZeroPast0(block: Block) {
    forall j :: 1 <= j < N ==> Word(block, j) == 0
  }

  lemma BytesPast0(block: Block, i: int)
    requires ZeroPast0(block) && 8 <= i < BLOCK_SIZE
    ensures block[i] == 0
  {
    var j := i / 8;
    assert Word(block, j) == 0;
    ZeroValue(block[8 * j..8 * j + 8]);
    assert block[i] == block[8 * j..8 * j + 8][i - 8 * j];
  }

  /** How many blocks can still be allocated. */
  ghost function Spare(live: set<int>): int {
    Capacity() - |live|
  }

  lemma SpareIsNatural(disk: Disk)
    requires disk.Valid()
    ensures 0 <= Spare(disk.live)
  {
    FullWhen(disk.img, disk.maxAlloc, disk.freelistHead, disk.free);
  }

  lemma LiveInData(disk: Disk, b: int)
    requires disk.Valid() && b in disk.live
    ensures InData(b)
  {
  }

  /** Block b leaves the free ones; only its own content may have changed, and past word 0 it is zero. */
  ghost predicate Taken(s: Store, b: int, s': Store) {
    && InData(b) && b !in s.live
    && s'.live == s.live + {b}
    && s'.img == s.img[b := s'.img[b]]
    && ZeroPast0(s'.img[b])
    && Spare(s'.live) == Spare(s.live) - 1
  }

  /**
   * Allocations from a fresh disk on: as many blocks are left as the disk's sizes say, less those taken. So exactly
   * LAYOUT.blocks - 2 * LAYOUT.inodeBlocks - 2 of them succeed.
   */
  lemma {:induction false} FreshYields(stores: seq<Store>, taken: seq<int>)
    requires |stores| == |taken| + 1 && stores[0].live == {}
    requires forall i :: 0 <= i < |taken| ==> Taken(stores[i], taken[i], stores[i + 1])
    ensures Spare(stores[|taken|].live) == LAYOUT.blocks - 2 * LAYOUT.inodeBlocks - 2 - |taken|
    ensures forall i, j :: 0 <= i < j < |taken| ==> taken[i] != taken[j]
    ensures forall i :: 0 <= i < |taken| ==> taken[i] in stores[|taken|].live
    ensures forall i :: 0 <= i < |taken| ==> LAYOUT.inodeBlocks < taken[i] < LAYOUT.blocks - LAYOUT.inodeBlocks - 1
    decreases |taken|
  {
    hide ZeroPast0;
    if taken != [] {
      var n := |taken| - 1;
      var before := stores[..n + 1];
      assert forall i :: 0 <= i < n ==> Taken(before[i], taken[..n][i], before[i + 1]) by {
        hide Taken;
      }
      FreshYields(before, taken[..n]);
      assert Taken(stores[n], taken[n], stores[n + 1]);
    }
  }

  /** The blocks that are still free hold what they held. */
  ghost predicate FreeKept(s: Store, s': Store) {
    s.live <= s'.live && forall b :: 0 <= b < BLOCK_COUNT && b !in s'.live ==> s'.img[b] == s.img[b]
  }

  /** A block just taken is zeroed, or still as it was found. */
  ghost predicate AsFound(was: Block, block: Block) {
    block == ZeroBlock() || block == was
  }

  lemma FreeKeptTwice(s: Store, s1: Store, s2: Store)
    requires FreeKept(s, s1) && FreeKept(s1, s2)
    ensures FreeKept(s, s2)
  {
  }

  lemma TakenKeeps(s: Store, b: int, s': Store)
    requires Taken(s, b, s')
    ensures FreeKept(s, s')
  {
    hide ZeroPast0;
  }

  lemma NothingTaken(s: Store)
    ensures FreeKept(s, s)
  {
  }

  lemma StoredKeeps(s: Store, p: int, slot: int, address: int, s': Store)
    requires Stored(s, p, slot, address, s') && p in s.live
    ensures FreeKept(s, s')
  {
    hide PutWord;
  }

  /** Entry `slot` of block p is set; nothing else changes. */
  ghost predicate Stored(s: Store, p: int, slot: int, address: int, s': Store) {
    && InData(p) && 0 <= slot < N && InData(address)
    && s'.live == s.live
    && s'.img == s.img[p := PutWord(s.img[p], slot, address)]
  }

  lemma HeadFits(img: Image, maxAlloc: int, head: int, free: seq<int>)
    requires Allocator(img, maxAlloc, head, free)
    ensures IsInt64(maxAlloc) && IsInt64(head)
  {
  }

  /** The first block never handed out, zeroed. */
  method TakeUntouched(disk: Disk) returns (b: int)
    requires disk.Valid() && disk.maxAlloc != NUM_OF_DATA_BLOCKS && Spare(disk.live) > 0
    modifies disk, disk.mem
    ensures disk.Valid() && Taken(old(disk.Now()), b, disk.Now())
    ensures b == old(disk.maxAlloc) == disk.maxAlloc - 1 && disk.img[b] == ZeroBlock() && disk.free == old(disk.free)
  {
    hide Linked, LinkBlock, LiveBlocks, NoDuplicates, ZeroBlock, Word, Capacity, SuperImage;
    Bump(disk.img, disk.maxAlloc, disk.freelistHead, disk.free);
    ZeroBlockWords();
    b := disk.maxAlloc;
    disk.maxAlloc := disk.maxAlloc + 1;
    disk.live := disk.live + {b};
    HeadFits(disk.img[b := ZeroBlock()], disk.maxAlloc, disk.freelistHead, disk.free);
    var written := WriteDataBlock(disk, b, ZeroBlock());
    if !written {
      return -1;
    }
    written := disk.WriteSuperblock();
    if !written {
      return -1;
    }
  }

  /** The head of the free list, with the stale link in it. */
  method TakeListed(disk: Disk) returns (b: int)
    requires disk.Valid() && disk.free != []
    modifies disk, disk.mem
    ensures disk.Valid() && Taken(old(disk.Now()), b, disk.Now())
    ensures b == old(disk.freelistHead) && disk.img == old(disk.img) && disk.maxAlloc == old(disk.maxAlloc)
    ensures old(disk.free) == [b] + disk.free
  {
    hide Linked, LinkBlock, LiveBlocks, NoDuplicates, ZeroBlock, Word, Capacity, SuperImage;
    Pop(disk.img, disk.maxAlloc, disk.freelistHead, disk.free);
    Next(disk.img, disk.freelistHead, disk.free, 0);
    HeadIs(disk.img, disk.freelistHead, disk.free);
    b := disk.freelistHead;
    var buffer := disk.ReadBlock(b);
    if buffer == None {
      return 0;
    }
    disk.freelistHead := Word(buffer.value, 0);
    disk.free := disk.free[1..];
    disk.live := disk.live + {b};
    HeadFits(disk.img, disk.maxAlloc, disk.freelistHead, disk.free);
    var written := disk.WriteSuperblock();
    if !written {
      return -1;
    }
  }

  lemma HeadIs(img: Image, head: int, free: seq<int>)
    requires Linked(img, head, free) && free != []
    ensures head == free[0] && InData(head) && free == [head] + free[1..]
  {
  }

  method AllocateDataBlock(disk: Disk) returns (b: int)
    requires disk.Valid()
    modifies disk, disk.mem
    ensures disk.Valid()
    ensures 0 <= Spare(old(disk.live))
    ensures b == -1 <==> Spare(old(disk.live)) == 0
    ensures b == -1 <==> |old(disk.live)| == LAYOUT.blocks - 2 * LAYOUT.inodeBlocks - 2
    ensures b != -1 ==> LAYOUT.inodeBlocks < b < LAYOUT.blocks - LAYOUT.inodeBlocks - 1
    ensures if b == -1 then disk.Now() == old(disk.Now()) else Taken(old(disk.Now()), b, disk.Now())
    ensures b != -1 ==>
      if old(disk.maxAlloc) != NUM_OF_DATA_BLOCKS then
        b == old(disk.maxAlloc) == disk.maxAlloc - 1 && disk.img[b] == ZeroBlock() && disk.free == old(disk.free)
      else
        b == old(disk.freelistHead) && disk.img == old(disk.img) && disk.maxAlloc == old(disk.maxAlloc)
        && old(disk.free) == [b] + disk.free
    ensures FreeKept(old(disk.Now()), disk.Now())
    ensures b != -1 ==> AsFound(old(disk.img)[b], disk.img[b])
  {
    hide FreeKept, Linked, LinkBlock, LiveBlocks, NoDuplicates, ZeroBlock, Word, ZeroPast0, Capacity, SuperImage;
    FullWhen(disk.img, disk.maxAlloc, disk.freelistHead, disk.free);
    assert FreeKept(disk.Now(), disk.Now()) by {
      NothingTaken(disk.Now());
    }
    if disk.freelistHead == 0 && disk.maxAlloc == NUM_OF_DATA_BLOCKS {
      return -1;
    }
    b := 0;
    if disk.maxAlloc != NUM_OF_DATA_BLOCKS {
      b := TakeUntouched(disk);
    } else {
      b := TakeListed(disk);
    }
    if b == 0 {
      return -1;
    }
    TakenKeeps(old(disk.Now()), b, disk.Now());
  }

  method ReadDataBlock(disk: Disk, b: int) returns (r: Option<Block>)
    requires disk.Mirrored()
    ensures r == if INODE_BLOCK_COUNT < b < BLOCK_COUNT then Some(disk.img[b]) else None
  {
    if Refused(b) {
      return None;
    }
    r := disk.ReadBlock(b);
  }

  method WriteDataBlock(disk: Disk, b: int, block: Block) returns (ok: bool)
    requires disk.Mirrored()
    modifies disk`img, disk.mem
    ensures disk.Mirrored()
    ensures ok <==> INODE_BLOCK_COUNT < b < BLOCK_COUNT
    ensures disk.img == if ok then old(disk.img)[b := block] else old(disk.img)
    ensures disk.mem.Length > 0 && disk.mem[0] == old(disk.mem[0])
    ensures old(disk.Valid()) && (b in disk.live || b !in disk.free) ==> disk.Valid()
  {
    if Refused(b) {
      return false;
    }
    ok := disk.WriteBlock(b, block);
    if ok && old(disk.Valid()) && (b in disk.live || b !in disk.free) {
      LinkedFrame(old(disk.img), disk.freelistHead, disk.free, b, block);
    }
  }

  /** Reads block p as an address array, sets one entry and writes the block back. */
  method StoreAddress(disk: Disk, p: int, slot: int, address: int)
    requires disk.Valid() && p in disk.live && InData(p)
    requires 0 <= slot < N && InData(address)
    modifies disk, disk.mem
    ensures disk.Valid()
    ensures Stored(old(disk.Now()), p, slot, address, disk.Now())
    ensures FreeKept(old(disk.Now()), disk.Now())
  {
    var block := ReadDataBlock(disk, p);
    var addresses := PutWord(block.value, slot, address);
    var _ := WriteDataBlock(disk, p, addresses);
    StoredKeeps(old(disk.Now()), p, slot, address, disk.Now());
  }

  /** A new index block `child` whose address goes into an entry of index block p. */
  ghost predicate Chained(s: Store, p: int, slot: int, child: int, s': Store) {
    && InData(child)
    && Taken(s, child, Store(s.img[child := s'.img[child]], s'.live))
    && InData(p) && p != child && 0 <= slot < N
    && s'.img == s.img[child := s'.img[child]][p := PutWord(s.img[p], slot, child)]
  }

  /** Allocates an index block and stores its address in entry `slot` of block p; -1 when nothing is free. */
  method AddIndexBlock(disk: Disk, p: int, slot: int) returns (child: int)
    requires disk.Valid() && p in disk.live && InData(p) && 0 <= slot < N
    modifies disk, disk.mem
    ensures disk.Valid()
    ensures 0 <= Spare(old(disk.live))
    ensures child == -1 <==> Spare(old(disk.live)) == 0
    ensures if child == -1 then disk.Now() == old(disk.Now()) else Chained(old(disk.Now()), p, slot, child, disk.Now())
    ensures child != -1 ==> Word(disk.img[p], slot) == child
    ensures FreeKept(old(disk.Now()), disk.Now())
  {
    hide FreeKept, Spare, ZeroPast0, PutWord, disk.Valid;
    child := AllocateDataBlock(disk);
    if child == -1 {
      return;
    }
    ghost var img1, s1 := disk.img, disk.Now();
    StoreAddress(disk, p, slot, child);
    FreeKeptTwice(old(disk.Now()), s1, disk.Now());
    assert disk.img[child] == img1[child];
    PutWordAt(old(disk.img[p]), slot, child, slot);
  }

  /** Lowers the bump pointer below the topmost block. */
  method FreeTopmost(disk: Disk, b: int) returns (ok: bool)
    requires disk.Valid() && INODE_BLOCK_COUNT < b && b == disk.maxAlloc - 1
    modifies disk, disk.mem
    ensures ok && disk.Mirrored() && disk.img == old(disk.img) && disk.maxAlloc == b
    ensures disk.freelistHead == old(disk.freelistHead)
    ensures b in old(disk.live) ==> disk.Valid() && disk.live == old(disk.live) - {b}
  {
    hide Linked, LinkBlock, LiveBlocks, NoDuplicates, Word, SuperImage;
    HeadFits(disk.img, disk.maxAlloc, disk.freelistHead, disk.free);
    if b in disk.live {
      Lower(disk.img, disk.maxAlloc, disk.freelistHead, disk.free);
    }
    disk.maxAlloc := disk.maxAlloc - 1;
    disk.live := disk.live - {b};
    ok := disk.WriteSuperblock();
  }

  /** Pushes any other block onto the free list. */
  method PushFreed(disk: Disk, b: int) returns (ok: bool)
    requires disk.Valid() && INODE_BLOCK_COUNT < b <= BLOCK_COUNT && b != disk.maxAlloc - 1
    modifies disk, disk.mem
    ensures disk.Mirrored() && (ok <==> b < BLOCK_COUNT)
    ensures ok ==>
      && disk.maxAlloc == old(disk.maxAlloc) && disk.freelistHead == b
      && disk.img == old(disk.img)[b := LinkBlock(old(disk.freelistHead))]
    ensures b in old(disk.live) ==>
      && disk.Valid() && disk.live == old(disk.live) - {b} && disk.maxAlloc == old(disk.maxAlloc)
      && disk.img == old(disk.img)[b := LinkBlock(old(disk.freelistHead))]
  {
    hide Linked, LinkBlock, LiveBlocks, NoDuplicates, Word, SuperImage;
    HeadFits(disk.img, disk.maxAlloc, disk.freelistHead, disk.free);
    if b in disk.live {
      LiveInData(disk, b);
      Push(disk.img, disk.maxAlloc, disk.freelistHead, disk.free, b);
    }
    var buffer := LinkBlock(disk.freelistHead);
    disk.freelistHead := b;
    ok := disk.WriteSuperblock();
    if !ok {
      return;
    }
    ok := disk.WriteBlock(b, buffer);
    disk.free := [b] + disk.free;
    disk.live := disk.live - {b};
  }

  /** Gives a block back; a live one leaves `live` and, unless it was the topmost, is overwritten by its link. */
  method FreeDataBlock(disk: Disk, b: int) returns (ok: bool)
    requires disk.Valid()
    modifies disk, disk.mem
    ensures disk.Mirrored()
    ensures ok <==> INODE_BLOCK_COUNT < b < BLOCK_COUNT
    ensures Refused(b) ==> disk.Valid() && disk.img == old(disk.img) && disk.live == old(disk.live)
    ensures ok ==>
      if b == old(disk.maxAlloc) - 1 then
        disk.maxAlloc == b && disk.freelistHead == old(disk.freelistHead) && disk.img == old(disk.img)
      else
        && disk.maxAlloc == old(disk.maxAlloc) && disk.freelistHead == b
        && disk.img == old(disk.img)[b := LinkBlock(old(disk.freelistHead))]
    ensures b in old(disk.live) ==>
      && disk.Valid()
      && disk.live == old(disk.live) - {b}
      && disk.img == old(disk.img)[b := disk.img[b]]
      && disk.img[b] == (if b == old(disk.maxAlloc) - 1 then old(disk.img)[b] else LinkBlock(old(disk.freelistHead)))
      && disk.maxAlloc == (if b == old(disk.maxAlloc) - 1 then b else old(disk.maxAlloc))
  {
    hide Linked, LinkBlock, LiveBlocks, NoDuplicates, Word, SuperImage;
    HeadFits(disk.img, disk.maxAlloc, disk.freelistHead, disk.free);
    if b in disk.live {
      LiveInData(disk, b);
    }
    if Refused(b) {
      return false;
    }
    if b == disk.maxAlloc - 1 {
      ok := FreeTopmost(disk, b);
    } else {
      ok := PushFreed(disk, b);
    }
  }

  /** The list walk ends, and counts a non-empty list; it reports 1 for the empty one. */
  method GetFreeListLength(disk: Disk) returns (length: int)
    requires disk.Valid()
    ensures length == if disk.free == [] then 1 else |disk.free|
  {
    length := 1;
    var current := disk.freelistHead;
    while current != 0
      invariant 1 <= length
      invariant disk.free == [] ==> current == 0 && length == 1
      invariant disk.free != [] ==> length <= |disk.free| && current == disk.free[length - 1]
      decreases |disk.free| - length
    {
      var block := ReadDataBlock(disk, current);
      Next(disk.img, disk.freelistHead, disk.free, length - 1);
      if Word(block.value, 0) == 0 {
        break;
      }
      current := Word(block.value, 0);
      length := length + 1;
    }
  }
}
