/** The inode table: blocks 1 to INODE_BLOCK_COUNT, INODES_PER_BLOCK slots each (src/inode.cpp:6-176). */
module InodeTable {
  import opened Geometry
  import opened Inodes

  /** A slot of the zeroed blocks that fs_create_ilist writes. */
  function BlankRecord(): Record {
    Record(false, false, 0, 0, 0, NoAddresses(), 0, 0, 0, false, 0)
  }

  function BlankRow(): seq<Record> {
    seq(INODES_PER_BLOCK, _ => BlankRecord())
  }

  predicate InodeNumValid(n: int) {
    0 <= n < INODE_BLOCK_COUNT
  }

  function GenBlockOffset(n: int): (int, int) {
    (n / INODES_PER_BLOCK + 1, n % INODES_PER_BLOCK)
  }

  /** No two inodes share a slot, and every slot of the table is some inode's. */
  lemma SlotsApart(n: int, k: int)
    requires 0 <= n && 0 <= k
    ensures GenBlockOffset(n) == GenBlockOffset(k) <==> n == k
    ensures var (block, offset) := GenBlockOffset(n);
      0 <= offset < INODES_PER_BLOCK && n == (block - 1) * INODES_PER_BLOCK + offset
  {
    assert n == n / INODES_PER_BLOCK * INODES_PER_BLOCK + n % INODES_PER_BLOCK;
    assert k == k / INODES_PER_BLOCK * INODES_PER_BLOCK + k % INODES_PER_BLOCK;
  }

  class Table {
    const rows: array<seq<Record>>  // inode block b is rows[b - 1]
    ghost var slots: seq<Record>    // the slots of all blocks, in order

    ghost predicate Valid()
      reads this, rows
    {
      && rows.Length == INODE_BLOCK_COUNT && |slots| == INODE_BLOCK_COUNT * INODES_PER_BLOCK
      && (forall b :: 0 <= b < rows.Length ==> |rows[b]| == INODES_PER_BLOCK)
      && forall n :: 0 <= n < |slots| ==> slots[n] == rows[n / INODES_PER_BLOCK][n % INODES_PER_BLOCK]
    }

    constructor ()
      ensures Valid() && fresh(rows)
      ensures forall n :: 0 <= n < |slots| ==> slots[n] == BlankRecord()
    {
      rows := new seq<Record>[INODE_BLOCK_COUNT](_ => BlankRow());
      slots := seq(INODE_BLOCK_COUNT * INODES_PER_BLOCK, _ => BlankRecord());
    }

    method ReadInodeBlock(block: int) returns (row: seq<Record>)
      requires Valid() && 1 <= block <= INODE_BLOCK_COUNT
      ensures |row| == INODES_PER_BLOCK && row == rows[block - 1]
      ensures forall i :: 0 <= i < INODES_PER_BLOCK ==> row[i] == slots[(block - 1) * INODES_PER_BLOCK + i]
    {
      row := rows[block - 1];
      forall i | 0 <= i < INODES_PER_BLOCK
        ensures row[i] == slots[(block - 1) * INODES_PER_BLOCK + i]
      {
        InRow(block - 1, i);
      }
    }

    /** Reads the block that holds inode n. */
    method ReadRow(n: int) returns (row: seq<Record>)
      requires Valid() && InodeNumValid(n)
      ensures |row| == INODES_PER_BLOCK && row == rows[n / INODES_PER_BLOCK]
      ensures row[n % INODES_PER_BLOCK] == slots[n]
    {
      var (block, offset) := GenBlockOffset(n);
      row := ReadInodeBlock(block);
    }

    /** Writes back a block read before in which one slot has been changed. */
    method WriteInodeBlock(n: int, row: seq<Record>)
      requires Valid() && InodeNumValid(n)
      requires |row| == INODES_PER_BLOCK
      requires row == rows[n / INODES_PER_BLOCK][n % INODES_PER_BLOCK := row[n % INODES_PER_BLOCK]]
      modifies this, rows
      ensures Valid() && slots == old(slots)[n := row[n % INODES_PER_BLOCK]]
    {
      var (block, offset) := GenBlockOffset(n);
      rows[block - 1] := row;
      slots := slots[n := row[offset]];
      forall k | 0 <= k < |slots|
        ensures slots[k] == rows[k / INODES_PER_BLOCK][k % INODES_PER_BLOCK]
      {
        SlotsApart(n, k);
      }
    }

    /** The inode, if its number is valid and its slot is allocated. */
    method LoadINode(n: int) returns (node: Inode?)
      requires Valid()
      ensures node == null <==> !InodeNumValid(n) || !slots[n].isAllocated
      ensures node != null ==> fresh(node) && node.Rec() == slots[n]
    {
      if !InodeNumValid(n) {
        return null;
      }
      var (block, offset) := GenBlockOffset(n);
      var row := ReadRow(n);
      node := new Inode(row[offset]);
      if !node.isAllocated {
        node := null;
      }
    }

    /** Writing one inode changes no other, not even in the same block. */
    method WriteINode(n: int, node: Inode) returns (ok: bool)
      requires Valid()
      modifies this, rows
      ensures Valid() && (ok <==> InodeNumValid(n))
      ensures slots == if ok then old(slots)[n := node.Rec()] else old(slots)
    {
      if !InodeNumValid(n) {
        return false;
      }
      var (block, offset) := GenBlockOffset(n);
      var row := ReadRow(n);
      row := row[offset := node.Rec()];
      WriteInodeBlock(n, row);
      ok := true;
    }

    lemma InRow(b: int, i: int)
      requires Valid() && 0 <= b < rows.Length && 0 <= i < INODES_PER_BLOCK
      ensures rows[b][i] == slots[b * INODES_PER_BLOCK + i]
    {
      var n := b * INODES_PER_BLOCK + i;
      assert n / INODES_PER_BLOCK == b && n % INODES_PER_BLOCK == i;
      assert slots[n] == rows[n / INODES_PER_BLOCK][n % INODES_PER_BLOCK];
    }

    /** The first unallocated slot of the blocks it scans, which leave out the last inode block. */
    method GetNextFreeINode() returns (n: int)
      requires Valid()
      ensures n == -1 <==> forall k :: 0 <= k < (INODE_BLOCK_COUNT - 1) * INODES_PER_BLOCK ==> slots[k].isAllocated
      ensures n != -1 ==> 0 <= n < |slots| && !slots[n].isAllocated && forall k :: 0 <= k < n ==> slots[k].isAllocated
    {
      var block, offset := 1, 0;
      while block < INODE_BLOCK_COUNT
        invariant 1 <= block <= INODE_BLOCK_COUNT && offset == 0
        invariant forall k :: 0 <= k < (block - 1) * INODES_PER_BLOCK ==> slots[k].isAllocated
      {
        var row := ReadInodeBlock(block);
        while offset < INODES_PER_BLOCK
          invariant 0 <= offset <= INODES_PER_BLOCK
          invariant forall k :: 0 <= k < (block - 1) * INODES_PER_BLOCK + offset ==> slots[k].isAllocated
        {
          if !row[offset].isAllocated {
            return (block - 1) * INODES_PER_BLOCK + offset;
          }
          offset := offset + 1;
        }
        offset := 0;
        block := block + 1;
      }
      n := -1;
    }

    /** Takes the lowest unallocated number, or fails when every valid number is taken. */
    method CreateInode() returns (n: int)
      requires Valid()
      modifies this, rows
      ensures Valid()
      ensures n == -1 <==> forall k :: InodeNumValid(k) ==> old(slots[k]).isAllocated
      ensures n == -1 ==> slots == old(slots)
      ensures n != -1 ==>
        && InodeNumValid(n) && !old(slots[n]).isAllocated
        && (forall k :: 0 <= k < n ==> old(slots[k]).isAllocated)
        && slots == old(slots)[n := old(slots[n]).(linkCount := 0, isAllocated := true)]
    {
      n := GetNextFreeINode();
      if !InodeNumValid(n) {
        return -1;
      }
      var (block, offset) := GenBlockOffset(n);
      var row := ReadRow(n);
      var node := row[offset].(linkCount := 0, isAllocated := true);
      row := row[offset := node];
      WriteInodeBlock(n, row);
    }
  }
}
