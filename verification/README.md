# BeachBytes in Dafny

BeachBytes is a small Unix-style file system on a flat array of 4096-byte blocks. This project models its four
layers and proves, from the bytes of the blocks upward, what each promises to the next.

1. **Blocks** (`Geometry`, `Words`, `LayerZero`, `FreeList`, `DataBlocks`). The disk is an array of byte blocks; the
   allocator combines a bump pointer with a list threaded through word 0 of the freed blocks. The invariant says which
   blocks are live, listed or never touched, and that block 0 holds a copy of the superblock.
2. **Block maps** (`Inodes`, `BlockMaps`, `Append`, `Lookup`, `TreeWalk`, `Removal`, `RemoveEarly`, `RemoveDouble`,
   `RemoveTriple`, `RangeRemoval`, `StaleWalks`, `Layouts`). An inode's 10 direct addresses and three index trees of
   fan-out 512 mean a sequence of data blocks and the index blocks that lead to them (`BlockMap`). `Maps` says the
   addresses on disk lead to exactly those blocks, `Clean` that every slot past the end is zero, `Exclusive` that the
   blocks are live and all different. `Layouts` builds such a file of every length that a disk can hold.
3. **Inodes and directories** (`InodeTable`, `Ownership`, `Storage`, `DirectoryBlocks`, `Directories`, `DirectoryOps`,
   `Paths`, `Resolution`). `Sound` says that the live blocks are the disjoint union of what the inodes own and what
   failed or inexact operations have leaked; `Tidy` that all inodes are clean. A directory is a finite map kept in
   packed records.
4. **Files and names** (`FileContents`, `FileOps`, `Namespaces`, `NamespaceOps`). A file is a byte string; the names form
   a tree. `Healthy` is the whole invariant. Booting establishes it, every operation that does what it promises keeps
   it, and each operation says when it does. Every operation that succeeds and loses no block is a path of steps
   (`Leads`), so that whatever is done from a fresh disk on, the live blocks are exactly what the inodes own
   (`Ownership.FreshConserves`).

The classes `Disk`, `Table`, `Inode` and `FileSystem` have the fields that the program updates in place, and the loops
are the program's. The sizes that depend on the disk (`LAYOUT`) are left open, so every result holds for all of them;
the block size, the fan-out and the number of direct addresses are the program's own.

## Where the code falls short

Some promises one would expect do not hold of the code as it is. Each has its exact condition.

- Removing a range of blocks does all it should if and only if `Exact` holds (`RangeRemoval.RemoveDatablocksRange`), a
  condition on the start and the block counts. `Layouts.FallsShort` shows that every length and start that the
  condition rules out is met by a file on a disk with room for it. It fails for a start at block 10, which keeps the
  single block allocated (src/inode.cpp:743-773); for a start in the double region of a file that has 1 to 512 * 512
  blocks in the triple region, which keeps the triple tree (src/inode.cpp:872); and for a start in the triple region that
  is not aligned, because the inner offset is applied again in every later double block (src/inode.cpp:932), and a start
  in the first single block of a double block frees that double block (src/inode.cpp:922, src/inode.cpp:967-973). Of
  every such start `RemoveTriple.RanThrough` says by position which blocks are freed and which are left, and
  `RemoveTriple.StoppedShort` the same where the loops look for a block past the end and give up, which
  `RangeRemoval.Succeeds` says exactly (src/inode.cpp:927-931). And a
  start equal to the block count, where a single block of the double or triple region is just full, is reported as a
  failure though there is nothing to remove (src/inode.cpp:800-887, src/inode.cpp:889-997).
- An exact removal leaves stale addresses in an index block that it keeps unless `LeavesZeros` holds
  (src/inode.cpp:845-863), also with a real file for every case. From then on the program's walk of that whole tree
  meets a block that is no longer live, if and only if `LeavesZeros` fails (`StaleWalks.WalksSoundWhen`).
- A complete write is the POSIX overwrite if and only if it reaches the old end of the file and what lies between that
  end and the offset is zero (`FileOps.WriteIsOverwrite`): the size is always set to where the write ended
  (src/linkFuseAndFS.cpp:591), and nothing clears the gap: neither the rest of the last block nor the first words of
  skipped blocks, which can be stale links (src/linkFuseAndFS.cpp:582). Writing back the very bytes that a file has
  somewhere before its end cuts it there (`FileOps.WrittenBackIsCut`). What lies behind the end stays zero, as it is after
  every cut, unless a write cuts off bytes that are not zero (`FileOps.WriteKeepsZeros`); where it is, a write behind the
  end and within the blocks is the POSIX overwrite (`FileOps.WriteBehindEnd`).
- A write whose blocks run out before its offset is reached sets the size to the offset all the same, behind the last
  block; `FileOps.Write` says exactly when, by the blocks that are spare before the call.
- Renaming something that can be removed onto itself always reports success and deletes it, because the old target is
  unlinked before the source is resolved (src/linkFuseAndFS.cpp:866-874). Renaming a directory into itself succeeds when
  its new parent has space, and cuts it off from the root. A rename keeps the invariant if and only if the source path is
  not a proper prefix of the target's (`NamespaceOps.Rename`, `Namespaces.RenameDetaches`).
- A directory that was moved keeps its old `..` (src/linkFuseAndFS.cpp:858-953). Once the old parent is removed, it can
  be listed only while a later inode has taken over the number (`Namespaces.OldParentRemoved`, `NamespaceOps.ListableWhen`).
- Nothing in add_directory_entry looks for the name (src/inode.cpp:483-563): names stay distinct if and only if the
  name was absent (`DirectoryOps.AddDirectoryEntry`).
- A creation that runs out of space may have taken index blocks, which then belong to nobody, and a mkdir that runs out
  of space after its inode was named leaves a directory without entries (src/linkFuseAndFS.cpp:282-296). Both say
  exactly when (`NamespaceOps.Mknod`, `NamespaceOps.Mkdir`).
- The count of the free list is 1 for the empty list (src/data_block_operation.cpp:112).

## Model

| member | source | states |
|---|---|---|
| LayerZero.Disk.constructor | src/layerZero.cpp:150-166 | a fresh disk: zeroed blocks, nothing live, nothing on the free list, the superblock copied to block 0, and the allocator invariant holds |
| LayerZero.Disk.ReadBlock | src/layerZero.cpp:83-114 | a block in range yields its content, any other number an error |
| LayerZero.Disk.WriteBlock | src/layerZero.cpp:116-147 | a write changes exactly the one block named, and fails out of range |
| LayerZero.SuperWords | header/common_config.h:39-47 | in the disk's own sizes, the superblock says how many blocks the disk has, how many of them may be handed out, where the inode blocks end and how many inodes there are, and its two changing fields can be read back from the copy |
| LayerZero.Disk.WriteSuperblock | src/layerZero.cpp:168-183 | copies the superblock to block 0 and touches no other block |
| LayerZero.Disk.LoadSuperblock | src/layerZero.cpp:28-53 | takes over what was last copied, whatever the fields were: the allocator invariant is back |
| FreeList.Conservation | src/data_block_operation.cpp:4-108 | live + listed + never-touched blocks always add up to the data area |
| FreeList.FullWhen | src/data_block_operation.cpp:6-11 | nothing is free exactly when the list is empty and the bump pointer is at its bound |
| FreeList.LinkedUnique | src/data_block_operation.cpp:111-130 | only one list starts at a given head, so the list runs into no cycle |
| FreeList.Bump | src/data_block_operation.cpp:14-24 | taking the first untouched block keeps the allocator invariant and makes just that block live |
| FreeList.Pop | src/data_block_operation.cpp:26-40 | taking the head of the list keeps the invariant and makes just that block live |
| FreeList.Lower | src/data_block_operation.cpp:85-93 | freeing the topmost block lowers the bump pointer and keeps the invariant |
| FreeList.Push | src/data_block_operation.cpp:94-105 | freeing any other live block pushes it and keeps the list duplicate-free and in bounds |
| DataBlocks.AllocateDataBlock | src/data_block_operation.cpp:4-47 | fails exactly when blocks - 2 * inode blocks - 2 blocks are live; otherwise a block between the inode blocks and that bound that was not live: the bump block, zeroed, or else the head of the list with its stale link; blocks still free hold what they held; block 0 holds the new superblock afterwards |
| DataBlocks.FreshYields | src/data_block_operation.cpp:4-47 | from a fresh disk every run of allocations yields different blocks of the data area and leaves blocks - 2 * inode blocks - 2 less those taken; so exactly that many succeed |
| DataBlocks.FreeDataBlock | src/data_block_operation.cpp:75-108 | a live block leaves the live set; unless it was topmost it is overwritten by the link to the old head; block 0 holds the new superblock; nothing else changes; for a block that is not live, what becomes of the fields of the superblock and of the block |
| DataBlocks.ReadDataBlock | src/data_block_operation.cpp:49-63 | inode blocks, the superblock and out-of-range numbers are refused |
| DataBlocks.WriteDataBlock | src/data_block_operation.cpp:65-73 | writing a block that is not listed keeps the allocator invariant |
| DataBlocks.GetFreeListLength | src/data_block_operation.cpp:111-130 | the walk ends and counts a non-empty list; it reports 1 for an empty one |
| Words.PutWordAt | src/inode.cpp:224-225 | storing an address in an index block reads back, and leaves the other entries alone |
| Words.ValueBytes | header/common_config.h:22 | a 64-bit word survives encoding to bytes and back |
| BlockMaps.AddressIsData | src/inode.cpp:388-480 | the walk of the index tree from the inode finds the k-th mapped block, in all four regions |
| BlockMaps.PackInto | src/inode.cpp:258-286 | storing one more child in the last parent with room extends the mapped layer by it |
| BlockMaps.PackOnto | src/inode.cpp:209-225 | a block that becomes the next parent extends the layer, zero-ended even if it was recycled with a stale link in word 0 |
| Append.AddDatablockToInode | src/inode.cpp:193-367 | succeeds exactly when the position is below the maximum and its 0 to 3 index blocks are spare; then the mapped sequence s becomes s + [b], the newly live blocks are exactly the new index blocks, and no other live block is touched; a failure leaves the sequence as it was and, below the maximum, no spare block |
| Append.AppendSingle | src/inode.cpp:207-231 | the same for the single indirect region |
| Append.AppendDouble | src/inode.cpp:234-288 | the same for the double indirect region and both boundaries |
| Append.AppendTriple | src/inode.cpp:290-365 | the same for the triple indirect region and all its boundaries |
| Append.DoubleFailed | src/inode.cpp:250-262 | a double block taken before the single block could not be is leaked, but the mapping stands |
| Append.TriplePacked | src/inode.cpp:307-362 | the three layers of the triple tree stay packed and zero-ended through an append |
| Append.AppendSpends | src/inode.cpp:193-367 | an append spends exactly the index blocks its position asks for |
| Lookup.GetDatablockFromInode | src/inode.cpp:369-481 | with a safe cache, block k of the file yields its address and leaves a cache that is safe for block k + 1; past the end it yields none |
| Lookup.Scan | src/inode.cpp:498-501 | every ascending scan that starts with an empty cache returns the addresses of the uncached tree walk, across all region boundaries |
| TreeWalk.LayerWalk | src/inode.cpp:654-669 | in a packed, zero-ended layer the stop-at-zero walk meets every parent and child exactly once |
| TreeWalk.TreeFrame | src/inode.cpp:654-672 | the walk reads only blocks it is itself going to free, so links written meanwhile do not disturb it |
| TreeWalk.RemoveDatablocksNested | src/inode.cpp:647-673 | frees exactly the tree below the block, each block once, and touches nothing still live |
| TreeWalk.EmptySingle | src/inode.cpp:825-852 | frees a run of entries of an index block, zeroes them, and frees the block too when asked |
| Removal.Split | src/inode.cpp:675-998 | the intended removal splits the blocks of a file into the kept and the freed ones |
| Removal.TruncateData | src/inode.cpp:675-998 | the intended removal maps exactly the first k blocks |
| RemoveEarly.RemoveFromDirect | src/inode.cpp:686-739 | for well-formed files of any depth: keeps the prefix, frees every block in excess once, and leaves the inode well formed |
| RemoveEarly.RemoveFromSingle | src/inode.cpp:741-797 | the same strictly inside the single indirect region; starting at block 10 it loses exactly the single block, and only then leaves a stale pointer |
| RemoveDouble.EmptyDouble | src/inode.cpp:817-863 | the shrinking end count stops the loop before an empty slot; exactly the data past the start and the single blocks wholly past it are freed |
| RemoveDouble.RemoveFromDouble | src/inode.cpp:800-887 | frees the excess but for the triple tree of a file with 1 to N * N blocks there, which is lost; says exactly when stale addresses remain |
| RemoveTriple.EmptyTriple | src/inode.cpp:907-984 | the three nested loops reach the end marker before an empty slot, exactly when the start leaves the last single block something to go into or that block ends a full double block; what they have freed by then, either way |
| RemoveTriple.FreedWhenAligned | src/inode.cpp:921-965 | what the loops free from an aligned start is the data past it and the single blocks wholly past it |
| RemoveTriple.FreesOther | src/inode.cpp:921-965 | from any other start they free a double block still needed, or skip a data block |
| RemoveTriple.RemoveFromTriple | src/inode.cpp:889-997 | for every start in the triple region, up to and at its very end: exactly when it reports success; which blocks are freed and which left, by position, also after a failure; and it does what it should if and only if the start is aligned |
| RemoveTriple.IsRanThrough | src/inode.cpp:921-996 | a removal that ran through left live exactly the data blocks before the start and those before the inner offset of later double blocks, the single blocks gone into at an offset, and the double blocks not gone through from their first single block |
| RemoveTriple.LeftAfter | src/inode.cpp:921-977 | the freed blocks as multisets are those that the positions name, each once |
| RangeRemoval.RemoveDatablocksRange | src/inode.cpp:675-998 | the whole operation for every start and block count: exactly when it reports success; it does all it should if and only if Exact, a condition on the start and the block counts; what it otherwise frees, loses and leaves, after a failure too; when stale addresses remain |
| RangeRemoval.NothingLost | src/inode.cpp:858-876 | a removal that loses blocks is not the intended one |
| StaleWalks.WalksSoundWhen | src/inode.cpp:647-673 | after an exact removal the walks of the whole trees meet only live blocks if and only if it left no stale address |
| StaleWalks.ChildMet | src/inode.cpp:654-669 | the walk of an index block meets each of its children, also one past the end of the file |
| Layouts.Held | src/inode.cpp:193-367 | every map of distinct blocks in the shape of an inode's trees is held by some disk, with zeros past its end |
| Layouts.AnyLength | src/inode.cpp:193-367 | some disk holds a well-formed file of each length whose blocks fit it |
| Layouts.FootprintGrows | src/inode.cpp:193-367 | the blocks of a file of n + 1 blocks are those of one of n blocks, one more, and the index blocks that its position asks for |
| Layouts.FallsShort | src/inode.cpp:675-998 | some real file of the length falls short of the intended removal exactly when the numbers fail the condition; likewise for stale addresses |
| Layouts.CutAtTenFallsShort | src/inode.cpp:743-773 | files of every length above 10 cut at block 10 fall short |
| Layouts.CutBelowSmallTripleFallsShort | src/inode.cpp:858-876 | so do files with 1 to N * N blocks in the triple region cut anywhere in the double region |
| Layouts.UnalignedTripleCutFallsShort | src/inode.cpp:921-932 | so do files cut inside the first single block of any double block of the triple region, also at the very end |
| Layouts.DoubleCutLeavesStale | src/inode.cpp:845-863 | files of the double region cut more than a single block's worth before their end keep stale addresses |
| InodeTable.SlotsApart | src/inode.cpp:10-13 | block and offset together determine the inode number |
| InodeTable.Table.LoadINode | src/inode.cpp:15-45 | yields the slot exactly when the number is valid and the slot is allocated |
| InodeTable.Table.WriteINode | src/inode.cpp:47-75 | changes one slot and no other, not even in the same block |
| InodeTable.Table.GetNextFreeINode | src/inode.cpp:77-104 | the lowest unallocated slot of the blocks scanned |
| InodeTable.Table.CreateInode | src/inode.cpp:106-135 | the lowest unallocated number; fails exactly when every valid number is taken |
| Ownership.OneOwner | src/inode.cpp:145-367 | no block has two owners, or is owned and leaked |
| Ownership.ReplacedSound | src/inode.cpp:193-367 | one inode changing its own blocks, with balanced books, disturbs no other mapping |
| Ownership.AppendSound | src/inode.cpp:193-367 | allocating and appending keeps the ownership invariant and the zeros past the ends |
| Ownership.RemovalSound | src/inode.cpp:675-998 | so does removing a range; lost blocks are accounted as leaked |
| Ownership.DeletionSound | src/inode.cpp:145-191 | so does deleting an inode |
| Ownership.MoveKeeps | src/inode.cpp:106-367 | every step of a run keeps ownership and zeros past the ends, and leaves other inodes and their bytes alone |
| Ownership.RunConserves | src/inode.cpp:106-367 | at every point of every run of block and inode operations from a fresh disk the live blocks are exactly the disjoint union of what the inodes own |
| Ownership.PathKeeps | src/inode.cpp:106-367 | every path of steps keeps ownership and zeros past the ends, and leaks nothing |
| Ownership.FreshConserves | src/layerZero.cpp:201-223 | whatever operations lead to from a fresh disk, the live blocks are exactly what the inodes own and nothing has leaked |
| Storage.Extend | src/inode.cpp:193-367 | allocating and appending, against the whole volume: succeeds exactly when there is room, is a step of a run, and says what a failure leaks |
| Storage.Attach | src/inode.cpp:555-558 | appending an allocated block moves it from the leaked to the owned ones; a failure keeps every mapping and leaks exactly the index blocks it took |
| Storage.Release | src/inode.cpp:675-998 | removing a range, against the whole volume: kept bytes stay, other inodes stay, what is lost is leaked |
| Storage.Create | src/inode.cpp:106-135 | creating an inode is a step of a run |
| Storage.SaveEdited | src/inode.cpp:47-75 | writing back an inode with its own addresses is a step of a run |
| Storage.DeleteInode | src/inode.cpp:145-191 | gives back exactly the blocks of the inode and clears its slot; an inode without blocks frees nothing |
| DirectoryBlocks.RecordAt | src/inode.cpp:599-601 | at the start of each record are its length, its inode number and its name |
| DirectoryBlocks.AtTheEnd | src/inode.cpp:603-604 | behind the last record are only zeros, so scans stop there |
| DirectoryBlocks.Header | src/inode.cpp:508 | word 0 is the total length of the records |
| DirectoryBlocks.AddRecord | src/inode.cpp:507-523 | adds the record exactly when the slack rule leaves room, and yields the packed block with it at the end |
| DirectoryBlocks.NewBlock | src/inode.cpp:539-548 | a new block holds just the one record |
| DirectoryBlocks.RemoveRecord | src/inode.cpp:625-636 | the shift-down yields the packed block without the record, zeros at its end |
| DirectoryBlocks.Refits | src/inode.cpp:507-523 | what a removed record leaves is room enough for one with the same name |
| DirectoryBlocks.FindRecord | src/inode.cpp:596-615 | finds the first record with the name, or that there is none |
| Directories.NamesAre | src/inode.cpp:483-644 | distinct entries form a finite map of the same size |
| Directories.AddedTo | src/inode.cpp:499-528 | adding an absent name to a block adds one pair to the directory map |
| Directories.AddedBehind | src/inode.cpp:533-562 | so does adding it in a block of its own |
| Directories.PlacedNames | src/inode.cpp:483-563 | one record more keeps the names distinct exactly when its name was absent |
| Directories.RemovedFrom | src/inode.cpp:625-644 | removing an entry takes exactly its pair out of the map |
| DirectoryOps.FindEntry | src/inode.cpp:582-620 | the scan over all blocks finds the name if the directory has it |
| DirectoryOps.LookupName | src/inode.cpp:1085-1156 | lookup agrees with the directory map |
| DirectoryOps.AddDirectoryEntry | src/inode.cpp:483-563 | succeeds exactly when the name fits some block or a new block and its index blocks are spare; then the record stands behind the others in the first block with room, or in a block of its own behind them all; the names stay distinct exactly when the name was absent, and in that case the map has one pair more; everything else stays, and it is a path of steps; a failure leaks exactly what was spare, or the one block |
| DirectoryOps.EntryGoes | src/inode.cpp:499-528 | the block whose slack the scan finds, after blocks without, is the one where the entry belongs |
| DirectoryOps.RemoveFromDirectory | src/inode.cpp:565-644 | succeeds exactly when the name is there; removes exactly its record and leaves the others in their order, counts down, keeps everything else, and leaves room for the name |
| DirectoryOps.ListBlock | src/linkFuseAndFS.cpp:627-655 | reports all records of a block in order, or fails at an inode that cannot be loaded |
| Paths.GetLastIndexOfParentPath | src/inode.cpp:1001-1009 | the last slash that is not the last character |
| Paths.CopyParentPath | src/inode.cpp:1011-1032 | the parent is the root or strictly shorter |
| Paths.SplitPath | src/inode.cpp:1011-1054 | for paths of components: the parent spells all but the last, the name is the last, and together they give back the path |
| Resolution.ResolveIsWalk | src/inode.cpp:1057-1157 | the recursive resolver is the left-to-right walk from the root |
| Resolution.GetInodeOfFile | src/inode.cpp:1057-1157 | terminates, and returns what the recursion on names says |
| Resolution.ReadDir | src/linkFuseAndFS.cpp:607-661 | reports every entry once, in order, and nothing else when all entries name allocated inodes; fails otherwise, with the entries before the first that does not |
| Resolution.ReportedIsFound | src/linkFuseAndFS.cpp:607-661 | what is reported is what path lookup finds |
| FileContents.FlatFilled | src/linkFuseAndFS.cpp:510-538 | rewriting one block of a file changes exactly its bytes |
| FileContents.PieceFilled | src/linkFuseAndFS.cpp:518-538 | a piece written into an existing block extends the written prefix |
| FileContents.PieceAppended | src/linkFuseAndFS.cpp:564-585 | so does a piece in a new block |
| FileContents.CutIsOverwritten | src/linkFuseAndFS.cpp:591 | cutting at the end of the piece is overwriting exactly when the old end is reached and the gap is zero |
| FileContents.TailZeroed | src/linkFuseAndFS.cpp:446-451 | zeroing the slack leaves the kept bytes and zeros |
| FileOps.Pieces | src/linkFuseAndFS.cpp:488-540 | the pieces of a write lie each in its block, follow one another, and end the buffer |
| FileOps.WriteExisting | src/linkFuseAndFS.cpp:497-549 | writes what falls into blocks that are there, and nothing if the offset lies behind them |
| FileOps.WriteNew | src/linkFuseAndFS.cpp:551-586 | appends skipped blocks and the rest of the pieces, and completes exactly when the blocks and their index blocks are spare; otherwise says how many it got and what leaked; skipped blocks were free, and are zeroed or as they were found |
| FileOps.Write | src/linkFuseAndFS.cpp:460-603 | for every inode and offset: the bytes up to the offset stay, skipped blocks are zero but for their first words, and those are zero or what they were while the block was free; buff[..code] follows; behind it the old blocks hold what they held and new ones zeros; complete exactly when the old and new block counts say there are blocks enough; a short write leaves exactly the blocks it got and leaks exactly the rest; no other inode changes |
| FileOps.WithinIsComplete | src/linkFuseAndFS.cpp:497-549 | a write within the blocks of a file is always complete |
| FileOps.WroteShort | src/linkFuseAndFS.cpp:591 | the size lies behind the last block exactly when the blocks up to the offset were not to be had |
| FileOps.FileWith | src/linkFuseAndFS.cpp:460-603 | any bytes that the disk has blocks for can be the contents of a file, written by the program's own operations |
| FileOps.WriteIsOverwrite | src/linkFuseAndFS.cpp:591 | what a complete write leaves is the overwritten file exactly when it reaches the old end and the gap before it is zero |
| FileOps.ShortWriteCutsFile | src/linkFuseAndFS.cpp:591 | every complete write that ends before the old end cuts the file there |
| FileOps.WriteKeepsZeros | src/linkFuseAndFS.cpp:551-591 | where the rest of a file's blocks was zero before a write, it is afterwards if and only if no byte that is not zero was cut off |
| FileOps.WriteBehindEnd | src/linkFuseAndFS.cpp:460-603 | where it is zero, a complete write behind the end, within the blocks there are, leaves the old bytes, zeros up to the offset, and the buffer |
| FileOps.WrittenBackIsCut | src/linkFuseAndFS.cpp:591 | there is such a write for every file and every piece of it before its end: writing back what is there cuts the file |
| FileOps.Read | src/linkFuseAndFS.cpp:726-844 | returns exactly contents[offset .. min(offset + n, size)], the rest of the buffer zero; the error cases |
| FileOps.ReadAfterWrite | src/linkFuseAndFS.cpp:460-844 | what was written can be read back |
| FileOps.Shrink | src/linkFuseAndFS.cpp:423-457 | cuts to old[..length], zero slack, no block more than needed; says what is leaked and when the inode stays well formed and the cut is a path of steps |
| FileOps.TruncateFile | src/linkFuseAndFS.cpp:383-458 | shrinking yields old[..length], growing old followed by zeros, and 0 exactly when there are blocks enough; the codes of the error cases, each with its case |
| FileOps.CutLeavesZeros | src/linkFuseAndFS.cpp:423-457 | after a cut the rest of the file's blocks is zero |
| FileOps.GrowthKeepsZeros | src/linkFuseAndFS.cpp:383-458 | after growing it still is, if it was |
| FileOps.EarlyFilesCanBeCut | src/linkFuseAndFS.cpp:423-428 | every well-formed file that ends within the double region can be cut anywhere |
| Namespaces.OnePath | src/linkFuseAndFS.cpp:858-953 | in a tree no inode has two paths |
| Namespaces.EveryInodeHasAPath | src/linkFuseAndFS.cpp:150-234 | every inode in use can be reached from the root |
| Namespaces.AddFileShape | src/linkFuseAndFS.cpp:150-234 | a new file keeps the tree |
| Namespaces.AddDirectoryShape | src/linkFuseAndFS.cpp:263-304 | so does a new directory |
| Namespaces.RemoveShape | src/linkFuseAndFS.cpp:315-380 | so does removing a file or an empty directory |
| Namespaces.RenameShape | src/linkFuseAndFS.cpp:858-953 | so does moving an entry to a directory outside what is moved |
| Namespaces.RenameResolves | src/linkFuseAndFS.cpp:858-953 | afterwards the target path leads to the source's inode and the source path nowhere |
| Namespaces.WalkOutside | src/linkFuseAndFS.cpp:858-953 | every path to something outside what is moved still leads there |
| Namespaces.RenameDetaches | src/linkFuseAndFS.cpp:858-953 | moving a directory into itself leaves no path from the root to it or to anything in it |
| Namespaces.OldParentRemoved | src/linkFuseAndFS.cpp:858-953 | after a move and the removal of the old parent the tree stands, but `..` names an inode that is gone |
| Namespaces.InsideIsPrefix | src/linkFuseAndFS.cpp:858-953 | the target lies inside the source exactly when the source path is a prefix of the target's parent path |
| NamespaceOps.CreateNewFile | src/linkFuseAndFS.cpp:150-234 | succeeds exactly when an inode number, the parent and the space are there; a refusal says -ENOENT without the parent, -EACCES when it is read-only, -EDQUOT otherwise; the new inode is the lowest free one, named in its parent, in the first block with room, and nowhere else; after a failure the inode table, the directories and all bytes are as before, and what has leaked is said exactly |
| NamespaceOps.RefusedTidy | src/linkFuseAndFS.cpp:195-200 | a refusal for other reasons than space, or with nothing spare, leaks nothing and keeps the zeros past the ends |
| NamespaceOps.UndoCreate | src/linkFuseAndFS.cpp:195-200 | deleting a just-created inode restores the table and frees nothing |
| NamespaceOps.Mknod | src/linkFuseAndFS.cpp:125-148 | a new file keeps the whole invariant, other inodes and their bytes; succeeds exactly when it can be created and there is space; a failure says exactly what has leaked, and keeps the invariant unless some blocks were spare but not enough |
| NamespaceOps.Mkdir | src/linkFuseAndFS.cpp:263-304 | so does a new directory with its two entries, in this order in one block; says exactly when it succeeds, and what a failure to add `.` or `..` leaves |
| NamespaceOps.EmptyDirIsExact | src/linkFuseAndFS.cpp:307-313 | filesCount is the true entry count, so the emptiness test is exact |
| NamespaceOps.ListableWhen | src/linkFuseAndFS.cpp:627-655 | a directory of the tree can be listed exactly when its `..` names an inode in use |
| NamespaceOps.Unlink | src/linkFuseAndFS.cpp:315-380 | succeeds exactly for what is there, is not the root and has no entries of its own, and otherwise answers -ENOENT, -EACCES and -ENOTEMPTY for just these cases; removes the name, the inode and its blocks and nothing else |
| NamespaceOps.UnlinkCodeIs | src/linkFuseAndFS.cpp:322-351 | these are the only answers, and a directory is not empty exactly when it has more than its two own entries |
| NamespaceOps.Access | src/linkFuseAndFS.cpp:846-855 | whether the path leads anywhere |
| NamespaceOps.Rename | src/linkFuseAndFS.cpp:858-953 | for all plain paths, the same or one inside the other: succeeds exactly when the source exists and the target can be removed or can be entered in its parent, and otherwise answers -ENOENT, what unlinking the target answers, -1 without a target directory, or -EDQUOT; then the source path leads nowhere and the target to the source's inode, but for the target within the source, and the invariant is kept exactly then; other inodes and their bytes stay; every failure leaves names, records and blocks of files as they were, and all but those for want of space leave everything; those leak exactly what was spare, or the one block |
| NamespaceOps.InitDisk | src/layerZero.cpp:201-223 | a fresh disk meets the invariants, owns nothing and has nothing leaked |
| NamespaceOps.Reload | src/layerZero.cpp:28-53 | loading the superblock of a valid disk always succeeds and changes nothing |
| NamespaceOps.BootUp | src/linkFuseAndFS.cpp:15-67 | reads the superblock back and finds the root, on any disk, or makes one in the lowest free inode with nothing else changed; says exactly when it succeeds and what a failure leaves; a fresh disk becomes the root alone |

## Left out

- Opening the memory-backed disk clears its memory (src/layerZero.cpp:10-26); loading the superblock is modelled for a
  device that kept its blocks.
- The inode blocks are kept as rows of records in `Table`, apart from the data blocks: the guards of the data block
  operations (src/data_block_operation.cpp:51, 67, 77) refuse inode blocks, and the layout of an inode in bytes is not
  modelled. Fields that no modelled operation reads (owner, group, device, times) are not part of a record; of the mode
  only the directory bit and the owner's write bit are.
- Buffers that the program allocates and frees are sequence values; leaks of host memory are not modelled.
- Disk errors, the real device, FUSE callbacks, `stat` filling and printing are left out, and one operation runs at a
  time. In fs_read the fields of a missing inode are printed before the null check (src/linkFuseAndFS.cpp:746-749); the
  model starts at the check.
- Integers are unbounded: offsets and byte counts near 2^63 are not modelled.
- RangeRemoval.RemoveDatablocksRange: needs the index slots in the shape that `Prunable` states, because the walk of a
  whole tree after a partial removal meets stale addresses.
- Storage.Release: asks for the same, and in the triple region for an exact removal.
- Storage.DeleteInode: asks for an inode without stale addresses past its end, for the same reason.
- TreeWalk.RemoveDatablocksNested: asks that the tree leads to live blocks, each once; `StaleWalks.WalksSoundWhen` says
  when that holds of an inode.
- Lookup.GetDatablockFromInode: for the position just past the end it asks for zeros past the end; its callers stop
  before it.
- FileOps.Write: a skipped block is zeroed or as it was found while free; which of the two follows from the bump pointer
  (`DataBlocks.AllocateDataBlock`), which the contract of a write does not name. When the inode is a directory it says
  what happens to its bytes, but nothing of its entries, which are then lost.
- FileOps.TruncateFile: asks for an inode whose rest can be removed soundly (`CutAllowed`), which every well-formed one
  ending within the double region can; of a directory it says nothing of the entries.
- NamespaceOps.Mknod: models regular files; the mode is the owner's write bit.
- NamespaceOps.Rename: asks for plain paths without `.` and `..`, and for a source that is not the root. Of a failure for
  want of space it does not say whether stale addresses remain in the parent's index blocks.
- Paths that are relative, empty between slashes, or contain `.` or `..` are resolved by `GetInodeOfFile` as the code
  does, but the operations on names are stated for plain absolute paths.
- fs_openFile, fs_chmod, fs_getattr and the test-only directory_contains_entry would add nothing hard, and opening with
  truncation writes back an inode loaded before the truncation (src/linkFuseAndFS.cpp:688-719).
