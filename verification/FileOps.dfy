/** Writing, reading and truncating files (src/linkFuseAndFS.cpp:383-603, src/linkFuseAndFS.cpp:726-844). */
module FileOps {
  import opened Geometry
  import opened Words
  import opened DataBlocks
  import opened Inodes
  import opened InodeTable
  import opened BlockMaps
  import opened Append
  import opened Lookup
  import opened Removal
  import opened RangeRemoval
  import opened Layouts
  import opened Directories
  import opened DirectoryOps
  import opened Ownership
  import opened Storage
  import opened Paths
  import opened Resolution
  import opened NamespaceOps
  import opened FileContents
  import Namespaces

  const EOVERFLOW := 75

  /** The bytes of inode n as the volume has them. */
  ghost function Bytes(v: Volume, n: int): seq<byte>
    requires 0 <= n < |v.maps| && n < |v.slots|
    requires 0 <= v.slots[n].fileSize <= |v.maps[n].Data()| * BLOCK_SIZE
  {
    Contents(v.store.img, v.maps[n], v.slots[n].fileSize)
  }

  /** All that is in the blocks of inode n, the rest of the last ones included. */
  ghost function BlockBytes(v: Volume, n: int): seq<byte>
    requires 0 <= n < |v.maps|
  {
    Flat(v.store.img, v.maps[n].Data())
  }

  // ----- one more block -----

  lemma DataSameFlat(img: Image, img': Image, m: BlockMap)
    requires DataSame(img, img', m)
    ensures Flat(img', m.Data()) == Flat(img, m.Data())
  {
    FlatSame(img, img', m.Data());
  }

  /** Writing the block that was appended last leaves the ones before it alone. */
  lemma LastWritten(live: set<int>, img: Image, m: BlockMap, data: seq<int>, b: int, block: Block)
    requires Exclusive(live, m) && m.Data() == data + [b] && InData(b)
    ensures Flat(img[b := block], data) == Flat(img, data)
  {
    DataDistinct(live, m);
    forall j | 0 <= j < |data|
      ensures data[j] != b
    {
      assert m.Data()[j] == data[j] && m.Data()[|data|] == b;
    }
    FlatSame(img, img[b := block], data);
  }

  /** The blocks inode n had come first and hold what they held. */
  ghost predicate Prolonged(v: Volume, n: int, v': Volume) {
    && 0 <= n < |v.maps| && n < |v'.maps|
    && v.maps[n].Data() <= v'.maps[n].Data() && DataSame(v.store.img, v'.store.img, v.maps[n])
  }

  /** Inode n has one block more, a free one as it was found or zeroed; those still free hold what they held. */
  ghost predicate TookFree(v: Volume, n: int, v': Volume) {
    && FreeKept(v.store, v'.store) && 0 <= n < |v.maps| && n < |v'.maps|
    && |v'.maps[n].Data()| == |v.maps[n].Data()| + 1
    && FoundFree(v, v', v'.maps[n].Data()[|v.maps[n].Data()|])
  }

  ghost predicate FoundFree(v: Volume, v': Volume, b: int) {
    InData(b) && b !in v.store.live && AsFound(v.store.img[b], v'.store.img[b])
  }

  /** The blocks that inode n got before block `to` were free, and are zeroed or as they were found. */
  ghost predicate SkippedAsFound(v: Volume, n: int, to: int, v': Volume) {
    && 0 <= n < |v.maps| && n < |v'.maps|
    && forall k :: |v.maps[n].Data()| <= k < to && k < |v'.maps[n].Data()| ==> FoundFree(v, v', v'.maps[n].Data()[k])
  }

  lemma FoundMore(v: Volume, n: int, to: int, v1: Volume, v2: Volume)
    requires SkippedAsFound(v, n, to, v1) && FreeKept(v.store, v1.store) && Prolonged(v1, n, v2) && TookFree(v1, n, v2)
    ensures SkippedAsFound(v, n, to, v2) && FreeKept(v.store, v2.store)
  {
    FreeKeptTwice(v.store, v1.store, v2.store);
  }

  lemma FoundStays(v: Volume, n: int, to: int, v1: Volume, v2: Volume)
    requires SkippedAsFound(v, n, to, v1) && Prolonged(v1, n, v2)
    requires to <= |v1.maps[n].Data()| || v2.maps == v1.maps
    ensures SkippedAsFound(v, n, to, v2)
  {
  }

  lemma IsProlonged(v: Volume, n: int, ok: bool, b: int, v': Volume)
    requires 0 <= n < |v.maps| && n < |v'.maps| && DataSame(v.store.img, v'.store.img, v.maps[n])
    requires if ok then v'.maps[n].Data() == v.maps[n].Data() + [b] else v'.maps == v.maps
    ensures Prolonged(v, n, v')
    ensures ok && InData(b) && b !in v.store.live && AsFound(v.store.img[b], v'.store.img[b]) ==>
      FoundFree(v, v', v'.maps[n].Data()[|v.maps[n].Data()|])
  {
    hide DataSame, AsFound;
  }

  /** Appends a block that the write skips: its contents stay as they were allocated. */
  method AppendSkipped(fs: FileSystem, n: int, node: Inode, ghost slots: seq<Record>, ghost before: seq<byte>,
                       ghost pre: seq<byte>, ghost offset: int, ghost buff: seq<byte>)
    returns (ok: bool, ghost pre': seq<byte>)
    requires fs.Stored() && Sound(fs.At(slots)) && InodeNumValid(n) && slots[n] == node.Rec() && node.isAllocated
    requires |fs.maps| == INODE_BLOCK_COUNT
    requires Progress(Flat(fs.disk.img, fs.maps[n].Data()), before, pre, offset, buff, 0)
    requires |before| <= |fs.maps[n].Data()| * BLOCK_SIZE && (|fs.maps[n].Data()| + 1) * BLOCK_SIZE <= offset
    modifies fs`maps, fs`leaked, fs.disk, fs.disk.mem, node
    ensures fs.Stored() && Sound(fs.At(slots[n := node.Rec()])) && OnlyAddresses(old(node.Rec()), node.Rec())
    ensures |fs.maps| == INODE_BLOCK_COUNT && fs.maps == old(fs.maps)[n := fs.maps[n]]
    ensures OtherDataSame(old(fs.At(slots)), n, fs.disk.img)
    ensures Added(old(fs.At(slots)), n, ok, fs.At(slots[n := node.Rec()]))
    ensures Progress(Flat(fs.disk.img, fs.maps[n].Data()), before, if ok then pre' else pre, offset, buff, 0)
    ensures ok && old(Tidy(fs.At(slots))) ==> Tidy(fs.At(slots[n := node.Rec()]))
    ensures ok ==> Leads(old(fs.At(slots)), fs.At(slots[n := node.Rec()]))
    ensures Prolonged(old(fs.At(slots)), n, fs.At(slots[n := node.Rec()]))
    ensures ok ==> TookFree(old(fs.At(slots)), n, fs.At(slots[n := node.Rec()]))
  {
    hide FreeKept, AsFound, Prolonged, FoundFree, Leads, Sound, Tidy, Maps, OtherDataSame, AllDataSame, DataSame, Flat,
         Progress, Spare, IndexBlocksFor, ZeroPast0, RoomForBlock, Wasted, fs.disk.Valid, fs.table.Valid;
    ghost var v, data := fs.At(slots), fs.maps[n].Data();
    SlotMap(v, n);
    var b;
    ok, b := Extend(fs, n, node, slots);
    ghost var v2 := fs.At(slots[n := node.Rec()]);
    AllImpliesOther(v, n, v2.store.img);
    AllSameAt(v, n, v2.store.img);
    DataSameFlat(v.store.img, v2.store.img, v.maps[n]);
    pre' := pre;
    IsAdded(v, n, ok, fs.At(slots), v2);
    IsProlonged(v, n, ok, b, v2);
    if ok {
      forall i | 8 <= i < BLOCK_SIZE
        ensures v2.store.img[b][i] == 0
      {
        BytesPast0(v2.store.img[b], i);
      }
      pre' := pre + v2.store.img[b];
      FlatAppend(v2.store.img, data, b);
      BlockSkipped(Flat(v.store.img, data), before, pre, offset, buff, v2.store.img[b]);
    }
  }

  /** One block more, for itself and its index blocks; or, for want of them, none. */
  ghost predicate Added(v: Volume, n: int, ok: bool, v': Volume) {
    && 0 <= n < |v.maps| && n < |v'.maps|
    && var k := |v.maps[n].Data()|;
    && (ok <==> RoomForBlock(v.store.live, v.maps[n]))
    && if ok then
         && |v'.maps[n].Data()| == k + 1 && v'.leaked == v.leaked
         && Spare(v'.store.live) == Spare(v.store.live) - 1 - IndexBlocksFor(k)
       else
         v'.maps == v.maps && Wasted(v, k, v')
  }

  lemma IsAdded(v: Volume, n: int, ok: bool, v1: Volume, v': Volume)
    requires 0 <= n < |v.maps| && n < |v'.maps| && (ok <==> RoomForBlock(v.store.live, v.maps[n]))
    requires v1.store == v'.store && v1.leaked == v'.leaked
    requires ok ==> |v'.maps[n].Data()| == |v.maps[n].Data()| + 1 && v'.leaked == v.leaked
    requires ok ==> Spare(v'.store.live) == Spare(v.store.live) - 1 - IndexBlocksFor(|v.maps[n].Data()|)
    requires !ok ==> v'.maps == v.maps && Wasted(v, |v.maps[n].Data()|, v1)
    ensures Added(v, n, ok, v')
  {
    hide RoomForBlock;
  }

  lemma AddedStays(v: Volume, n: int, ok: bool, v1: Volume, v': Volume)
    requires Added(v, n, ok, v1) && v'.maps == v1.maps && v'.leaked == v1.leaked && v'.store.live == v1.store.live
    ensures Added(v, n, ok, v')
  {
    hide RoomForBlock;
  }

  lemma LastFilled(v: Volume, n: int, b: int, block: Block, v2: Volume, v': Volume)
    requires Prolonged(v, n, v2) && v2.maps[n].Data() == v.maps[n].Data() + [b] && Exclusive(v2.store.live, v2.maps[n])
    requires InData(b) && v'.store.img == v2.store.img[b := block] && v'.maps == v2.maps
    ensures Prolonged(v, n, v')
  {
    DataDistinct(v2.store.live, v2.maps[n]);
    forall j | 0 <= j < |v.maps[n].Data()|
      ensures v.maps[n].Data()[j] != b
    {
      assert v2.maps[n].Data()[j] == v.maps[n].Data()[j] && v2.maps[n].Data()[|v.maps[n].Data()|] == b;
    }
  }

  /** Appends a block that holds a piece of the buffer and zeros around it. */
  method AppendPiece(fs: FileSystem, n: int, node: Inode, at: int, piece: seq<byte>, ghost slots: seq<Record>,
                     ghost before: seq<byte>, ghost pre: seq<byte>, ghost offset: int, ghost buff: seq<byte>,
                     ghost w: int)
    returns (ok: bool)
    requires fs.Stored() && Sound(fs.At(slots)) && InodeNumValid(n) && slots[n] == node.Rec() && node.isAllocated
    requires |fs.maps| == INODE_BLOCK_COUNT && 0 <= w && w + |piece| <= |buff| && piece == buff[w..w + |piece|]
    requires 0 <= at < BLOCK_SIZE && at + |piece| <= BLOCK_SIZE && (at > 0 ==> w == 0)
    requires Progress(Flat(fs.disk.img, fs.maps[n].Data()), before, pre, offset, buff, w)
    requires |before| <= |fs.maps[n].Data()| * BLOCK_SIZE && |fs.maps[n].Data()| * BLOCK_SIZE + at == offset + w
    modifies fs`maps, fs`leaked, fs.disk, fs.disk.mem, node
    ensures fs.Stored() && Sound(fs.At(slots[n := node.Rec()])) && OnlyAddresses(old(node.Rec()), node.Rec())
    ensures |fs.maps| == INODE_BLOCK_COUNT && fs.maps == old(fs.maps)[n := fs.maps[n]]
    ensures OtherDataSame(old(fs.At(slots)), n, fs.disk.img)
    ensures Added(old(fs.At(slots)), n, ok, fs.At(slots[n := node.Rec()]))
    ensures Progress(Flat(fs.disk.img, fs.maps[n].Data()), before, if ok then pre + Zeros(at) else pre, offset, buff,
                     if ok then w + |piece| else w)
    ensures ok && old(Tidy(fs.At(slots))) ==> Tidy(fs.At(slots[n := node.Rec()]))
    ensures ok ==> Leads(old(fs.At(slots)), fs.At(slots[n := node.Rec()]))
    ensures Prolonged(old(fs.At(slots)), n, fs.At(slots[n := node.Rec()]))
  {
    hide FreeKept, AsFound, Prolonged, FoundFree, Leads, Moved, Sound, Tidy, Maps, OtherDataSame, AllDataSame, DataSame,
         Flat, Progress, Spare, IndexBlocksFor, ZeroPast0, RoomForBlock, Wasted, Added, Splice, fs.disk.Valid,
         fs.table.Valid;
    ghost var v, data := fs.At(slots), fs.maps[n].Data();
    SlotMap(v, n);
    var b;
    ok, b := Extend(fs, n, node, slots);
    ghost var slots2 := slots[n := node.Rec()];
    ghost var v2 := fs.At(slots2);
    AllImpliesOther(v, n, v2.store.img);
    AllSameAt(v, n, v2.store.img);
    DataSameFlat(v.store.img, v2.store.img, v.maps[n]);
    IsAdded(v, n, ok, fs.At(slots), v2);
    IsProlonged(v, n, ok, b, v2);
    if !ok {
      return;
    }
    var block := Splice(ZeroBlock(), at, piece);
    SlotMap(v2, n);
    LastWritten(v2.store.live, v2.store.img, v2.maps[n], data, b, block);
    ok := Fill(fs, n, |data|, b, block, slots2);
    OtherSameTwice(v, v2, n, fs.disk.img);
    LastFilled(v, n, b, block, v2, fs.At(slots2));
    PieceAppended(fs.disk.img, data, b, before, pre, offset, buff, w, at, |piece|);
    AddedStays(v, n, ok, v2, fs.At(slots2));
    LeadsFar(v, v2, fs.At(slots2));
  }

  // ----- the loop over existing blocks -----

  /** How many bytes are written when logical block i is reached. */
  function WrittenBefore(offset: int, i: int): int {
    if i <= offset / BLOCK_SIZE then 0 else i * BLOCK_SIZE - offset
  }

  /** Where in logical block i the write begins. */
  function PieceAt(offset: int, i: int): int {
    if i == offset / BLOCK_SIZE then offset % BLOCK_SIZE else 0
  }

  /** How many bytes go into logical block i. */
  function PieceLength(offset: int, nbytes: int, i: int): int {
    if i == offset / BLOCK_SIZE then
      (if offset % BLOCK_SIZE + nbytes > BLOCK_SIZE then BLOCK_SIZE - offset % BLOCK_SIZE else nbytes)
    else if i == (offset + nbytes - 1) / BLOCK_SIZE then (offset + nbytes - 1) % BLOCK_SIZE + 1
    else BLOCK_SIZE
  }

  /** The pieces fit together: each lies in its block, follows the one before, and the last one ends the buffer. */
  lemma Pieces(offset: int, nbytes: int, i: int)
    requires 0 <= offset && 0 < nbytes && offset / BLOCK_SIZE <= i <= (offset + nbytes - 1) / BLOCK_SIZE
    ensures var at, t, w := PieceAt(offset, i), PieceLength(offset, nbytes, i), WrittenBefore(offset, i);
      && 0 <= at && 0 < t && at + t <= BLOCK_SIZE && 0 <= w && w + t <= nbytes && i * BLOCK_SIZE + at == offset + w
      && (i == (offset + nbytes - 1) / BLOCK_SIZE ==> w + t == nbytes)
      && (i < (offset + nbytes - 1) / BLOCK_SIZE ==> w + t == WrittenBefore(offset, i + 1))
  {
  }

  lemma WholePiece(block: Block, piece: seq<byte>)
    requires |piece| == BLOCK_SIZE
    ensures Splice(block, 0, piece) == piece
  {
  }

  /** Writes one piece of the buffer into an existing block. */
  method FillPiece(fs: FileSystem, n: int, i: int, b: int, block: Block, ghost at: int, ghost piece: seq<byte>,
                   ghost slots: seq<Record>, ghost before: seq<byte>, ghost offset: int, ghost buff: seq<byte>,
                   ghost w: int)
    returns (ok: bool)
    requires fs.Stored() && Sound(fs.At(slots)) && InodeNumValid(n) && |fs.maps| == INODE_BLOCK_COUNT
    requires 0 <= i < |fs.maps[n].Data()| && b == fs.maps[n].Data()[i]
    requires 0 <= at && at + |piece| <= BLOCK_SIZE && 0 <= w && w + |piece| <= |buff| && piece == buff[w..w + |piece|]
    requires WrittenUpTo(Flat(fs.disk.img, fs.maps[n].Data()), before, offset, buff, w)
    requires i * BLOCK_SIZE + at == offset + w
    requires InData(b) && block == Splice(fs.disk.img[b], at, piece)
    modifies fs.disk`img, fs.disk.mem
    ensures ok && fs.Stored() && Sound(fs.At(slots))
    ensures OtherDataSame(old(fs.At(slots)), n, fs.disk.img)
    ensures WrittenUpTo(Flat(fs.disk.img, fs.maps[n].Data()), before, offset, buff, w + |piece|)
    ensures old(Tidy(fs.At(slots))) ==> Tidy(fs.At(slots))
    ensures Leads(old(fs.At(slots)), fs.At(slots))
  {
    hide Leads, Moved, Sound, Tidy, Maps, OtherDataSame, Flat, WrittenUpTo, Splice, FreeList.NoDuplicates,
         fs.disk.Valid, fs.table.Valid;
    ghost var v, data := fs.At(slots), fs.maps[n].Data();
    SlotMap(v, n);
    DataBlockAt(v, n, i);
    DataDistinct(v.store.live, v.maps[n]);
    PieceFilled(fs.disk.img, data, i, at, before, offset, buff, w, |piece|);
    ok := Fill(fs, n, i, b, block, slots);
  }

  /** Writes what belongs into logical block i: the end of the first block, a whole block, or the start of the last. */
  method WriteOne(fs: FileSystem, n: int, i: int, b: int, buff: seq<byte>, offset: int, w: int,
                  ghost slots: seq<Record>, ghost before: seq<byte>)
    returns (t: int)
    requires fs.Stored() && Sound(fs.At(slots)) && InodeNumValid(n) && |fs.maps| == INODE_BLOCK_COUNT
    requires 0 <= i < |fs.maps[n].Data()| && b == fs.maps[n].Data()[i]
    requires 0 <= offset && buff != [] && offset / BLOCK_SIZE <= i <= (offset + |buff| - 1) / BLOCK_SIZE
    requires w == WrittenBefore(offset, i)
    requires Progress(Flat(fs.disk.img, fs.maps[n].Data()), before, before, offset, buff, w)
    modifies fs.disk`img, fs.disk.mem
    ensures fs.Stored() && Sound(fs.At(slots)) && t == PieceLength(offset, |buff|, i)
    ensures OtherDataSame(old(fs.At(slots)), n, fs.disk.img)
    ensures Progress(Flat(fs.disk.img, fs.maps[n].Data()), before, before, offset, buff, w + t)
    ensures old(Tidy(fs.At(slots))) ==> Tidy(fs.At(slots))
    ensures Leads(old(fs.At(slots)), fs.At(slots))
  {
    hide Leads, Sound, Tidy, OtherDataSame, Flat, WrittenUpTo, Progress, Splice, PieceAt, PieceLength, WrittenBefore,
         fs.disk.Valid, fs.table.Valid;
    DataBlockAt(fs.At(slots), n, i);
    WritingStarted(Flat(fs.disk.img, fs.maps[n].Data()), before, offset, buff, w);
    Pieces(offset, |buff|, i);
    PieceIs(offset, |buff|, i);
    var startBlock, startOffset := offset / BLOCK_SIZE, offset % BLOCK_SIZE;
    var endBlock, endOffset := (offset + |buff| - 1) / BLOCK_SIZE, (offset + |buff| - 1) % BLOCK_SIZE;
    if i != startBlock && i != endBlock {
      t := BLOCK_SIZE;
      WholePiece(fs.disk.img[b], buff[w..w + t]);
      var _ := FillPiece(fs, n, i, b, buff[w..w + t], 0, buff[w..w + t], slots, before, offset, buff, w);
      WritingGoesOn(Flat(fs.disk.img, fs.maps[n].Data()), before, offset, buff, w + t);
      return;
    }
    var read := ReadDataBlock(fs.disk, b);
    var at := 0;
    t := endOffset + 1;
    if i == startBlock {
      at := startOffset;
      t := if startOffset + |buff| > BLOCK_SIZE then BLOCK_SIZE - startOffset else |buff|;
    }
    var block := Splice(read.value, at, buff[w..w + t]);
    var _ := FillPiece(fs, n, i, b, block, at, buff[w..w + t], slots, before, offset, buff, w);
    WritingGoesOn(Flat(fs.disk.img, fs.maps[n].Data()), before, offset, buff, w + t);
  }

  /** Only the bytes of inode n have changed. */
  ghost predicate Rewritten(v: Volume, n: int, v': Volume) {
    && InodeNumValid(n) && n < |v.maps| && v'.maps == v.maps
    && OtherDataSame(v, n, v'.store.img) && (Tidy(v) ==> Tidy(v')) && Leads(v, v')
  }

  lemma RewrittenNot(v: Volume, n: int)
    requires Sound(v) && InodeNumValid(n)
    ensures Rewritten(v, n, v)
  {
    hide Leads, Sound, Tidy, OtherDataSame;
    TableKept(v, n);
    NothingMoved(v);
    LeadsNowhere(v);
    AllImpliesOther(v, n, v.store.img);
  }

  lemma RewrittenMore(v: Volume, n: int, v1: Volume, v2: Volume)
    requires Rewritten(v, n, v1) && v2.maps == v1.maps && OtherDataSame(v1, n, v2.store.img)
    requires (Tidy(v1) ==> Tidy(v2)) && Leads(v1, v2)
    ensures Rewritten(v, n, v2)
  {
    hide Leads, Tidy, OtherDataSame;
    assert v.maps[n := v.maps[n]] == v.maps;
    OtherSameTwice(v, v1, n, v2.store.img);
    LeadsFar(v, v1, v2);
  }

  method WriteExisting(fs: FileSystem, n: int, node: Inode, buff: seq<byte>, offset: int, ghost slots: seq<Record>,
                       ghost before: seq<byte>)
    returns (w: int, complete: bool)
    requires fs.Stored() && Sound(fs.At(slots)) && InodeNumValid(n) && slots[n] == node.Rec()
    requires |fs.maps| == INODE_BLOCK_COUNT
    requires 0 <= offset && buff != [] && before == Flat(fs.disk.img, fs.maps[n].Data())
    modifies fs.disk`img, fs.disk.mem
    ensures fs.Stored() && Sound(fs.At(slots))
    ensures Rewritten(old(fs.At(slots)), n, fs.At(slots))
    ensures Progress(Flat(fs.disk.img, fs.maps[n].Data()), before, before, offset, buff, w)
    ensures complete <==> (offset + |buff| - 1) / BLOCK_SIZE < node.blocks
    ensures w == if complete then |buff| else WrittenBefore(offset, node.blocks)
    ensures node.blocks <= offset / BLOCK_SIZE ==> fs.disk.Now() == old(fs.disk.Now())
  {
    hide Rewritten, Leads, Sound, Tidy, Maps, Searchable, OtherDataSame, DataSame, Flat, Splice, WrittenUpTo, Progress,
         PieceAt, PieceLength, WrittenBefore, CacheHit, fs.disk.Valid, fs.table.Valid;
    ghost var v, m := fs.At(slots), fs.maps[n];
    SlotMap(v, n);
    RewrittenNot(v, n);
    Bounds(offset, |buff|, node.blocks);
    ProgressStarts(before, offset, buff);
    var startBlock, startOffset := offset / BLOCK_SIZE, offset % BLOCK_SIZE;
    var endBlock, endOffset := (offset + |buff| - 1) / BLOCK_SIZE, (offset + |buff| - 1) % BLOCK_SIZE;
    w, complete := 0, false;
    var prev, i := 0, startBlock;
    while i < node.blocks && !complete
      invariant startBlock <= i && (i <= node.blocks || i == startBlock) && CacheOk(m, i, prev)
      invariant fs.Stored() && Sound(fs.At(slots)) && Rewritten(v, n, fs.At(slots))
      invariant Maps(fs.disk.img, node.Rec(), m)
      invariant Progress(Flat(fs.disk.img, m.Data()), before, before, offset, buff, w)
      invariant complete ==> i == endBlock + 1 && w == |buff|
      invariant node.blocks <= startBlock ==> fs.disk.Now() == old(fs.disk.Now())
      invariant !complete ==> i <= endBlock && w == WrittenBefore(offset, i)
    {
      Scannable(fs.disk.img, node.Rec(), m, i);
      DataBlockAt(fs.At(slots), n, i);
      Pieces(offset, |buff|, i);
      var b, next := GetDatablockFromInode(fs.disk, node, i, prev, m);
      if b <= 0 {
        return;
      }
      ghost var v1 := fs.At(slots);
      var t;
      t := WriteOne(fs, n, i, b, buff, offset, w, slots, before);
      w := w + t;
      complete := i == endBlock;
      RewrittenMore(v, n, v1, fs.At(slots));
      SlotMap(fs.At(slots), n);
      prev, i := next, i + 1;
    }
  }

  /** Inside the blocks there were, what is before the offset is what was there. */
  lemma WritingStarted(flat: seq<byte>, before: seq<byte>, offset: int, buff: seq<byte>, w: int)
    requires Progress(flat, before, before, offset, buff, w) && offset <= |flat|
    ensures WrittenUpTo(flat, before, offset, buff, w)
  {
  }

  lemma WritingGoesOn(flat: seq<byte>, before: seq<byte>, offset: int, buff: seq<byte>, w: int)
    requires WrittenUpTo(flat, before, offset, buff, w)
    ensures Progress(flat, before, before, offset, buff, w)
  {
  }

  lemma Bounds(offset: int, nbytes: int, blocks: int)
    requires 0 <= offset && 0 <= blocks && 0 < nbytes
    ensures offset / BLOCK_SIZE <= (offset + nbytes - 1) / BLOCK_SIZE
    ensures blocks <= offset / BLOCK_SIZE ==> WrittenBefore(offset, blocks) == 0
    ensures WrittenBefore(offset, offset / BLOCK_SIZE) == 0
  {
  }

  lemma PieceIs(offset: int, nbytes: int, i: int)
    requires 0 <= offset && 0 < nbytes && offset / BLOCK_SIZE <= i <= (offset + nbytes - 1) / BLOCK_SIZE
    ensures i == offset / BLOCK_SIZE ==>
      && PieceAt(offset, i) == offset % BLOCK_SIZE && WrittenBefore(offset, i) == 0
      && PieceLength(offset, nbytes, i) ==
           if offset % BLOCK_SIZE + nbytes > BLOCK_SIZE then BLOCK_SIZE - offset % BLOCK_SIZE else nbytes
    ensures i != offset / BLOCK_SIZE ==>
      && PieceAt(offset, i) == 0
      && PieceLength(offset, nbytes, i) ==
           if i == (offset + nbytes - 1) / BLOCK_SIZE then (offset + nbytes - 1) % BLOCK_SIZE + 1 else BLOCK_SIZE
  {
  }

  // ----- the loop over new blocks -----

  lemma OnlyAddressesTwice(r: Record, r1: Record, r2: Record)
    requires OnlyAddresses(r, r1) && OnlyAddresses(r1, r2)
    ensures OnlyAddresses(r, r2)
  {
  }

  /** The write as it goes on past the blocks there were. */
  ghost predicate Growing(v: Volume, n: int, v': Volume) {
    && Sound(v') && InodeNumValid(n) && |v.slots| == |v'.slots| && n < |v.slots|
    && |v.maps| == |v'.maps| == INODE_BLOCK_COUNT
    && v'.slots == v.slots[n := v'.slots[n]] && v'.maps == v.maps[n := v'.maps[n]]
    && OnlyAddresses(v.slots[n], v'.slots[n]) && OtherDataSame(v, n, v'.store.img)
  }

  lemma GrowsMore(v: Volume, n: int, v1: Volume, v2: Volume)
    requires Growing(v, n, v1) && Growing(v1, n, v2)
    ensures Growing(v, n, v2)
  {
    hide Sound, OtherDataSame, OnlyAddresses;
    OnlyAddressesTwice(v.slots[n], v1.slots[n], v2.slots[n]);
    OtherSameTwice(v, v1, n, v2.store.img);
    assert v.slots[n := v1.slots[n]][n := v2.slots[n]] == v.slots[n := v2.slots[n]];
    assert v.maps[n := v1.maps[n]][n := v2.maps[n]] == v.maps[n := v2.maps[n]];
  }

  lemma GrowingStarts(v: Volume, n: int)
    requires Sound(v) && InodeNumValid(n)
    ensures Growing(v, n, v)
  {
    hide Sound, OtherDataSame;
    SlotMap(v, n);
    NothingMoved(v);
    AllImpliesOther(v, n, v.store.img);
  }

  lemma AllocatedKept(r: Record, r': Record)
    requires OnlyAddresses(r, r')
    ensures r'.isAllocated == r.isAllocated && r'.fileSize == r.fileSize && r'.isDir == r.isDir
    ensures r'.filesCount == r.filesCount
  {
  }

  /** How many blocks a file has once the write is complete. */
  function BlocksOfWrite(offset: int, nbytes: int): int {
    (offset + nbytes - 1) / BLOCK_SIZE + 1
  }

  /** There are blocks enough for a file of `from` blocks to have `to` of them. */
  ghost predicate RoomToGrow(live: set<int>, from: int, to: int) {
    to <= from || (0 <= from && to <= MAX_BLOCKS && Footprint(to) - Footprint(from) <= Spare(live))
  }

  lemma RoomForFewer(live: set<int>, from: int, a: int, b: int)
    requires RoomToGrow(live, from, b) && a <= b
    ensures RoomToGrow(live, from, a)
  {
    hide Footprint, Spare;
    if from < a {
      FootprintMore(a, b);
    }
  }

  /**
   * Inode n has the blocks it was to grow to, or as many as there were blocks for. Then what was spare but not enough
   * for one more has leaked.
   */
  ghost predicate Grew(v: Volume, n: int, to: int, v': Volume) {
    && 0 <= n < |v.maps| && n < |v'.maps|
    && var from, k := |v.maps[n].Data()|, |v'.maps[n].Data()|;
    var rest := Spare(v.store.live) - (Footprint(k) - Footprint(from));
    if RoomToGrow(v.store.live, from, to) then
      k == (if from < to then to else from) && v'.leaked == v.leaked && Spare(v'.store.live) == rest
    else
      && from <= k < to && RoomToGrow(v.store.live, from, k) && !RoomToGrow(v.store.live, from, k + 1)
      && var waste := if k < MAX_BLOCKS || rest == 0 then rest else 1;
      && v.leaked <= v'.leaked && |v'.leaked| == |v.leaked| + waste && Spare(v'.store.live) == rest - waste
  }

  /** As far as the file has grown while the blocks sufficed. */
  ghost predicate GrewSoFar(v: Volume, n: int, k: int, v': Volume) {
    && 0 <= n < |v.maps| && n < |v'.maps| && |v.maps[n].Data()| <= k == |v'.maps[n].Data()| <= MAX_BLOCKS
    && v'.leaked == v.leaked
    && Spare(v'.store.live) == Spare(v.store.live) - (Footprint(k) - Footprint(|v.maps[n].Data()|))
  }

  lemma GrewOne(v: Volume, n: int, k: int, v1: Volume, v2: Volume)
    requires GrewSoFar(v, n, k, v1) && Added(v1, n, true, v2)
    ensures GrewSoFar(v, n, k + 1, v2) && |v2.maps[n].Data()| == k + 1
  {
    hide Footprint, Spare, IndexBlocksFor;
    FootprintGrows(k);
  }

  lemma GrewAll(v: Volume, n: int, to: int, k: int, v': Volume)
    requires GrewSoFar(v, n, k, v') && 0 <= Spare(v'.store.live)
    requires k == if |v.maps[n].Data()| < to then to else |v.maps[n].Data()|
    ensures Grew(v, n, to, v') && RoomToGrow(v.store.live, |v.maps[n].Data()|, to)
  {
    hide Footprint, Spare;
  }

  lemma GrewTooFar(v: Volume, n: int, to: int, k: int, v1: Volume, v2: Volume)
    requires GrewSoFar(v, n, k, v1) && Added(v1, n, false, v2) && k < to && 0 <= Spare(v1.store.live)
    ensures Grew(v, n, to, v2) && !RoomToGrow(v.store.live, |v.maps[n].Data()|, to)
    ensures |v2.maps[n].Data()| == k
  {
    hide Footprint, Spare, IndexBlocksFor;
    if k < MAX_BLOCKS {
      FootprintGrows(k);
      if to <= MAX_BLOCKS {
        FootprintMore(k + 1, to);
      }
    }
  }

  lemma GrewNothing(v: Volume, n: int)
    requires Sound(v) && InodeNumValid(n)
    ensures n < |v.maps| && GrewSoFar(v, n, |v.maps[n].Data()|, v)
  {
    hide Sound, Spare, Footprint;
    SlotMap(v, n);
    MapLimit(v.store.img, v.slots[n], v.maps[n]);
  }

  lemma MapLimit(img: Image, r: Record, m: BlockMap)
    requires Maps(img, r, m)
    ensures |m.Data()| <= MAX_BLOCKS
  {
    hide Word;
    MapShape(img, r, m);
  }

  /** Appends the i-th new block: one that is skipped, or one with a piece of the buffer. */
  method AppendNext(fs: FileSystem, n: int, node: Inode, buff: seq<byte>, offset: int, w: int, i: int, newBlocks: int,
                    startingBlock: int, ghost slots: seq<Record>, ghost before: seq<byte>, ghost pre: seq<byte>,
                    ghost blocks0: int)
    returns (added: bool, t: int, ghost pre': seq<byte>)
    requires fs.Stored() && Sound(fs.At(slots)) && InodeNumValid(n) && slots[n] == node.Rec() && node.isAllocated
    requires |fs.maps| == INODE_BLOCK_COUNT && |fs.maps[n].Data()| == blocks0 + i - 1 && 0 <= blocks0
    requires 0 <= offset && buff != [] && |before| == blocks0 * BLOCK_SIZE && 1 <= i <= newBlocks
    requires newBlocks == (offset + |buff| - 1) / BLOCK_SIZE - blocks0 + 1
    requires startingBlock == offset / BLOCK_SIZE - blocks0 + 1 && w == WrittenBefore(offset, blocks0 + i - 1)
    requires Progress(Flat(fs.disk.img, fs.maps[n].Data()), before, pre, offset, buff, w)
    modifies fs`maps, fs`leaked, fs.disk, fs.disk.mem, node
    ensures fs.Stored() && Sound(fs.At(slots[n := node.Rec()])) && OnlyAddresses(old(node.Rec()), node.Rec())
    ensures |fs.maps| == INODE_BLOCK_COUNT && fs.maps == old(fs.maps)[n := fs.maps[n]]
    ensures OtherDataSame(old(fs.At(slots)), n, fs.disk.img)
    ensures Added(old(fs.At(slots)), n, added, fs.At(slots[n := node.Rec()]))
    ensures Progress(Flat(fs.disk.img, fs.maps[n].Data()), before, pre', offset, buff, if added then w + t else w)
    ensures w + t == if i == newBlocks then |buff| else WrittenBefore(offset, blocks0 + i)
    ensures added && old(Tidy(fs.At(slots))) ==> Tidy(fs.At(slots[n := node.Rec()]))
    ensures added ==> Leads(old(fs.At(slots)), fs.At(slots[n := node.Rec()]))
    ensures Prolonged(old(fs.At(slots)), n, fs.At(slots[n := node.Rec()]))
    ensures added && i < startingBlock ==> TookFree(old(fs.At(slots)), n, fs.At(slots[n := node.Rec()]))
  {
    hide Prolonged, TookFree, Leads, Sound, Tidy, OtherDataSame, OnlyAddresses, Flat, Progress, PieceAt, PieceLength,
         WrittenBefore, RoomForBlock, Added, Spare, fs.disk.Valid, fs.table.Valid;
    ghost var k := blocks0 + i - 1;
    if i < startingBlock {
      NothingBefore(offset, k);
      t := 0;
      added, pre' := AppendSkipped(fs, n, node, slots, before, pre, offset, buff);
      pre' := if added then pre' else pre;
      return;
    }
    Pieces(offset, |buff|, k);
    PieceIs(offset, |buff|, k);
    var at := 0;
    t := BLOCK_SIZE;
    if startingBlock >= 1 && i == startingBlock {
      // the first block with data
      at := offset % BLOCK_SIZE;
      t := if at + |buff| > BLOCK_SIZE then BLOCK_SIZE - at else |buff|;
    } else if i == newBlocks {
      // the last block to be written
      t := (offset + |buff| - 1) % BLOCK_SIZE + 1;
    }
    added := AppendPiece(fs, n, node, at, buff[w..w + t], slots, before, pre, offset, buff, w);
    pre' := if added then pre + Zeros(at) else pre;
  }

  lemma NothingBefore(offset: int, k: int)
    requires 0 <= k < offset / BLOCK_SIZE
    ensures WrittenBefore(offset, k) == WrittenBefore(offset, k + 1) == 0 && (k + 1) * BLOCK_SIZE <= offset
  {
  }

  lemma NoneSkipped(v: Volume, n: int, to: int)
    requires 0 <= n < |v.maps|
    ensures SkippedAsFound(v, n, to, v)
  {
  }

  lemma FoundOn(v: Volume, n: int, to: int, added: bool, skipped: bool, v1: Volume, v2: Volume)
    requires SkippedAsFound(v, n, to, v1) && Prolonged(v1, n, v2) && Added(v1, n, added, v2)
    requires if added && skipped then FreeKept(v.store, v1.store) && TookFree(v1, n, v2)
      else added ==> to <= |v1.maps[n].Data()|
    ensures SkippedAsFound(v, n, to, v2) && (added && skipped ==> FreeKept(v.store, v2.store))
  {
    hide SkippedAsFound, Prolonged, TookFree, FreeKept, RoomForBlock, Wasted, IndexBlocksFor, Spare;
    if added && skipped {
      FoundMore(v, n, to, v1, v2);
    } else {
      FoundStays(v, n, to, v1, v2);
    }
  }

  method WriteNew(fs: FileSystem, n: int, node: Inode, buff: seq<byte>, offset: int, w0: int, ghost slots: seq<Record>,
                  ghost before: seq<byte>)
    returns (w: int, ghost pre: seq<byte>)
    requires fs.Stored() && Sound(fs.At(slots)) && InodeNumValid(n) && slots[n] == node.Rec() && node.isAllocated
    requires |fs.maps| == INODE_BLOCK_COUNT
    requires 0 <= offset && buff != [] && |before| == node.blocks * BLOCK_SIZE
    requires w0 == if (offset + |buff| - 1) / BLOCK_SIZE < node.blocks then |buff|
      else WrittenBefore(offset, node.blocks)
    requires Progress(Flat(fs.disk.img, fs.maps[n].Data()), before, before, offset, buff, w0)
    modifies fs`maps, fs`leaked, fs.disk, fs.disk.mem, node
    ensures fs.Stored() && Growing(old(fs.At(slots)), n, fs.At(slots[n := node.Rec()]))
    ensures Progress(Flat(fs.disk.img, fs.maps[n].Data()), before, pre, offset, buff, w)
    ensures Grew(old(fs.At(slots)), n, BlocksOfWrite(offset, |buff|), fs.At(slots[n := node.Rec()]))
    ensures n < |old(fs.maps)|
    ensures w ==
      if RoomToGrow(old(fs.disk.live), |old(fs.maps)[n].Data()|, BlocksOfWrite(offset, |buff|)) then |buff|
      else WrittenBefore(offset, |fs.maps[n].Data()|)
    ensures old(Tidy(fs.At(slots))) ==>
      RoomToGrow(old(fs.disk.live), |old(fs.maps)[n].Data()|, BlocksOfWrite(offset, |buff|)) ==>
        Tidy(fs.At(slots[n := node.Rec()]))
    ensures RoomToGrow(old(fs.disk.live), |old(fs.maps)[n].Data()|, BlocksOfWrite(offset, |buff|)) ==>
      Leads(old(fs.At(slots)), fs.At(slots[n := node.Rec()]))
    ensures SkippedAsFound(old(fs.At(slots)), n, offset / BLOCK_SIZE, fs.At(slots[n := node.Rec()]))
  {
    hide FreeKept, Prolonged, TookFree, SkippedAsFound, Leads, Sound, Tidy, Growing, OtherDataSame, OnlyAddresses, Flat,
         Progress, PieceAt, PieceLength, WrittenBefore, RoomForBlock, RoomToGrow, Grew, GrewSoFar, Added, Spare,
         fs.disk.Valid, fs.table.Valid;
    ghost var v := fs.At(slots);
    SlotMap(v, n);
    GrowingStarts(v, n);
    GrewNothing(v, n);
    NothingTaken(v.store);
    NoneSkipped(v, n, offset / BLOCK_SIZE);
    LeadsNowhere(v);
    Bounds(offset, |buff|, node.blocks);
    ghost var blocks0, to := node.blocks, BlocksOfWrite(offset, |buff|);
    assert slots[n := node.Rec()] == slots;
    var startBlock, startOffset := offset / BLOCK_SIZE, offset % BLOCK_SIZE;
    var endBlock, endOffset := (offset + |buff| - 1) / BLOCK_SIZE, (offset + |buff| - 1) % BLOCK_SIZE;
    var newBlocks, startingBlock := endBlock - node.blocks + 1, startBlock - node.blocks + 1;
    w, pre := w0, before;
    var i := 1;
    while i <= newBlocks
      invariant 1 <= i && (newBlocks >= 0 ==> i <= newBlocks + 1) && (newBlocks < 0 ==> i == 1)
      invariant fs.Stored() && Growing(v, n, fs.At(slots[n := node.Rec()])) && node.isAllocated
      invariant |fs.maps| == INODE_BLOCK_COUNT && |fs.maps[n].Data()| == blocks0 + i - 1
      invariant Progress(Flat(fs.disk.img, fs.maps[n].Data()), before, pre, offset, buff, w)
      invariant w == if i > newBlocks then |buff| else WrittenBefore(offset, blocks0 + i - 1)
      invariant SkippedAsFound(v, n, startBlock, fs.At(slots[n := node.Rec()]))
      invariant i <= startingBlock ==> FreeKept(v.store, fs.disk.Now())
      invariant GrewSoFar(v, n, blocks0 + i - 1, fs.At(slots[n := node.Rec()]))
      invariant (Tidy(v) ==> Tidy(fs.At(slots[n := node.Rec()]))) && Leads(v, fs.At(slots[n := node.Rec()]))
    {
      ghost var slots1, v1 := slots[n := node.Rec()], fs.At(slots[n := node.Rec()]);
      GrowingParts(v, n, v1);
      SpareIsNatural(fs.disk);
      var added, t;
      added, t, pre := AppendNext(fs, n, node, buff, offset, w, i, newBlocks, startingBlock, slots1, before, pre,
                                  blocks0);
      assert slots1[n := node.Rec()] == slots[n := node.Rec()];
      ghost var v2 := fs.At(slots[n := node.Rec()]);
      GrowingStep(v1, n, v2);
      GrowsMore(v, n, v1, v2);
      AllocatedKept(slots1[n], node.Rec());
      FoundOn(v, n, startBlock, added, i < startingBlock, v1, v2);
      if !added {
        GrewTooFar(v, n, to, blocks0 + i - 1, v1, v2);
        return;
      }
      LeadsFar(v, v1, v2);
      GrewOne(v, n, blocks0 + i - 1, v1, v2);
      w := w + t;
      i := i + 1;
    }
    SpareIsNatural(fs.disk);
    GrewAll(v, n, to, blocks0 + i - 1, fs.At(slots[n := node.Rec()]));
  }

  lemma GrowingParts(v: Volume, n: int, v': Volume)
    requires Growing(v, n, v')
    ensures Sound(v') && n < |v.slots| && |v'.maps| == INODE_BLOCK_COUNT
  {
  }

  lemma GrowingStep(v: Volume, n: int, v': Volume)
    requires Sound(v) && Sound(v') && InodeNumValid(n) && |v.slots| == |v'.slots| && n < |v.slots|
    requires |v.maps| == |v'.maps| == INODE_BLOCK_COUNT
    requires v'.slots == v.slots[n := v'.slots[n]] && v'.maps == v.maps[n := v'.maps[n]]
    requires OnlyAddresses(v.slots[n], v'.slots[n]) && OtherDataSame(v, n, v'.store.img)
    ensures Growing(v, n, v')
  {
  }

  // ----- the whole write -----

  /**
   * Nothing but the bytes of inode n changed: every other inode has its blocks and its bytes, and the names
   * are the same.
   */
  ghost predicate OnlyFile(v: Volume, dirs: seq<Directory>, n: int, v': Volume, dirs': seq<Directory>) {
    && InodeNumValid(n) && |v.slots| == |v'.slots| && n < |v.slots| && |v.maps| == |v'.maps| == INODE_BLOCK_COUNT
    && v'.slots == v.slots[n := v'.slots[n]] && v'.maps == v.maps[n := v'.maps[n]]
    && var r' := v'.slots[n];
    && r' == v.slots[n].(blocks := r'.blocks, direct := r'.direct, single := r'.single, double := r'.double,
                         triple := r'.triple, fileSize := r'.fileSize)
    && OtherDataSame(v, n, v'.store.img) && dirs' == dirs
  }

  /** The file's size is within its blocks. */
  ghost predicate Sized(v: Volume, n: int) {
    0 <= n < |v.maps| && n < |v.slots| && 0 <= v.slots[n].fileSize <= |v.maps[n].Data()| * BLOCK_SIZE
  }

  lemma SizedAt(v: Volume, dirs: seq<Directory>, n: int)
    requires Sound(v) && Listed(v.store.img, v.slots, v.maps, dirs) && InodeNumValid(n)
    ensures Sized(v, n) && |v.maps| == INODE_BLOCK_COUNT == |dirs| && |v.maps[n].Data()| == v.slots[n].blocks
    ensures !(v.slots[n].isAllocated && v.slots[n].isDir) ==> dirs[n] == []
  {
    hide Sound, Shown, Distinct, Listing;
    SlotMap(v, n);
    hide Maps;
    assert Lists(v.store.img, v.slots[n], v.maps[n], dirs[n]);
  }

  /** The size and the blocks of an inode say nothing about the tree of names. */
  lemma FileTree(v: Volume, dirs: seq<Directory>, n: int, r': Record)
    requires InodeNumValid(n) && |dirs| == INODE_BLOCK_COUNT <= |v.slots|
    requires r'.isDir == v.slots[n].isDir && r'.isAllocated == v.slots[n].isAllocated
    ensures TreeOf(v.slots[n := r'], dirs) == TreeOf(v.slots, dirs)
  {
    hide TreeOf;
    TreeReplaced(v.slots, dirs, n, r', dirs[n]);
    assert dirs[n := dirs[n]] == dirs;
  }

  lemma FileListed(v: Volume, dirs: seq<Directory>, n: int, img': Image, r': Record, m': BlockMap)
    requires InodeNumValid(n) && Listed(v.store.img, v.slots, v.maps, dirs) && OtherDataSame(v, n, img')
    requires 0 <= r'.fileSize <= r'.blocks * BLOCK_SIZE && r'.isAllocated && !r'.isDir && dirs[n] == []
    requires v.slots[n].isAllocated && !v.slots[n].isDir
    ensures Listed(img', v.slots[n := r'], v.maps[n := m'], dirs)
    ensures TreeOf(v.slots[n := r'], dirs) == TreeOf(v.slots, dirs)
  {
    hide OtherDataSame, TreeOf;
    assert Lists(img', r', m', []);
    hide Listed, Lists;
    ListedSizes(v.store.img, v.slots, v.maps, dirs);
    ListedReplaced(v, dirs, n, img', r', m', []);
    TreeReplaced(v.slots, dirs, n, r', dirs[n]);
    assert dirs[n := []] == dirs == dirs[n := dirs[n]];
  }

  lemma BytesAreFirst(v: Volume, n: int, offset: int)
    requires Sized(v, n)
    ensures Bytes(v, n) == BlockBytes(v, n)[..v.slots[n].fileSize]
    ensures 0 <= offset <= v.slots[n].fileSize ==> BlockBytes(v, n)[..offset] == Bytes(v, n)[..offset]
  {
    hide Flat;
  }

  /** Setting the size to where the write ended leaves just what was written, if the blocks go that far. */
  lemma DoneWriting(v: Volume, n: int, before: seq<byte>, pre: seq<byte>, offset: int, buff: seq<byte>, w: int)
    requires 0 <= n < |v.maps| && n < |v.slots| && v.slots[n].fileSize == offset + w
    requires Progress(Flat(v.store.img, v.maps[n].Data()), before, pre, offset, buff, w)
    ensures Sized(v, n) <==> offset <= |v.maps[n].Data()| * BLOCK_SIZE
    ensures Sized(v, n) ==> |Bytes(v, n)| == offset + w && 0 <= w <= |buff|
    ensures Sized(v, n) ==> Reached(before, Bytes(v, n)[..offset], offset) && Bytes(v, n)[offset..] == buff[..w]
    ensures Sized(v, n) ==> RestKept(before, BlockBytes(v, n), offset + w)
  {
    var flat := Flat(v.store.img, v.maps[n].Data());
    if offset <= |flat| {
      ProgressReached(flat, before, pre, offset, buff, w);
      hide Flat;
      assert flat[..offset + w][..offset] == flat[..offset] && flat[..offset + w][offset..] == flat[offset..offset + w];
    }
  }

  /**
   * What a write of `buff` at `offset` leaves, when it gets as far as w bytes: those bytes behind whatever the file's
   * blocks had up to the offset, and behind the last of them the skipped ones, as they were found or zeroed. Further on
   * the blocks hold what they held, and new ones zeros. It is complete if and only if there were blocks enough. If they
   * do not even reach the offset, the size is set to the offset all the same.
   */
  ghost predicate Wrote(v: Volume, n: int, offset: int, buff: seq<byte>, w: int, v': Volume) {
    && Sized(v, n) && 0 <= offset && 0 <= w <= |buff| && n < |v'.maps| && n < |v'.slots|
    && v'.slots[n].fileSize == offset + w
    && Grew(v, n, BlocksOfWrite(offset, |buff|), v')
    && w == (if RoomToGrow(v.store.live, |v.maps[n].Data()|, BlocksOfWrite(offset, |buff|)) then |buff|
             else WrittenBefore(offset, |v'.maps[n].Data()|))
    && SkippedAsFound(v, n, offset / BLOCK_SIZE, v')
    && (Sized(v', n) <==> offset <= |v'.maps[n].Data()| * BLOCK_SIZE)
    && (Sized(v', n) ==>
          && |Bytes(v', n)| == offset + w
          && Reached(BlockBytes(v, n), Bytes(v', n)[..offset], offset) && Bytes(v', n)[offset..] == buff[..w]
          && RestKept(BlockBytes(v, n), BlockBytes(v', n), offset + w))
  }

  /** At an offset within the blocks, the file then has the bytes before the offset and what was written. */
  lemma WroteWithin(v: Volume, n: int, offset: int, buff: seq<byte>, w: int, v': Volume)
    requires Wrote(v, n, offset, buff, w, v') && offset <= |BlockBytes(v, n)|
    ensures Sized(v', n) && Bytes(v', n) == BlockBytes(v, n)[..offset] + buff[..w]
    ensures offset <= v.slots[n].fileSize ==> Bytes(v', n) == Bytes(v, n)[..offset] + buff[..w]
  {
    AllBytes(v, n);
    BytesAreFirst(v, n, offset);
    hide SkippedAsFound, RestKept, Bytes, BlockBytes, RoomToGrow, Footprint, Spare, WrittenBefore;
    var after := Bytes(v', n);
    assert after == after[..offset] + after[offset..];
  }

  /** A write that ends within the blocks of the file is always complete. */
  lemma WithinIsComplete(v: Volume, n: int, offset: int, buff: seq<byte>, w: int, v': Volume)
    requires Wrote(v, n, offset, buff, w, v') && buff != [] && offset + |buff| <= |BlockBytes(v, n)|
    ensures w == |buff| && v'.leaked == v.leaked
  {
    AllBytes(v, n);
    hide SkippedAsFound, RestKept, Bytes, BlockBytes, Footprint, Spare, WrittenBefore, Skipped;
  }

  /** Whether the blocks run out before the offset is reached; the size is then behind the last block. */
  ghost predicate StopsShort(v: Volume, n: int, offset: int) {
    && Loadable(v.slots, n) && n < |v.maps| && 0 <= offset
    && !RoomToGrow(v.store.live, |v.maps[n].Data()|, BlocksFor(offset))
  }

  lemma WroteShort(v: Volume, n: int, offset: int, buff: seq<byte>, w: int, v': Volume)
    requires Wrote(v, n, offset, buff, w, v') && buff != [] && Loadable(v.slots, n)
    ensures Sized(v', n) <==> !StopsShort(v, n, offset)
  {
    hide SkippedAsFound, RestKept, Bytes, BlockBytes, Reached, RoomToGrow, Footprint, Spare, WrittenBefore;
    var from, k, to := |v.maps[n].Data()|, |v'.maps[n].Data()|, BlocksOfWrite(offset, |buff|);
    var need := BlocksFor(offset);
    assert need <= to && (need <= k <==> offset <= k * BLOCK_SIZE);
    if RoomToGrow(v.store.live, from, to) {
      RoomForFewer(v.store.live, from, need, to);
    } else if need <= k {
      RoomForFewer(v.store.live, from, need, k);
    } else if RoomToGrow(v.store.live, from, need) {
      RoomForFewer(v.store.live, from, k + 1, need);
    }
  }

  /** The bytes before the offset that lie behind the old end: of the old blocks, or skipped. */
  lemma GapIs(flat: seq<byte>, size: int, pre: seq<byte>, after: seq<byte>, offset: int)
    requires 0 <= size && |pre| == offset <= |after| && pre == after[..offset]
    requires forall i :: 0 <= i < offset && i < |flat| ==> pre[i] == flat[i]
    ensures (forall i :: size <= i < offset ==> pre[i] == 0) <==>
      (forall i :: size <= i < offset ==> if i < |flat| then flat[i] == 0 else after[i] == 0)
  {
    assert forall i :: 0 <= i < offset ==> after[i] == pre[i];
  }

  /**
   * What a complete write leaves is the overwritten file exactly when the write reaches its old end, and there are only
   * zeros between that end and an offset behind it, in the rest of the last block and in the skipped ones.
   */
  lemma WriteIsOverwrite(v: Volume, n: int, offset: int, buff: seq<byte>, v': Volume)
    requires Wrote(v, n, offset, buff, |buff|, v') && Sized(v', n)
    ensures Bytes(v', n) == Overwritten(Bytes(v, n), offset, buff) <==>
      && |Bytes(v, n)| <= offset + |buff|
      && forall i :: |Bytes(v, n)| <= i < offset ==>
          if i < |BlockBytes(v, n)| then BlockBytes(v, n)[i] == 0 else Bytes(v', n)[i] == 0
  {
    SizedSize(v, n);
    AllBytes(v, n);
    BytesAreFirst(v, n, offset);
    hide SkippedAsFound, RestKept, Flat, Bytes, BlockBytes, Grew, RoomToGrow, Reached, WrittenBefore, Overwritten;
    var after, pre := Bytes(v', n), Bytes(v', n)[..offset];
    assert after == pre + buff by {
      assert buff[..|buff|] == buff;
    }
    ReachedIsOverwritten(BlockBytes(v, n), v.slots[n].fileSize, pre, offset, buff);
    GapIs(BlockBytes(v, n), v.slots[n].fileSize, pre, after, offset);
  }

  /** A write that ends before the end of the file cuts it off there. */
  lemma ShortWriteCutsFile(v: Volume, n: int, offset: int, buff: seq<byte>, v': Volume)
    requires Wrote(v, n, offset, buff, |buff|, v') && offset + |buff| < |Bytes(v, n)|
    ensures Sized(v', n) && Bytes(v', n) == Bytes(v, n)[..offset] + buff && |Bytes(v', n)| < |Bytes(v, n)|
    ensures Bytes(v', n) != Overwritten(Bytes(v, n), offset, buff)
  {
    SizedSize(v, n);
    AllBytes(v, n);
    WroteWithin(v, n, offset, buff, |buff|, v');
    assert buff[..|buff|] == buff;
    WriteIsOverwrite(v, n, offset, buff, v');
    hide Bytes, BlockBytes;
  }

  method WriteInode(fs: FileSystem, n: int, node: Inode, buff: seq<byte>, offset: int) returns (w: int)
    requires Whole(fs) && InodeNumValid(n) && node.Rec() == fs.table.slots[n] && node.isAllocated
    requires 0 <= offset && buff != []
    modifies fs`maps, fs`leaked, fs.disk, fs.disk.mem, fs.table, fs.table.rows, node
    ensures fs.Stored() && Sound(fs.At(fs.table.slots)) && |fs.dirs| == INODE_BLOCK_COUNT <= |fs.table.slots|
    ensures !old(node.isDir) ==> (Whole(fs) <==> Sized(fs.At(fs.table.slots), n))
    ensures Wrote(old(fs.At(fs.table.slots)), n, offset, buff, w, fs.At(fs.table.slots))
    ensures OnlyFile(old(fs.At(fs.table.slots)), old(fs.dirs), n, fs.At(fs.table.slots), fs.dirs)
    ensures NamesOf(fs) == old(NamesOf(fs))
    ensures w == |buff| && old(Tidy(fs.At(fs.table.slots))) ==> Tidy(fs.At(fs.table.slots))
    ensures w == |buff| ==> Leads(old(fs.At(fs.table.slots)), fs.At(fs.table.slots))
  {
    hide Rewritten, SkippedAsFound, Leads, Sound, Tidy, Listed, TreeOf, Growing, OtherDataSame, OnlyAddresses, Flat,
         Bytes, BlockBytes, Sized, Progress, WrittenBefore, RoomToGrow, Grew, Wrote, fs.disk.Valid, fs.table.Valid;
    ghost var slots, v := fs.table.slots, fs.At(fs.table.slots);
    SizedAt(v, fs.dirs, n);
    TableSize(fs);
    AllBytes(v, n);
    ghost var before := BlockBytes(v, n);
    var w0, complete := WriteExisting(fs, n, node, buff, offset, slots, before);
    ghost var v1 := fs.At(slots);
    RewrittenFacts(v, n, v1);
    ghost var pre;
    w, pre := WriteNew(fs, n, node, buff, offset, w0, slots, before);
    ghost var slots2, v2 := slots[n := node.Rec()], fs.At(slots[n := node.Rec()]);
    node.fileSize := offset + w;
    SkippedFromThere(v, v1, n, offset, v2);
    WriteLeads(v, n, v1, v2, node.Rec());
    WriteFinished(v, fs.dirs, n, v1, v2, before, pre, offset, buff, w, node.Rec());
    assert slots2[n := node.Rec()] == slots[n := node.Rec()];
    var _ := Save(fs, n, node);
  }

  lemma AllBytes(v: Volume, n: int)
    requires 0 <= n < |v.maps|
    ensures |BlockBytes(v, n)| == |v.maps[n].Data()| * BLOCK_SIZE
    ensures BlockBytes(v, n) == Flat(v.store.img, v.maps[n].Data())
  {
  }

  lemma SizedSize(v: Volume, n: int)
    requires Sized(v, n)
    ensures 0 <= v.slots[n].fileSize <= |v.maps[n].Data()| * BLOCK_SIZE && |Bytes(v, n)| == v.slots[n].fileSize
  {
  }

  lemma RewrittenFacts(v: Volume, n: int, v1: Volume)
    requires Rewritten(v, n, v1)
    ensures OtherDataSame(v, n, v1.store.img) && (Tidy(v) ==> Tidy(v1)) && Leads(v, v1)
  {
  }

  /** Blocks are skipped only by a write that did not touch those there were. */
  lemma SkippedFromThere(v: Volume, v1: Volume, n: int, offset: int, v': Volume)
    requires 0 <= n < |v.maps| && v1.maps == v.maps && SkippedAsFound(v1, n, offset / BLOCK_SIZE, v')
    requires |v.maps[n].Data()| <= offset / BLOCK_SIZE ==> v1.store == v.store
    ensures SkippedAsFound(v, n, offset / BLOCK_SIZE, v')
  {
  }

  lemma WriteLeads(v: Volume, n: int, v1: Volume, v2: Volume, r': Record)
    requires Leads(v, v1) && Growing(v1, n, v2) && n < |v2.slots| && v1.slots[n].isAllocated
    requires r' == v2.slots[n].(fileSize := r'.fileSize)
    ensures Leads(v1, v2) ==> Leads(v, v2.(slots := v2.slots[n := r']))
  {
    hide Leads, Moved, Sound, OtherDataSame;
    if Leads(v1, v2) {
      LeadsFar(v, v1, v2);
      EditLeads(v2, n, r');
      LeadsFar(v, v2, v2.(slots := v2.slots[n := r']));
    }
  }

  lemma WriteFinished(v: Volume, dirs: seq<Directory>, n: int, v1: Volume, v2: Volume, before: seq<byte>,
                      pre: seq<byte>, offset: int, buff: seq<byte>, w: int, r': Record)
    requires Sound(v) && Listed(v.store.img, v.slots, v.maps, dirs) && InodeNumValid(n)
    requires Sized(v, n) && before == BlockBytes(v, n) && v.slots[n].isAllocated
    requires Sound(v1) && v1 == v.(store := v1.store) && v1.store.live == v.store.live
    requires OtherDataSame(v, n, v1.store.img) && Growing(v1, n, v2) && 0 <= offset && buff != []
    requires Grew(v1, n, BlocksOfWrite(offset, |buff|), v2)
    requires Progress(Flat(v2.store.img, v2.maps[n].Data()), before, pre, offset, buff, w)
    requires w == if RoomToGrow(v.store.live, |v.maps[n].Data()|, BlocksOfWrite(offset, |buff|)) then |buff|
      else WrittenBefore(offset, |v2.maps[n].Data()|)
    requires n < |v2.slots| && r' == v2.slots[n].(fileSize := offset + w)
    requires SkippedAsFound(v, n, offset / BLOCK_SIZE, v2)
    ensures var v' := v2.(slots := v2.slots[n := r']);
      && Sound(v') && (Tidy(v2) ==> Tidy(v'))
      && |dirs| == INODE_BLOCK_COUNT <= |v'.slots|
      && (!v.slots[n].isDir ==> (Listed(v'.store.img, v'.slots, v'.maps, dirs) <==> Sized(v', n)))
      && Wrote(v, n, offset, buff, w, v') && OnlyFile(v, dirs, n, v', dirs)
      && TreeOf(v'.slots, dirs) == TreeOf(v.slots, dirs) && v'.slots == v.slots[n := r'] && r'.isAllocated
      && (w == |buff| ==> RoomToGrow(v.store.live, |v.maps[n].Data()|, BlocksOfWrite(offset, |buff|)))
  {
    hide SkippedAsFound, Sound, Listed, TreeOf, Tidy, Growing, OtherDataSame, Bytes, BlockBytes, Flat, Progress, Grew,
         RoomToGrow, WrittenBefore, Wrote, OnlyFile, OnlyAddresses, Sized;
    var v' := v2.(slots := v2.slots[n := r']);
    GrowingFacts(v, n, v1, v2);
    AllocatedKept(v.slots[n], v2.slots[n]);
    SlotMap(v2, n);
    EditedSound(v2, n, r');
    SizedAt(v, dirs, n);
    assert v'.slots == v.slots[n := r'];
    FileTree(v, dirs, n, r');
    if Sized(v', n) && !v.slots[n].isDir {
      SizedBy(v', n);
      FileListed(v, dirs, n, v2.store.img, r', v2.maps[n]);
    }
    GrewFromThere(v, v1, n, BlocksOfWrite(offset, |buff|), v2, v');
    WriteCompared(v, dirs, n, v2, before, pre, offset, buff, w, r');
    if Listed(v'.store.img, v'.slots, v'.maps, dirs) {
      SizedAt(v', dirs, n);
    }
    ShortOfBuffer(v, n, offset, buff, w, v');
  }

  lemma SizedBy(v: Volume, n: int)
    requires 0 <= n < |v.maps| && n < |v.slots|
    ensures Sized(v, n) <==> 0 <= v.slots[n].fileSize <= |v.maps[n].Data()| * BLOCK_SIZE
  {
  }

  /** A write that does not get all blocks does not write the whole buffer. */
  lemma ShortOfBuffer(v: Volume, n: int, offset: int, buff: seq<byte>, w: int, v': Volume)
    requires Wrote(v, n, offset, buff, w, v') && buff != []
    ensures w == |buff| ==> RoomToGrow(v.store.live, |v.maps[n].Data()|, BlocksOfWrite(offset, |buff|))
  {
    hide SkippedAsFound, RestKept, Bytes, BlockBytes, Reached, RoomToGrow, Footprint, Spare;
  }

  lemma GrewFromThere(v: Volume, v1: Volume, n: int, to: int, v2: Volume, v': Volume)
    requires v1 == v.(store := v1.store) && v1.store.live == v.store.live && Grew(v1, n, to, v2)
    requires v'.maps == v2.maps && v'.leaked == v2.leaked && v'.store == v2.store
    ensures Grew(v, n, to, v')
  {
    hide RoomToGrow, Footprint, Spare;
  }

  lemma WriteCompared(v: Volume, dirs: seq<Directory>, n: int, v2: Volume, before: seq<byte>, pre: seq<byte>,
                      offset: int, buff: seq<byte>, w: int, r': Record)
    requires InodeNumValid(n) && Sized(v, n) && before == BlockBytes(v, n) && 0 <= offset
    requires |v.slots| == |v2.slots| && n < |v.slots| && |v.maps| == |v2.maps| == INODE_BLOCK_COUNT
    requires v2.slots == v.slots[n := v2.slots[n]] && v2.maps == v.maps[n := v2.maps[n]]
    requires OnlyAddresses(v.slots[n], v2.slots[n]) && OtherDataSame(v, n, v2.store.img)
    requires Progress(Flat(v2.store.img, v2.maps[n].Data()), before, pre, offset, buff, w)
    requires Grew(v, n, BlocksOfWrite(offset, |buff|), v2.(slots := v2.slots[n := r']))
    requires w == if RoomToGrow(v.store.live, |v.maps[n].Data()|, BlocksOfWrite(offset, |buff|)) then |buff|
      else WrittenBefore(offset, |v2.maps[n].Data()|)
    requires r' == v2.slots[n].(fileSize := offset + w)
    requires SkippedAsFound(v, n, offset / BLOCK_SIZE, v2)
    ensures var v' := v2.(slots := v2.slots[n := r']);
      Wrote(v, n, offset, buff, w, v') && OnlyFile(v, dirs, n, v', dirs)
  {
    hide SkippedAsFound, OtherDataSame, Bytes, BlockBytes, Flat, RoomToGrow, WrittenBefore, Grew, Reached, Sized,
         Skipped;
    var v' := v2.(slots := v2.slots[n := r']);
    ProgressBounds(Flat(v2.store.img, v2.maps[n].Data()), before, pre, offset, buff, w);
    hide Progress;
    SkippedStays(v, n, offset / BLOCK_SIZE, v2, v');
    DoneWriting(v', n, before, pre, offset, buff, w);
  }

  lemma SkippedStays(v: Volume, n: int, to: int, v2: Volume, v': Volume)
    requires SkippedAsFound(v, n, to, v2) && v'.maps == v2.maps && v'.store == v2.store
    ensures SkippedAsFound(v, n, to, v')
  {
  }

  lemma ProgressBounds(flat: seq<byte>, before: seq<byte>, pre: seq<byte>, offset: int, buff: seq<byte>, w: int)
    requires Progress(flat, before, pre, offset, buff, w)
    ensures 0 <= w <= |buff|
  {
  }

  lemma GrowingFacts(v: Volume, n: int, v1: Volume, v2: Volume)
    requires v1 == v.(store := v1.store) && OtherDataSame(v, n, v1.store.img) && Growing(v1, n, v2)
    ensures Sound(v2) && |v.slots| == |v2.slots| && n < |v.slots| && |v.maps| == |v2.maps| == INODE_BLOCK_COUNT
    ensures v2.slots == v.slots[n := v2.slots[n]] && v2.maps == v.maps[n := v2.maps[n]]
    ensures OnlyAddresses(v.slots[n], v2.slots[n]) && OtherDataSame(v, n, v2.store.img)
  {
    hide Sound, OtherDataSame, OnlyAddresses;
    assert v1.maps == v.maps[n := v1.maps[n]];
    OtherSameTwice(v, v1, n, v2.store.img);
  }

  /** The path does not lead to a directory; writing one or cutting it, which the code does, spoils its records. */
  predicate NoDirectory(slots: seq<Record>, n: int) {
    Loadable(slots, n) ==> !slots[n].isDir
  }

  lemma FileLinks(v: Volume, dirs: seq<Directory>, n: int, v': Volume, dirs': seq<Directory>)
    requires OnlyFile(v, dirs, n, v', dirs') && OneLinkEach(v.slots) && v.slots[n].isAllocated
    requires |v.slots| >= INODE_BLOCK_COUNT
    ensures OneLinkEach(v'.slots) && Used(v'.slots) == Used(v.slots)
  {
    hide OneLinkEach, Used, OtherDataSame;
    LinksKept(v.slots, n, v'.slots[n]);
  }

  method Write(fs: FileSystem, path: Path, buff: seq<byte>, offset: int) returns (code: int)
    requires Whole(fs) && path != []
    modifies fs`maps, fs`leaked, fs.disk, fs.disk.mem, fs.table, fs.table.rows
    ensures fs.Stored() && Sound(fs.At(fs.table.slots)) && |fs.dirs| == INODE_BLOCK_COUNT <= |fs.table.slots|
    ensures var n := Resolve(old(NamesOf(fs)), fs.root, path);
      if buff == [] || offset < 0 || !Loadable(old(fs.table.slots), n) then
        && code == (if buff == [] then 0 else if offset < 0 then -EINVAL else if n == -1 then -ENOENT else -1)
        && fs.At(fs.table.slots) == old(fs.At(fs.table.slots)) && fs.dirs == old(fs.dirs) && Whole(fs)
        && NamesOf(fs) == old(NamesOf(fs))
      else
        && Wrote(old(fs.At(fs.table.slots)), n, offset, buff, code, fs.At(fs.table.slots))
        && OnlyFile(old(fs.At(fs.table.slots)), old(fs.dirs), n, fs.At(fs.table.slots), fs.dirs)
        && NamesOf(fs) == old(NamesOf(fs))
        && (NoDirectory(old(fs.table.slots), n) ==> (Whole(fs) <==> !StopsShort(old(fs.At(fs.table.slots)), n, offset)))
    ensures code == |buff| && old(Tidy(fs.At(fs.table.slots))) ==> Tidy(fs.At(fs.table.slots))
    ensures NoDirectory(old(fs.table.slots), Resolve(old(NamesOf(fs)), fs.root, path)) ==>
      (code == |buff| || code < 0) && old(Healthy(fs)) ==> Healthy(fs)
    ensures code == |buff| && buff != [] ==> Leads(old(fs.At(fs.table.slots)), fs.At(fs.table.slots))
  {
    hide Leads, Sound, Tidy, Listed, TreeOf, Resolve, Wrote, OnlyFile, StopsShort, Sized, Proper, Namespaces.TreeShape,
         OneLinkEach, Used, fs.disk.Valid;
    ghost var v, dirs := fs.At(fs.table.slots), fs.dirs;
    ListedSizes(fs.disk.img, fs.table.slots, fs.maps, fs.dirs);
    TableSize(fs);
    if |buff| == 0 {
      return 0;
    }
    if offset < 0 {
      return -EINVAL;
    }
    var inum := GetInodeOfFile(fs, path);
    if inum == -1 {
      return -ENOENT;
    }
    var node := fs.table.LoadINode(inum);
    if node == null {
      return -1;
    }
    code := WriteInode(fs, inum, node, buff, offset);
    WroteSized(v, inum, offset, buff, code, fs.At(fs.table.slots));
    WroteShort(v, inum, offset, buff, code, fs.At(fs.table.slots));
    if old(Healthy(fs)) {
      FileLinks(v, dirs, inum, fs.At(fs.table.slots), fs.dirs);
    }
  }

  // ----- what lies behind the end of a file -----

  /** The rest of the file's blocks, behind its end, is zero. */
  ghost predicate ZeroBehind(v: Volume, n: int) {
    Sized(v, n) && forall i :: v.slots[n].fileSize <= i < |BlockBytes(v, n)| ==> BlockBytes(v, n)[i] == 0
  }

  /** A write keeps the rest zero just when what it cuts off, if it cuts off anything, is zero. */
  lemma WriteKeepsZeros(v: Volume, n: int, offset: int, buff: seq<byte>, w: int, v': Volume)
    requires ZeroBehind(v, n) && Wrote(v, n, offset, buff, w, v') && Sized(v', n)
    ensures ZeroBehind(v', n) <==> forall i :: offset + w <= i < |Bytes(v, n)| ==> Bytes(v, n)[i] == 0
  {
    SizedSize(v, n);
    SizedSize(v', n);
    AllBytes(v, n);
    AllBytes(v', n);
    BytesAreFirst(v, n, 0);
    NoBlockLess(v, n, offset, buff, w, v');
    hide SkippedAsFound, Bytes, BlockBytes, Grew, RoomToGrow, Reached, WrittenBefore;
    var before, after, size := BlockBytes(v, n), BlockBytes(v', n), v.slots[n].fileSize;
    assert forall i :: 0 <= i < size ==> Bytes(v, n)[i] == before[i];
    assert forall i :: offset + w <= i < |after| ==> after[i] == if i < |before| then before[i] else 0;
  }

  lemma NoBlockLess(v: Volume, n: int, offset: int, buff: seq<byte>, w: int, v': Volume)
    requires Wrote(v, n, offset, buff, w, v')
    ensures n < |v'.maps| && |v.maps[n].Data()| <= |v'.maps[n].Data()|
  {
    hide SkippedAsFound, Bytes, BlockBytes, Footprint, Spare, Reached, RestKept, WrittenBefore;
  }

  /** A cut leaves zeros behind the end. */
  lemma CutLeavesZeros(v: Volume, n: int, length: int, v': Volume)
    requires CutTo(v, n, length, v')
    ensures ZeroBehind(v', n)
  {
    AllBytes(v', n);
    hide Bytes, BlockBytes, Flat;
  }

  /** A write at the end cuts nothing off. */
  lemma EndKeepsZeros(v: Volume, n: int, buff: seq<byte>, w: int, v': Volume)
    requires ZeroBehind(v, n) && Wrote(v, n, v.slots[n].fileSize, buff, w, v') && Sized(v', n)
    ensures ZeroBehind(v', n)
  {
    SizedSize(v, n);
    WriteKeepsZeros(v, n, v.slots[n].fileSize, buff, w, v');
    hide Bytes, BlockBytes, ZeroBehind, Grew, RoomToGrow, Reached, WrittenBefore, SkippedAsFound, RestKept;
  }

  lemma TruncatedCases(v: Volume, n: int, length: int, code: int, v': Volume)
    requires Sized(v, n) && Truncated(v, n, length, code, v')
    ensures 0 <= n < |v.slots|
    ensures var size := v.slots[n].fileSize;
      && (length == 0 && size == 0 ==> v' == v)
      && (length <= size && (length != 0 || size != 0) ==> CutTo(v, n, length, v'))
      && (length > size ==>
            Sized(v', n) && n < |v'.slots|
            && Wrote(v, n, size, Zeros(length - size), v'.slots[n].fileSize - size, v'))
  {
    hide Bytes, Wrote, CutTo, Zeros;
  }

  /** So does growing by zeros, where there were zeros before. */
  lemma GrowthKeepsZeros(v: Volume, n: int, length: int, code: int, v': Volume)
    requires ZeroBehind(v, n) && Truncated(v, n, length, code, v')
    ensures ZeroBehind(v', n)
  {
    hide Bytes, BlockBytes, Wrote, CutTo, Truncated, Zeros;
    TruncatedCases(v, n, length, code, v');
    var size := v.slots[n].fileSize;
    hide ZeroBehind, Sized;
    if length > size {
      EndKeepsZeros(v, n, Zeros(length - size), v'.slots[n].fileSize - size, v');
    } else if length != 0 || size != 0 {
      CutLeavesZeros(v, n, length, v');
    }
  }

  /** With zeros behind the end, a complete write behind it, within the blocks there are, is the POSIX overwrite. */
  lemma WriteBehindEnd(v: Volume, n: int, offset: int, buff: seq<byte>, v': Volume)
    requires ZeroBehind(v, n) && Wrote(v, n, offset, buff, |buff|, v')
    requires v.slots[n].fileSize <= offset <= |BlockBytes(v, n)|
    ensures Sized(v', n) && Bytes(v', n) == Bytes(v, n) + Zeros(offset - |Bytes(v, n)|) + buff
    ensures ZeroBehind(v', n)
  {
    SizedSize(v, n);
    WroteWithin(v, n, offset, buff, |buff|, v');
    WriteIsOverwrite(v, n, offset, buff, v');
    WriteKeepsZeros(v, n, offset, buff, |buff|, v');
    hide Bytes, BlockBytes, Wrote;
    if offset == |Bytes(v, n)| {
      assert Zeros(0) == [] && Bytes(v, n)[..offset] == Bytes(v, n) && Bytes(v, n) + [] == Bytes(v, n);
    }
  }

  // ----- files there can be -----

  /** Any bytes that the disk has blocks for can be a file: on a fresh disk, the program's own operations write it. */
  method FileWith(buff: seq<byte>) returns (fs: FileSystem, n: int)
    requires buff != [] && BlocksFor(|buff|) <= MAX_BLOCKS && Footprint(BlocksFor(|buff|)) <= FreeList.Capacity()
    ensures Whole(fs) && Tidy(fs.At(fs.table.slots)) && Sized(fs.At(fs.table.slots), n)
    ensures Bytes(fs.At(fs.table.slots), n) == buff && |fs.maps[n].Data()| == BlocksFor(|buff|)
    ensures Loadable(fs.table.slots, n) && !fs.table.slots[n].isDir && fs.leaked == multiset{}
    ensures ZeroBehind(fs.At(fs.table.slots), n)
  {
    hide ZeroBehind, Sound, Tidy, Listed, TreeOf, Bytes, Sized, Wrote, OnlyFile, Footprint, Spare, FreeList.Capacity,
         Fresh, Unused, fs.disk.Valid, fs.table.Valid;
    fs := InitDisk();
    TableSize(fs);
    ListedSizes(fs.disk.img, fs.table.slots, fs.maps, fs.dirs);
    ghost var slots, v := fs.table.slots, fs.At(fs.table.slots);
    n := Create(fs);
    FirstIsFree(slots);
    ClaimedListed(v, fs.dirs, n);
    var node := InitInode(fs, n, false, true);
    ghost var v1 := fs.At(fs.table.slots);
    var w := WriteInode(fs, n, node, buff, 0);
    FilledIn(v1, fs.dirs, n, buff, w, fs.At(fs.table.slots));
  }

  lemma FirstIsFree(slots: seq<Record>)
    requires Unused(slots) && INODE_BLOCK_COUNT <= |slots|
    ensures InodeNumValid(0) && !slots[0].isAllocated
  {
  }

  lemma FilledIn(v: Volume, dirs: seq<Directory>, n: int, buff: seq<byte>, w: int, v': Volume)
    requires Wrote(v, n, 0, buff, w, v') && buff != [] && OnlyFile(v, dirs, n, v', dirs)
    requires v.maps[n] == EMPTY_MAP && v.store.live == {} && BlocksFor(|buff|) <= MAX_BLOCKS
    requires Footprint(BlocksFor(|buff|)) <= FreeList.Capacity() && v.slots[n].isAllocated && !v.slots[n].isDir
    ensures w == |buff| && Sized(v', n) && Bytes(v', n) == buff && |v'.maps[n].Data()| == BlocksFor(|buff|)
    ensures v'.leaked == v.leaked && v'.slots[n].isAllocated && !v'.slots[n].isDir && ZeroBehind(v', n)
  {
    EmptyFile(v, n);
    if Sized(v', n) {
      WriteKeepsZeros(v, n, 0, buff, w, v');
    }
    hide Bytes, BlockBytes, FreeList.Capacity;
    NoFootprint();
    hide Footprint;
    WroteSized(v, n, 0, buff, w, v');
    assert buff[..|buff|] == buff && Bytes(v', n)[0..] == Bytes(v', n);
  }

  lemma EmptyFile(v: Volume, n: int)
    requires Sized(v, n) && v.maps[n] == EMPTY_MAP
    ensures ZeroBehind(v, n) && Bytes(v, n) == []
  {
    AllBytes(v, n);
    SizedSize(v, n);
  }

  lemma NoFootprint()
    ensures Footprint(0) == 0
  {
  }

  /**
   * Writing back the very bytes that a file has somewhere before its end is a complete write, and cuts the file there.
   */
  lemma WrittenBackIsCut(v: Volume, n: int, offset: int, k: int)
    requires Sound(v) && Sized(v, n) && InodeNumValid(n) && v.slots[n].isAllocated
    requires 0 <= offset && 0 < k && offset + k < v.slots[n].fileSize
    ensures |Bytes(v, n)| == v.slots[n].fileSize
    ensures var buff := Bytes(v, n)[offset..offset + k];
      var v' := v.(slots := v.slots[n := v.slots[n].(fileSize := offset + k)]);
      && Sound(v') && Wrote(v, n, offset, buff, k, v')
      && Bytes(v', n) == Bytes(v, n)[..offset + k] != Bytes(v, n) == Overwritten(Bytes(v, n), offset, buff)
  {
    hide Sound, Flat;
    SizedSize(v, n);
    AllBytes(v, n);
    var r' := v.slots[n].(fileSize := offset + k);
    EditedSound(v, n, r');
    var v' := v.(slots := v.slots[n := r']);
    var flat := BlockBytes(v, n);
    assert Bytes(v', n) == flat[..offset + k];
    assert flat[..v.slots[n].fileSize][offset..offset + k] == flat[..offset + k][offset..];
    assert Bytes(v, n)[offset..offset + k] == flat[..offset + k][offset..];
    NothingGrown(v, n, offset, k, v');
    hide Bytes, BlockBytes, Grew, RoomToGrow, WrittenBefore;
    var buff := Bytes(v, n)[offset..offset + k];
    assert buff[..k] == buff;
    assert Bytes(v, n)[..offset] + buff + Bytes(v, n)[offset + k..] == Bytes(v, n);
    assert flat[..offset + k][..offset] == flat[..offset];
  }

  lemma NothingGrown(v: Volume, n: int, offset: int, k: int, v': Volume)
    requires Sized(v, n) && 0 <= offset && 0 < k && offset + k < v.slots[n].fileSize
    requires v'.maps == v.maps && v'.store == v.store && v'.leaked == v.leaked
    ensures Grew(v, n, BlocksOfWrite(offset, k), v')
    ensures RoomToGrow(v.store.live, |v.maps[n].Data()|, BlocksOfWrite(offset, k))
  {
    hide Footprint, Spare;
  }

  // ----- reading -----

  /** A piece of a block is the piece of the file at its place. */
  lemma PieceOfFile(img: Image, data: seq<int>, k: int, at: int, t: int)
    requires 0 <= k < |data| && InData(data[k]) && 0 <= at && 0 <= t && at + t <= BLOCK_SIZE
    ensures img[data[k]][at..at + t] == Flat(img, data)[k * BLOCK_SIZE + at..k * BLOCK_SIZE + at + t]
  {
    FlatAt(img, data, k);
    hide Flat;
    DirectoryBlocks.SliceOfSlice(Flat(img, data), k * BLOCK_SIZE, (k + 1) * BLOCK_SIZE, at, at + t);
  }

  lemma CopiedInto(done: seq<byte>, n: nat, piece: seq<byte>)
    requires |piece| <= n
    ensures Splice(done + Zeros(n), |done|, piece) == done + piece + Zeros(n - |piece|)
  {
  }

  /** The bytes of the file from the offset on have been read into the first w of the buffer. */
  ghost predicate ReadUpTo(flat: seq<byte>, offset: int, w: int, nbytes: int, buff: seq<byte>) {
    && 0 <= offset && 0 <= w <= nbytes && offset + w <= |flat|
    && buff == flat[offset..offset + w] + Zeros(nbytes - w)
  }

  lemma ReadMore(flat: seq<byte>, offset: int, w: int, nbytes: int, buff: seq<byte>, t: int)
    requires ReadUpTo(flat, offset, w, nbytes, buff) && 0 <= t && w + t <= nbytes && offset + w + t <= |flat|
    ensures |buff| == nbytes && ReadUpTo(flat, offset, w + t, nbytes, Splice(buff, w, flat[offset + w..offset + w + t]))
  {
    CopiedInto(flat[offset..offset + w], nbytes - w, flat[offset + w..offset + w + t]);
    assert flat[offset..offset + w + t] == flat[offset..offset + w] + flat[offset + w..offset + w + t];
  }

  /** Copies what logical block i holds of the bytes asked for behind the ones already read. */
  method ReadPiece(fs: FileSystem, n: int, i: int, b: int, buff: seq<byte>, w: int, at: int, t: int,
                   ghost slots: seq<Record>, ghost offset: int, ghost nbytes: int)
    returns (buff': seq<byte>)
    requires fs.Stored() && Sound(fs.At(slots)) && InodeNumValid(n) && |fs.maps| == INODE_BLOCK_COUNT
    requires 0 <= i < |fs.maps[n].Data()| && b == fs.maps[n].Data()[i]
    requires 0 <= at && 0 <= t && at + t <= BLOCK_SIZE && w + t <= nbytes && i * BLOCK_SIZE + at == offset + w
    requires ReadUpTo(Flat(fs.disk.img, fs.maps[n].Data()), offset, w, nbytes, buff)
    ensures ReadUpTo(Flat(fs.disk.img, fs.maps[n].Data()), offset, w + t, nbytes, buff')
  {
    hide Sound, Flat, Splice, fs.disk.Valid, fs.table.Valid;
    DataBlockAt(fs.At(slots), n, i);
    PieceOfFile(fs.disk.img, fs.maps[n].Data(), i, at, t);
    ReadMore(Flat(fs.disk.img, fs.maps[n].Data()), offset, w, nbytes, buff, t);
    var read := ReadDataBlock(fs.disk, b);
    buff' := Splice(buff, w, read.value[at..at + t]);
  }

  /** Reads n bytes from the offset, all of them inside the file. */
  method ReadBlocks(fs: FileSystem, n: int, node: Inode, nbytes: int, offset: int, buff0: seq<byte>,
                    ghost slots: seq<Record>)
    returns (bytesRead: int, buff: seq<byte>)
    requires fs.Stored() && Sound(fs.At(slots)) && InodeNumValid(n) && slots[n] == node.Rec()
    requires |fs.maps| == INODE_BLOCK_COUNT
    requires 0 <= offset && 0 < nbytes <= |buff0| && offset + nbytes <= node.blocks * BLOCK_SIZE
    requires buff0 == Zeros(|buff0|)
    ensures bytesRead == nbytes
    ensures offset + nbytes <= |Flat(fs.disk.img, fs.maps[n].Data())|
    ensures buff == Flat(fs.disk.img, fs.maps[n].Data())[offset..offset + nbytes] + Zeros(|buff0| - nbytes)
  {
    hide Sound, Maps, Searchable, Flat, ReadUpTo, PieceAt, PieceLength, WrittenBefore, CacheHit, fs.disk.Valid,
         fs.table.Valid;
    ghost var m := fs.maps[n];
    ghost var flat := Flat(fs.disk.img, m.Data());
    SlotMap(fs.At(slots), n);
    ReadBounds(offset, nbytes, node.blocks);
    ReadStarts(flat, offset, |buff0|);
    var startBlock, startOffset := offset / BLOCK_SIZE, offset % BLOCK_SIZE;
    var endBlock, endOffset := (offset + nbytes - 1) / BLOCK_SIZE, (offset + nbytes - 1) % BLOCK_SIZE;
    var blocksToRead := endBlock - startBlock + 1;
    bytesRead, buff := 0, buff0;
    var prev := 0;
    if blocksToRead == 1 {
      Scannable(fs.disk.img, node.Rec(), m, startBlock);
      Pieces(offset, nbytes, startBlock);
      PieceIs(offset, nbytes, startBlock);
      var b, _ := GetDatablockFromInode(fs.disk, node, startBlock, prev, m);
      buff := ReadPiece(fs, n, startBlock, b, buff, 0, startOffset, nbytes, slots, offset, |buff0|);
      ReadEnds(flat, offset, nbytes, |buff0|, buff);
      return nbytes, buff;
    }
    var i := 0;
    while i < blocksToRead
      invariant 0 <= i <= blocksToRead && CacheOk(m, startBlock + i, prev)
      invariant bytesRead == if i == blocksToRead then nbytes else WrittenBefore(offset, startBlock + i)
      invariant ReadUpTo(flat, offset, bytesRead, |buff0|, buff)
    {
      Scannable(fs.disk.img, node.Rec(), m, startBlock + i);
      Pieces(offset, nbytes, startBlock + i);
      PieceIs(offset, nbytes, startBlock + i);
      var b, next := GetDatablockFromInode(fs.disk, node, startBlock + i, prev, m);
      var at, t := 0, BLOCK_SIZE;
      if i == 0 {
        at, t := startOffset, BLOCK_SIZE - startOffset;
      } else if i == blocksToRead - 1 {
        t := endOffset + 1;
      }
      buff := ReadPiece(fs, n, startBlock + i, b, buff, bytesRead, at, t, slots, offset, |buff0|);
      bytesRead := bytesRead + t;
      prev, i := next, i + 1;
    }
    ReadEnds(flat, offset, nbytes, |buff0|, buff);
  }

  lemma ReadBounds(offset: int, nbytes: int, blocks: int)
    requires 0 <= offset && 0 < nbytes && offset + nbytes <= blocks * BLOCK_SIZE
    ensures (offset + nbytes - 1) / BLOCK_SIZE < blocks && offset / BLOCK_SIZE <= (offset + nbytes - 1) / BLOCK_SIZE
    ensures WrittenBefore(offset, offset / BLOCK_SIZE) == 0
    ensures offset / BLOCK_SIZE < (offset + nbytes - 1) / BLOCK_SIZE ==> offset % BLOCK_SIZE + nbytes > BLOCK_SIZE
    ensures offset / BLOCK_SIZE == (offset + nbytes - 1) / BLOCK_SIZE ==> offset % BLOCK_SIZE + nbytes <= BLOCK_SIZE
  {
  }

  lemma ReadStarts(flat: seq<byte>, offset: int, n: nat)
    requires 0 <= offset <= |flat|
    ensures ReadUpTo(flat, offset, 0, n, Zeros(n))
  {
    assert flat[offset..offset] + Zeros(n) == Zeros(n);
  }

  lemma ReadEnds(flat: seq<byte>, offset: int, nbytes: int, n: int, buff: seq<byte>)
    requires ReadUpTo(flat, offset, nbytes, n, buff)
    ensures 0 <= offset && offset + nbytes <= |flat| && buff == flat[offset..offset + nbytes] + Zeros(n - nbytes)
  {
  }

  /** What a read of nbytes at the offset returns: the bytes that the file has there, and how many they are. */
  ghost predicate ReadBack(v: Volume, n: int, nbytes: int, offset: int, code: int, buff: seq<byte>) {
    && Sized(v, n)
    && var bytes := Bytes(v, n);
    if bytes == [] then code == 0 && buff == Zeros(|buff|)
    else if offset >= |bytes| then code == -EOVERFLOW && buff == Zeros(|buff|)
    else
      var end := if offset + nbytes < |bytes| then offset + nbytes else |bytes|;
      0 <= offset <= end && 0 <= code <= |buff| && code == end - offset
      && buff == bytes[offset..end] + Zeros(|buff| - code)
  }

  /** Reads from a loaded inode, and writes it back (its access time is not modelled). */
  method ReadInode(fs: FileSystem, n: int, node: Inode, nbytes: nat, offset: int) returns (code: int, buff: seq<byte>)
    requires Whole(fs) && InodeNumValid(n) && node.Rec() == fs.table.slots[n] && 0 < nbytes && 0 <= offset
    modifies fs.table, fs.table.rows
    ensures Whole(fs) && fs.table.slots == old(fs.table.slots)
    ensures |buff| == nbytes && ReadBack(fs.At(fs.table.slots), n, nbytes, offset, code, buff)
  {
    hide Sound, Listed, Flat, Bytes, Sized, fs.disk.Valid, fs.table.Valid;
    ghost var slots, v := fs.table.slots, fs.At(fs.table.slots);
    TableSize(fs);
    buff := Zeros(nbytes);
    SizedAt(v, fs.dirs, n);
    SizedSize(v, n);
    if node.fileSize == 0 {
      return 0, buff;
    }
    if offset >= node.fileSize {
      return -EOVERFLOW, buff;
    }
    var count := if offset + nbytes > node.fileSize then node.fileSize - offset else nbytes;
    code, buff := ReadBlocks(fs, n, node, count, offset, buff, slots);
    ReadIsSlice(v, n, offset, count, buff);
    var _ := Save(fs, n, node);
    assert slots[n := slots[n]] == slots;
  }

  /** Reads at most nbytes bytes of the file at the path. */
  method Read(fs: FileSystem, path: Path, nbytes: nat, offset: int) returns (code: int, buff: seq<byte>)
    requires Whole(fs) && path != []
    modifies fs.table, fs.table.rows
    ensures Whole(fs) && fs.table.slots == old(fs.table.slots)
    ensures |buff| == nbytes
    ensures var n := Resolve(NamesOf(fs), fs.root, path);
      if nbytes == 0 then code == 0
      else if offset < 0 then code == -EINVAL
      else if !Loadable(fs.table.slots, n) then code == -ENOENT && buff == Zeros(nbytes)
      else ReadBack(fs.At(fs.table.slots), n, nbytes, offset, code, buff)
  {
    hide Sound, Listed, TreeOf, Resolve, ReadBack, fs.disk.Valid;
    ListedSizes(fs.disk.img, fs.table.slots, fs.maps, fs.dirs);
    TableSize(fs);
    buff := Zeros(nbytes);
    if nbytes == 0 {
      return 0, buff;
    }
    if offset < 0 {
      return -EINVAL, buff;
    }
    var inum := GetInodeOfFile(fs, path);
    if inum == -1 {
      return -ENOENT, buff;
    }
    var node := fs.table.LoadINode(inum);
    if node == null {
      return -ENOENT, buff;
    }
    code, buff := ReadInode(fs, inum, node, nbytes, offset);
  }

  /** What was written can be read back. */
  lemma ReadAfterWrite(v: Volume, n: int, offset: int, buff: seq<byte>, v1: Volume, code: int, out: seq<byte>)
    requires Wrote(v, n, offset, buff, |buff|, v1) && Sized(v1, n) && buff != []
    requires ReadBack(v1, n, |buff|, offset, code, out)
    ensures code == |buff| && out[..code] == buff
  {
    hide Bytes, BlockBytes, RoomToGrow, Grew, Reached, WrittenBefore;
    assert buff[..|buff|] == buff && Bytes(v1, n)[offset..offset + |buff|] == Bytes(v1, n)[offset..];
  }

  lemma ReadIsSlice(v: Volume, n: int, offset: int, nbytes: int, buff: seq<byte>)
    requires Sized(v, n) && 0 <= offset && 0 <= nbytes && offset + nbytes <= v.slots[n].fileSize && nbytes <= |buff|
    requires buff == Flat(v.store.img, v.maps[n].Data())[offset..offset + nbytes] + Zeros(|buff| - nbytes)
    ensures buff == Bytes(v, n)[offset..offset + nbytes] + Zeros(|buff| - nbytes)
  {
    hide Flat;
    var f := Flat(v.store.img, v.maps[n].Data());
    assert f[..v.slots[n].fileSize][offset..offset + nbytes] == f[offset..offset + nbytes];
  }

  // ----- truncating -----

  /** Which files can be cut: those whose index slots are in the shape that removing the rest relies on. */
  ghost predicate CutAllowed(v: Volume, n: int, length: int) {
    && Sized(v, n)
    && (0 <= length <= v.slots[n].fileSize && BlocksFor(length) < v.slots[n].blocks ==>
          && Prunable(v.store, v.slots[n], v.maps[n], BlocksFor(length))
          && (BlocksFor(length) < DIRECT + N + N * N || Exact(v.maps[n], BlocksFor(length))))
  }

  /** Every well-formed file that ends within the double indirect region can be cut anywhere. */
  lemma EarlyFilesCanBeCut(v: Volume, dirs: seq<Directory>, n: int, length: int)
    requires Sound(v) && Listed(v.store.img, v.slots, v.maps, dirs) && CleanAt(v, n)
    requires v.slots[n].isAllocated && v.slots[n].blocks <= DIRECT + N + N * N
    ensures CutAllowed(v, n, length)
  {
    hide Sound, Listed, Clean, Exclusive;
    SizedAt(v, dirs, n);
    SlotMap(v, n);
  }

  /** The file is cut to the length, in no more blocks than that takes, and zeros fill the last one. */
  ghost predicate CutTo(v: Volume, n: int, length: int, v': Volume) {
    && Sized(v, n) && Sized(v', n) && 0 <= length <= |Bytes(v, n)|
    && v'.slots[n].fileSize == length && |v'.maps[n].Data()| == BlocksFor(length)
    && Bytes(v', n) == Bytes(v, n)[..length]
    && Flat(v'.store.img, v'.maps[n].Data()) == Bytes(v, n)[..length] + Zeros(BlocksFor(length) * BLOCK_SIZE - length)
  }

  /** The blocks past the new end are gone from a loaded inode. */
  ghost predicate Cropped(v: Volume, n: int, k: int, v1: Volume) {
    && Sound(v1) && InodeNumValid(n) && |v.slots| == |v1.slots| && n < |v.slots|
    && |v.maps| == |v1.maps| == INODE_BLOCK_COUNT
    && v1.slots == v.slots[n := v1.slots[n]] && v1.maps == v.maps[n := v1.maps[n]]
    && OnlyAddresses(v.slots[n], v1.slots[n]) && OtherDataSame(v, n, v1.store.img)
    && 0 <= k <= |v.maps[n].Data()| && v1.maps[n].Data() == v.maps[n].Data()[..k]
    && Flat(v1.store.img, v1.maps[n].Data()) == Flat(v.store.img, v.maps[n].Data())[..k * BLOCK_SIZE]
  }

  lemma CropsNothing(v: Volume, n: int, k: int)
    requires Sound(v) && InodeNumValid(n) && k == v.slots[n].blocks
    ensures Cropped(v, n, k, v)
  {
    hide Sound, Maps, Exclusive, OtherDataSame, Flat;
    SlotMap(v, n);
    NothingMoved(v);
    AllImpliesOther(v, n, v.store.img);
    var data := v.maps[n].Data();
    assert data[..k] == data;
    assert Flat(v.store.img, data)[..k * BLOCK_SIZE] == Flat(v.store.img, data);
    assert v.slots[n := v.slots[n]] == v.slots && v.maps[n := v.maps[n]] == v.maps;
  }

  lemma CropsRest(v: Volume, n: int, k: int, lost: multiset<int>, v1: Volume)
    requires Sound(v) && Sound(v1) && CutShort(v, n, k, lost, v1) && 0 <= k <= v.slots[n].blocks
    requires OtherDataSame(v, n, v1.store.img) && DataSame(v.store.img, v1.store.img, Truncate(v.maps[n], k))
    ensures Cropped(v, n, k, v1)
  {
    hide Sound, OtherDataSame, Flat, DataSame, Maps, Truncate;
    SlotMap(v, n);
    SlotMap(v1, n);
    MapShape(v.store.img, v.slots[n], v.maps[n]);
    TruncateData(v.maps[n], k);
    DataSameFlat(v.store.img, v1.store.img, Truncate(v.maps[n], k));
    FlatSplit(v.store.img, v.maps[n].Data(), k);
  }

  /** What the cut leaks. */
  ghost function LostByCut(v: Volume, n: int, length: int): multiset<int>
    requires 0 <= n < |v.slots| && n < |v.maps| && 0 <= length
  {
    if BlocksFor(length) < v.slots[n].blocks && BlocksFor(length) < DIRECT + N + N * N
    then Lost(v.slots[n], v.maps[n], BlocksFor(length)) else multiset{}
  }

  /** Whether the cut leaves no stale addresses. */
  ghost predicate CutsCleanly(v: Volume, n: int, length: int)
    requires 0 <= n < |v.slots| && n < |v.maps| && 0 <= length
  {
    BlocksFor(length) < v.slots[n].blocks ==>
      Exact(v.maps[n], BlocksFor(length)) && LeavesZeros(v.maps[n], BlocksFor(length))
  }

  method Crop(fs: FileSystem, n: int, node: Inode, length: int, ghost slots: seq<Record>)
    requires fs.Stored() && Sound(fs.At(slots)) && InodeNumValid(n) && slots[n] == node.Rec() && node.isAllocated
    requires 0 <= length <= node.fileSize && CutAllowed(fs.At(slots), n, length)
    modifies fs`maps, fs`leaked, fs.disk, fs.disk.mem, node
    ensures fs.Stored() && Cropped(old(fs.At(slots)), n, BlocksFor(length), fs.At(slots[n := node.Rec()]))
    ensures fs.leaked == old(fs.leaked) + LostByCut(old(fs.At(slots)), n, length)
    ensures old(Tidy(fs.At(slots))) && CutsCleanly(old(fs.At(slots)), n, length) ==> Tidy(fs.At(slots[n := node.Rec()]))
    ensures CutsCleanly(old(fs.At(slots)), n, length) ==> Leads(old(fs.At(slots)), fs.At(slots[n := node.Rec()]))
  {
    hide Leads, Moved, Sound, Tidy, OtherDataSame, DataSame, Flat, Truncate, Prunable, Exact, LeavesZeros, Lost,
         Cropped, CutShort, Maps, Exclusive, Clean, OnlyAddresses, fs.disk.Valid, fs.table.Valid;
    ghost var v := fs.At(slots);
    SlotMap(v, n);
    assert slots[n := node.Rec()] == slots;
    LeadsNowhere(v);
    var k := if length == 0 then 0 else (length - 1) / BLOCK_SIZE + 1;
    if node.blocks > k {
      var ok := Release(fs, n, node, k, slots);
      ghost var lost := LostByCut(v, n, length);
      CropsRest(v, n, k, lost, fs.At(slots[n := node.Rec()]));
      CutLeaks(v, n, k, lost, fs.At(slots[n := node.Rec()]));
    } else {
      CropsNothing(v, n, k);
      assert v.leaked + multiset{} == v.leaked;
    }
  }

  lemma CutLeaks(v: Volume, n: int, k: int, lost: multiset<int>, v1: Volume)
    requires CutShort(v, n, k, lost, v1)
    ensures v1.leaked == v.leaked + lost
  {
  }

  lemma CroppedFacts(v: Volume, dirs: seq<Directory>, n: int, length: int, v1: Volume)
    requires Sized(v, n) && InodeNumValid(n) && 0 <= length <= v.slots[n].fileSize
    requires Cropped(v, n, BlocksFor(length), v1)
    ensures Sound(v1) && n < |v1.slots| && |v1.maps| == INODE_BLOCK_COUNT && |v1.maps[n].Data()| == BlocksFor(length)
    ensures Flat(v1.store.img, v1.maps[n].Data())[..length] == Bytes(v, n)[..length]
    ensures v1.slots[n].fileSize == v.slots[n].fileSize && v1.slots[n].isAllocated == v.slots[n].isAllocated
  {
    hide Sound, OtherDataSame;
    var k, f := BlocksFor(length), Flat(v.store.img, v.maps[n].Data());
    hide Flat;
    assert f[..k * BLOCK_SIZE][..length] == f[..length] == f[..v.slots[n].fileSize][..length];
  }

  /** Zeroes the rest of the last block that a cut leaves. */
  method ZeroSlack(fs: FileSystem, n: int, node: Inode, length: int, ghost slots: seq<Record>) returns (ok: bool)
    requires fs.Stored() && Sound(fs.At(slots)) && InodeNumValid(n) && slots[n] == node.Rec()
    requires |fs.maps| == INODE_BLOCK_COUNT
    requires 0 < length && |fs.maps[n].Data()| == BlocksFor(length)
    modifies fs.disk`img, fs.disk.mem
    ensures ok && fs.Stored() && Sound(fs.At(slots)) && OtherDataSame(old(fs.At(slots)), n, fs.disk.img)
    ensures Flat(fs.disk.img, fs.maps[n].Data())
      == Flat(old(fs.disk.img), fs.maps[n].Data())[..length] + Zeros(BlocksFor(length) * BLOCK_SIZE - length)
    ensures old(Tidy(fs.At(slots))) ==> Tidy(fs.At(slots))
    ensures Leads(old(fs.At(slots)), fs.At(slots))
  {
    hide Leads, Moved, Sound, Tidy, Maps, Searchable, OtherDataSame, Flat, Splice, FreeList.NoDuplicates, fs.disk.Valid,
         fs.table.Valid;
    ghost var v, m := fs.At(slots), fs.maps[n];
    SlotMap(v, n);
    NothingMoved(v);
    LeadsNowhere(v);
    AllImpliesOther(v, n, fs.disk.img);
    var i := (length - 1) / BLOCK_SIZE;
    Scannable(fs.disk.img, node.Rec(), m, i);
    DataBlockAt(v, n, i);
    DataDistinct(v.store.live, m);
    TailZeroed(fs.disk.img, m.Data(), length);
    var b, _ := GetDatablockFromInode(fs.disk, node, i, 0, m);
    if b <= 0 {
      return false;
    }
    var block := ReadDataBlock(fs.disk, b);
    var blockOffset := (length - 1) % BLOCK_SIZE;
    if blockOffset != BLOCK_SIZE - 1 {
      var zeroed := Splice(block.value, blockOffset + 1, Zeros(BLOCK_SIZE - blockOffset - 1));
      ok := Fill(fs, n, i, b, zeroed, slots);
    } else {
      FullBlock(Flat(fs.disk.img, m.Data()), length);
      ok := true;
    }
  }

  lemma FullBlock(f: seq<byte>, length: int)
    requires |f| == length
    ensures f == f[..length] + Zeros(0)
  {
  }

  /** A file cut to nothing has no last block. */
  method ZeroRest(fs: FileSystem, n: int, node: Inode, length: int, ghost slots: seq<Record>) returns (ok: bool)
    requires fs.Stored() && Sound(fs.At(slots)) && InodeNumValid(n) && slots[n] == node.Rec()
    requires |fs.maps| == INODE_BLOCK_COUNT && 0 <= length && |fs.maps[n].Data()| == BlocksFor(length)
    modifies fs.disk`img, fs.disk.mem
    ensures ok && fs.Stored() && Sound(fs.At(slots)) && Leads(old(fs.At(slots)), fs.At(slots))
    ensures if length == 0 then fs.disk.img == old(fs.disk.img)
      else
        && OtherDataSame(old(fs.At(slots)), n, fs.disk.img)
        && Flat(fs.disk.img, fs.maps[n].Data())
          == Flat(old(fs.disk.img), fs.maps[n].Data())[..length] + Zeros(BlocksFor(length) * BLOCK_SIZE - length)
    ensures old(Tidy(fs.At(slots))) ==> Tidy(fs.At(slots))
  {
    hide Leads, Sound, Tidy, Maps, OtherDataSame, Flat, fs.disk.Valid, fs.table.Valid;
    if length == 0 {
      TableKept(fs.At(slots), n);
      LeadsNowhere(fs.At(slots));
      return true;
    }
    ok := ZeroSlack(fs, n, node, length, slots);
  }

  /** Cuts a loaded file. */
  method Shrink(fs: FileSystem, n: int, node: Inode, length: int) returns (code: int)
    requires Whole(fs) && InodeNumValid(n) && node.Rec() == fs.table.slots[n] && node.isAllocated
    requires 0 <= length <= node.fileSize && CutAllowed(fs.At(fs.table.slots), n, length)
    modifies fs`maps, fs`leaked, fs.disk, fs.disk.mem, fs.table, fs.table.rows, node
    ensures code == 0 && fs.Stored() && Sound(fs.At(fs.table.slots))
    ensures |fs.dirs| == INODE_BLOCK_COUNT <= |fs.table.slots| && NamesOf(fs) == old(NamesOf(fs))
    ensures !old(node.isDir) ==> Whole(fs)
    ensures CutTo(old(fs.At(fs.table.slots)), n, length, fs.At(fs.table.slots))
    ensures OnlyFile(old(fs.At(fs.table.slots)), old(fs.dirs), n, fs.At(fs.table.slots), fs.dirs)
    ensures 0 <= n < |old(fs.table.slots)| && n < |old(fs.maps)|
    ensures fs.leaked == old(fs.leaked) + LostByCut(old(fs.At(fs.table.slots)), n, length)
    ensures old(Tidy(fs.At(fs.table.slots))) && CutsCleanly(old(fs.At(fs.table.slots)), n, length) ==>
      Tidy(fs.At(fs.table.slots))
    ensures CutsCleanly(old(fs.At(fs.table.slots)), n, length) ==>
      Leads(old(fs.At(fs.table.slots)), fs.At(fs.table.slots))
  {
    hide Leads, Sound, Tidy, Listed, TreeOf, OtherDataSame, Flat, Bytes, Sized, Cropped, CutAllowed, CutsCleanly,
         LostByCut, CutTo, OnlyFile, Maps, OnlyAddresses, SameAddresses, fs.disk.Valid, fs.table.Valid;
    ghost var slots, v, dirs := fs.table.slots, fs.At(fs.table.slots), fs.dirs;
    TableSize(fs);
    SizedAt(v, dirs, n);
    Crop(fs, n, node, length, slots);
    ghost var slots1, v1 := slots[n := node.Rec()], fs.At(slots[n := node.Rec()]);
    CroppedFacts(v, dirs, n, length, v1);
    var ok := ZeroRest(fs, n, node, length, slots1);
    if !ok {
      return -1;
    }
    node.fileSize := length;
    ghost var v2 := fs.At(slots1);
    ShrinkFinished(v, dirs, n, length, v1, v2, node.Rec());
    assert slots1[n := node.Rec()] == slots[n := node.Rec()];
    var _ := Save(fs, n, node);
    code := 0;
  }

  lemma TableKept(v: Volume, n: int)
    requires Sound(v) && InodeNumValid(n)
    ensures |v.slots| == INODE_BLOCK_COUNT * INODES_PER_BLOCK && |v.maps| == INODE_BLOCK_COUNT
  {
    hide Maps;
  }

  lemma ShrinkLeads(v: Volume, n: int, v1: Volume, v2: Volume, r': Record)
    requires Leads(v, v1) && Leads(v1, v2) && Sound(v2) && InodeNumValid(n) && n < |v2.slots|
    requires v2.slots[n].isAllocated && r' == v2.slots[n].(fileSize := r'.fileSize)
    ensures Leads(v, v2.(slots := v2.slots[n := r']))
  {
    hide Leads, Moved, Sound;
    LeadsFar(v, v1, v2);
    EditLeads(v2, n, r');
    LeadsFar(v, v2, v2.(slots := v2.slots[n := r']));
  }

  lemma ShrinkFinished(v: Volume, dirs: seq<Directory>, n: int, length: int, v1: Volume, v2: Volume, r': Record)
    requires Sound(v) && Listed(v.store.img, v.slots, v.maps, dirs) && InodeNumValid(n) && Sized(v, n)
    requires v.slots[n].isAllocated && 0 <= length <= v.slots[n].fileSize
    requires Cropped(v, n, BlocksFor(length), v1) && Sound(v2) && v2 == v1.(store := v2.store)
    requires n < |v1.slots| && n < |v1.maps| && r' == v1.slots[n].(fileSize := length)
    requires if length == 0 then v2 == v1
      else
        && OtherDataSame(v1, n, v2.store.img)
        && Flat(v2.store.img, v1.maps[n].Data())
          == Flat(v1.store.img, v1.maps[n].Data())[..length] + Zeros(BlocksFor(length) * BLOCK_SIZE - length)
    ensures var v' := v2.(slots := v2.slots[n := r']);
      && Sound(v') && (Tidy(v2) ==> Tidy(v')) && |dirs| == INODE_BLOCK_COUNT <= |v'.slots|
      && (!v.slots[n].isDir ==> Listed(v'.store.img, v'.slots, v'.maps, dirs))
      && CutTo(v, n, length, v') && OnlyFile(v, dirs, n, v', dirs)
      && TreeOf(v'.slots, dirs) == TreeOf(v.slots, dirs) && v'.slots == v.slots[n := r']
      && (Leads(v, v1) && Leads(v1, v2) ==> Leads(v, v'))
  {
    hide Leads, Sound, Listed, TreeOf, Tidy, OtherDataSame, Bytes, Flat, Sized, OnlyAddresses, OnlyFile, CutTo;
    CroppedFacts(v, dirs, n, length, v1);
    AllocatedKept(v.slots[n], v1.slots[n]);
    if length > 0 {
      OtherSameTwice(v, v1, n, v2.store.img);
    }
    SlotMap(v2, n);
    EditedSound(v2, n, r');
    if Leads(v, v1) && Leads(v1, v2) {
      ShrinkLeads(v, n, v1, v2, r');
    }
    SizedAt(v, dirs, n);
    assert v2.slots[n := r'] == v.slots[n := r'];
    FileTree(v, dirs, n, r');
    if !v.slots[n].isDir {
      FileListed(v, dirs, n, v2.store.img, r', v2.maps[n]);
    }
    CutCompared(v, dirs, n, length, v1, v2, r');
  }

  lemma CutCompared(v: Volume, dirs: seq<Directory>, n: int, length: int, v1: Volume, v2: Volume, r': Record)
    requires InodeNumValid(n) && Sized(v, n) && 0 <= length <= v.slots[n].fileSize
    requires Cropped(v, n, BlocksFor(length), v1) && v2 == v1.(store := v2.store) && OtherDataSame(v, n, v2.store.img)
    requires n < |v1.slots| && n < |v1.maps| && r' == v1.slots[n].(fileSize := length)
    requires Flat(v1.store.img, v1.maps[n].Data())[..length] == Bytes(v, n)[..length]
    requires length == 0 ==> v2 == v1
    requires length > 0 ==>
      Flat(v2.store.img, v1.maps[n].Data())
        == Flat(v1.store.img, v1.maps[n].Data())[..length] + Zeros(BlocksFor(length) * BLOCK_SIZE - length)
    ensures var v' := v2.(slots := v2.slots[n := r']); CutTo(v, n, length, v') && OnlyFile(v, dirs, n, v', dirs)
  {
    hide OtherDataSame, Flat, Sound;
    var f := Flat(v2.store.img, v1.maps[n].Data());
    assert f[..length] == Bytes(v, n)[..length];
    assert f == Bytes(v, n)[..length] + Zeros(BlocksFor(length) * BLOCK_SIZE - length);
  }

  /** Growing a file appends zeros. */
  lemma GrownByZeros(v: Volume, n: int, length: int, w: int, v': Volume)
    requires Sized(v, n) && v.slots[n].fileSize < length
    requires Wrote(v, n, v.slots[n].fileSize, Zeros(length - v.slots[n].fileSize), w, v')
    ensures Sized(v', n)
    ensures w == length - v.slots[n].fileSize ==> Bytes(v', n) == Bytes(v, n) + Zeros(length - v.slots[n].fileSize)
  {
    SizedSize(v, n);
    AllBytes(v, n);
    WroteWithin(v, n, v.slots[n].fileSize, Zeros(length - v.slots[n].fileSize), w, v');
    hide Sized, Bytes, BlockBytes, Wrote;
    var before, zeros := Bytes(v, n), Zeros(length - v.slots[n].fileSize);
    assert before[..|before|] == before && zeros[..|zeros|] == zeros;
  }

  /** A cut is asked only where removing the rest is sound. */
  ghost predicate TruncateAllowed(v: Volume, n: int, length: int) {
    Loadable(v.slots, n) ==> CutAllowed(v, n, length)
  }

  /** The outcome for a writable file: cut, left alone when it is and stays empty, or grown by zeros. */
  ghost predicate Truncated(v: Volume, n: int, length: int, code: int, v': Volume)
    requires Sized(v, n)
  {
    var size := v.slots[n].fileSize;
    if length == 0 && size == 0 then code == 0 && v' == v
    else if length <= size then code == 0 && 0 <= length && CutTo(v, n, length, v')
    else
      && Sized(v', n)
      && Wrote(v, n, size, Zeros(length - size), v'.slots[n].fileSize - size, v')
      && code == (if v'.slots[n].fileSize == length then 0 else -1)
      && (code == 0 ==> Bytes(v', n) == Bytes(v, n) + Zeros(length - size))
  }

  lemma NotMoved(v: Volume, dirs: seq<Directory>, n: int)
    requires InodeNumValid(n) && n < |v.slots| && |v.maps| == INODE_BLOCK_COUNT
    ensures OnlyFile(v, dirs, n, v, dirs)
  {
    NothingMoved(v);
    AllImpliesOther(v, n, v.store.img);
    hide OtherDataSame;
    assert v.slots[n := v.slots[n]] == v.slots && v.maps[n := v.maps[n]] == v.maps;
  }

  /** Writes zeros behind the end of the file. */
  method GrowByZeros(fs: FileSystem, path: Path, ghost n: int, length: int, size: int) returns (code: int)
    requires Whole(fs) && path != [] && n == Resolve(NamesOf(fs), fs.root, path) && Loadable(fs.table.slots, n)
    requires Sized(fs.At(fs.table.slots), n) && size == fs.table.slots[n].fileSize < length
    modifies fs`maps, fs`leaked, fs.disk, fs.disk.mem, fs.table, fs.table.rows
    ensures fs.Stored() && Sound(fs.At(fs.table.slots)) && |fs.dirs| == INODE_BLOCK_COUNT <= |fs.table.slots|
    ensures NamesOf(fs) == old(NamesOf(fs)) && (NoDirectory(old(fs.table.slots), n) ==> Whole(fs))
    ensures Truncated(old(fs.At(fs.table.slots)), n, length, code, fs.At(fs.table.slots))
    ensures OnlyFile(old(fs.At(fs.table.slots)), old(fs.dirs), n, fs.At(fs.table.slots), fs.dirs)
    ensures NoDirectory(old(fs.table.slots), n) ==> code == 0 && old(Healthy(fs)) ==> Healthy(fs)
    ensures code == 0 ==> Leads(old(fs.At(fs.table.slots)), fs.At(fs.table.slots))
  {
    hide Leads, Sound, Tidy, Listed, TreeOf, Resolve, Wrote, OnlyFile, CutTo, Bytes, Sized, Proper,
         Namespaces.TreeShape, OneLinkEach, Used, fs.disk.Valid;
    ghost var v := fs.At(fs.table.slots);
    ListedSizes(fs.disk.img, fs.table.slots, fs.maps, fs.dirs);
    SizedSize(v, n);
    var written := Write(fs, path, Zeros(length - size), size);
    GrownByZeros(v, n, length, written, fs.At(fs.table.slots));
    WroteSized(v, n, size, Zeros(length - size), written, fs.At(fs.table.slots));
    code := if written == length - size then 0 else -1;
  }

  method TruncateFile(fs: FileSystem, path: Path, length: int) returns (code: int)
    requires Whole(fs) && path != []
    requires TruncateAllowed(fs.At(fs.table.slots), Resolve(NamesOf(fs), fs.root, path), length)
    modifies fs`maps, fs`leaked, fs.disk, fs.disk.mem, fs.table, fs.table.rows
    ensures fs.Stored() && Sound(fs.At(fs.table.slots)) && |fs.dirs| == INODE_BLOCK_COUNT <= |fs.table.slots|
    ensures NamesOf(fs) == old(NamesOf(fs))
    ensures NoDirectory(old(fs.table.slots), Resolve(old(NamesOf(fs)), fs.root, path)) ==> Whole(fs)
    ensures var n := Resolve(old(NamesOf(fs)), fs.root, path);
      if !Loadable(old(fs.table.slots), n) || !old(fs.table.slots)[n].canWrite || length < 0 then
        && code == (if n == -1 then -ENOENT
                    else if !Loadable(old(fs.table.slots), n) || !old(fs.table.slots)[n].canWrite then -EACCES
                    else -EINVAL)
        && fs.At(fs.table.slots) == old(fs.At(fs.table.slots)) && fs.dirs == old(fs.dirs)
      else
        && Sized(old(fs.At(fs.table.slots)), n)
        && Truncated(old(fs.At(fs.table.slots)), n, length, code, fs.At(fs.table.slots))
        && OnlyFile(old(fs.At(fs.table.slots)), old(fs.dirs), n, fs.At(fs.table.slots), fs.dirs)
        && (0 < old(fs.table.slots)[n].fileSize && length <= old(fs.table.slots)[n].fileSize ==>
              fs.leaked == old(fs.leaked) + LostByCut(old(fs.At(fs.table.slots)), n, length))
        && (NoDirectory(old(fs.table.slots), n) ==>
              code == 0 && CutsCleanly(old(fs.At(fs.table.slots)), n, length) && old(Healthy(fs)) ==> Healthy(fs))
    ensures code == 0 && CutsCleanly(old(fs.At(fs.table.slots)), Resolve(old(NamesOf(fs)), fs.root, path), length) ==>
      Leads(old(fs.At(fs.table.slots)), fs.At(fs.table.slots))
  {
    hide Leads, Sound, Tidy, Listed, TreeOf, Resolve, Wrote, OnlyFile, CutAllowed, CutsCleanly, LostByCut, CutTo, Bytes,
         Sized, Proper, Namespaces.TreeShape, OneLinkEach, Used, fs.disk.Valid;
    ghost var v, dirs := fs.At(fs.table.slots), fs.dirs;
    ListedSizes(fs.disk.img, fs.table.slots, fs.maps, fs.dirs);
    TableSize(fs);
    var inum := GetInodeOfFile(fs, path);
    if inum == -1 {
      return -ENOENT;
    }
    var node := fs.table.LoadINode(inum);
    if node == null {
      return -EACCES;
    }
    if !node.canWrite {
      return -EACCES;
    }
    if length < 0 {
      return -EINVAL;
    }
    SizedAt(v, fs.dirs, inum);
    SizedSize(v, inum);
    CutAllowedIsFile(v, inum, length);
    if length == 0 && node.fileSize == 0 {
      NotMoved(v, fs.dirs, inum);
      LeadsNowhere(v);
      return 0;
    }
    if length > node.fileSize {
      code := GrowByZeros(fs, path, inum, length, node.fileSize);
      return;
    }
    code := Shrink(fs, inum, node, length);
    if old(Healthy(fs)) {
      FileLinks(v, dirs, inum, fs.At(fs.table.slots), fs.dirs);
    }
  }

  lemma WroteSized(v: Volume, n: int, offset: int, buff: seq<byte>, w: int, v': Volume)
    requires Wrote(v, n, offset, buff, w, v') && buff != []
    ensures n < |v'.slots| && v'.slots[n].fileSize == offset + w && 0 <= w
    ensures w == |buff| ==> Sized(v', n)
  {
    ShortOfBuffer(v, n, offset, buff, w, v');
    hide SkippedAsFound, RestKept, Bytes, BlockBytes, RoomToGrow, Reached, WrittenBefore, Footprint, Spare;
  }

  lemma CutAllowedIsFile(v: Volume, n: int, length: int)
    requires CutAllowed(v, n, length)
    ensures Sized(v, n)
  {
  }
}
