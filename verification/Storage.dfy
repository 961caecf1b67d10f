/** The file system's state, and the block operations on one inode seen against the whole volume. */
module Storage {
  import opened Geometry
  import opened LayerZero
  import opened DataBlocks
  import opened Inodes
  import opened InodeTable
  import opened BlockMaps
  import opened Append
  import opened Removal
  import opened RangeRemoval
  import opened Directories
  import opened Ownership

  class FileSystem {
    const disk: Disk
    const table: Table
    var root: int                    // ROOT_DIR_INODE_NUM

    ghost var maps: seq<BlockMap>    // the blocks of every inode
    ghost var leaked: multiset<int>  // blocks in use that no inode leads to
    ghost var dirs: seq<Directory>   // the entries of every directory

    /** The volume, with the given inode slots: the table's, or the table's with a loaded inode put in its place. */
    ghost function At(slots: seq<Record>): Volume
      reads this, disk
    {
      Volume(disk.Now(), slots, maps, leaked)
    }

    ghost predicate Stored()
      reads this, disk, disk.mem, table, table.rows
    {
      disk.Valid() && table.Valid()
    }

    constructor ()
      ensures Stored() && fresh(disk) && fresh(disk.mem) && fresh(table) && fresh(table.rows)
      ensures disk.live == {} && leaked == multiset{} && root == 0
      ensures forall n :: 0 <= n < |table.slots| ==> table.slots[n] == BlankRecord()
      ensures maps == seq(INODE_BLOCK_COUNT, _ => EMPTY_MAP) && dirs == seq(INODE_BLOCK_COUNT, _ => [])
    {
      disk := new Disk();
      table := new Table();
      root := 0;
      maps := seq(INODE_BLOCK_COUNT, _ => EMPTY_MAP);
      leaked := multiset{};
      dirs := seq(INODE_BLOCK_COUNT, _ => []);
    }
  }

  /** The data blocks of m hold what they held. */
  ghost predicate DataSame(img: Image, img': Image, m: BlockMap) {
    forall j :: 0 <= j < |m.Data()| && InData(m.Data()[j]) ==> img'[m.Data()[j]] == img[m.Data()[j]]
  }

  /** So do the data blocks of every inode. */
  ghost predicate AllDataSame(v: Volume, img': Image) {
    forall k :: InodeNumValid(k) && k < |v.maps| ==> DataSame(v.store.img, img', v.maps[k])
  }

  /** So do the data blocks of every other inode. */
  ghost predicate OtherDataSame(v: Volume, n: int, img': Image) {
    forall k :: InodeNumValid(k) && k < |v.maps| && k != n ==> DataSame(v.store.img, img', v.maps[k])
  }

  /** The inodes that are not touched have their records, their blocks and their bytes. */
  ghost predicate Kept(v: Volume, touched: set<int>, v': Volume) {
    && |v.maps| == |v'.maps| == INODE_BLOCK_COUNT && INODE_BLOCK_COUNT <= |v.slots| == |v'.slots|
    && forall k :: InodeNumValid(k) && k !in touched ==>
        v'.slots[k] == v.slots[k] && v'.maps[k] == v.maps[k] && DataSame(v.store.img, v'.store.img, v.maps[k])
  }

  lemma KeptOthers(v: Volume, n: int, v': Volume)
    requires InodeNumValid(n) && |v.maps| == |v'.maps| == INODE_BLOCK_COUNT
    requires INODE_BLOCK_COUNT <= |v.slots| == |v'.slots|
    requires v'.slots == v.slots[n := v'.slots[n]] && v'.maps == v.maps[n := v'.maps[n]]
    requires OtherDataSame(v, n, v'.store.img)
    ensures Kept(v, {n}, v')
  {
    hide DataSame;
  }

  lemma KeptAll(v: Volume, v': Volume)
    requires |v.maps| == INODE_BLOCK_COUNT <= |v.slots|
    requires v'.slots == v.slots && v'.maps == v.maps && AllDataSame(v, v'.store.img)
    ensures Kept(v, {}, v')
  {
    hide DataSame;
  }

  lemma KeptTwice(v: Volume, a: set<int>, v1: Volume, b: set<int>, v2: Volume)
    requires Kept(v, a, v1) && Kept(v1, b, v2)
    ensures Kept(v, a + b, v2)
  {
    forall k | InodeNumValid(k) && k !in a + b
      ensures DataSame(v.store.img, v2.store.img, v.maps[k])
    {
      assert DataSame(v.store.img, v1.store.img, v.maps[k]) && DataSame(v1.store.img, v2.store.img, v1.maps[k]);
    }
  }

  lemma OthersSame(v: Volume, n: int, s': Store)
    requires Sound(v) && InodeNumValid(n) && Elsewhere(v.store, v.maps[n], s')
    ensures OtherDataSame(v, n, s'.img)
  {
    hide Sound, Elsewhere, Owned;
    forall k | InodeNumValid(k) && k < |v.maps| && k != n
      ensures DataSame(v.store.img, s'.img, v.maps[k])
    {
      OtherInode(v, n, k, s');
      forall j | 0 <= j < |v.maps[k].Data()|
        ensures v.maps[k].Data()[j] in Owned(v.maps[k])
      {
        IndexIsOwned(v.maps[k], v.maps[k].Data()[j]);
      }
    }
  }

  // ----- allocating -----

  ghost predicate Allocated(v: Volume, b: int, v': Volume) {
    && Taken(v.store, b, v'.store) && v' == Volume(v'.store, v.slots, v.maps, v.leaked + multiset{b})
  }

  lemma AllocatedSound(v: Volume, b: int, v': Volume)
    requires Sound(v) && Allocated(v, b, v')
    ensures Sound(v') && AllDataSame(v, v'.store.img)
    ensures Tidy(v) ==> Tidy(v')
  {
    hide Maps, Clean, Owned, TotalOwned, ZeroPast0;
    forall n | InodeNumValid(n)
      ensures Maps(v'.store.img, v.slots[n], v.maps[n])
      ensures Tidy(v) ==> Clean(v'.store.img, v.slots[n], v.maps[n])
      ensures DataSame(v.store.img, v'.store.img, v.maps[n])
    {
      SlotTidy(v, n, v'.store.img, b);
      forall j | 0 <= j < |v.maps[n].Data()|
        ensures v.maps[n].Data()[j] != b
      {
        IndexIsOwned(v.maps[n], v.maps[n].Data()[j]);
      }
    }
    assert multiset(v'.store.live) == multiset(v.store.live) + multiset{b};
    assert multiset(v.store.live) + multiset{b} == TotalOwned(v.maps) + (v.leaked + multiset{b});
  }

  method Allocate(fs: FileSystem, ghost slots: seq<Record>) returns (b: int)
    requires fs.Stored() && Sound(fs.At(slots))
    modifies fs`leaked, fs.disk, fs.disk.mem
    ensures fs.Stored() && Sound(fs.At(slots))
    ensures b == -1 <==> Spare(old(fs.disk.live)) == 0
    ensures b == -1 ==> fs.At(slots) == old(fs.At(slots))
    ensures b != -1 ==> InData(b) && Allocated(old(fs.At(slots)), b, fs.At(slots))
    ensures AllDataSame(old(fs.At(slots)), fs.disk.img)
    ensures old(Tidy(fs.At(slots))) ==> Tidy(fs.At(slots))
    ensures FreeKept(old(fs.disk.Now()), fs.disk.Now())
    ensures b != -1 ==> b !in old(fs.disk.live) && AsFound(old(fs.disk.img)[b], fs.disk.img[b])
  {
    hide FreeKept, AsFound, Sound, Tidy, ZeroPast0, Spare, AllDataSame, DataSame, fs.disk.Valid, fs.table.Valid;
    ghost var v := fs.At(slots);
    NothingTaken(fs.disk.Now());
    b := AllocateDataBlock(fs.disk);
    if b == -1 {
      NothingMoved(v);
      return;
    }
    fs.leaked := fs.leaked + multiset{b};
    AllocatedSound(v, b, fs.At(slots));
    TakenFree(v.store, b, fs.disk.Now());
  }

  lemma TakenFree(s: Store, b: int, s': Store)
    requires Taken(s, b, s')
    ensures b !in s.live
  {
  }

  lemma NothingMoved(v: Volume)
    ensures AllDataSame(v, v.store.img)
  {
  }

  // ----- appending an allocated block to a loaded inode -----

  lemma AttachReady(v: Volume, n: int, b: int)
    requires Sound(v) && InodeNumValid(n) && b in v.leaked && InData(b)
    ensures |v.maps| == INODE_BLOCK_COUNT && n < |v.slots|
    ensures Ready(v.store, v.slots[n], v.maps[n], b)
  {
    OneOwner(v, n, n);
    LeakedIsLive(v, b);
  }

  lemma UntouchedElsewhere(s: Store, m: BlockMap, s': Store)
    requires s.live <= s'.live && Untouched(s.img, s'.img, s.live, m)
    ensures Elsewhere(s, m, s')
  {
    forall x | m.InIndex(x)
      ensures x in Owned(m)
    {
      IndexIsOwned(m, x);
    }
    hide Owned;
  }

  lemma UntouchedData(live: set<int>, img: Image, img': Image, m: BlockMap)
    requires Exclusive(live, m) && Untouched(img, img', live, m)
    ensures DataSame(img, img', m)
  {
    forall j | 0 <= j < |m.Data()|
      ensures m.Data()[j] in live && !m.InIndex(m.Data()[j])
    {
      OwnedIsLive(live, m, m.Data()[j]);
      DataIsNotIndex(live, m, m.Data()[j]);
    }
    hide Exclusive;
  }

  /** The data blocks of every inode survive a change that touches no more than the index blocks of one. */
  lemma UntouchedSame(v: Volume, n: int, s': Store)
    requires Sound(v) && InodeNumValid(n) && v.store.live <= s'.live
    requires Untouched(v.store.img, s'.img, v.store.live, v.maps[n])
    ensures AllDataSame(v, s'.img) && Elsewhere(v.store, v.maps[n], s')
  {
    hide Untouched, Maps, Owned, TotalOwned, DataSame, Elsewhere;
    UntouchedElsewhere(v.store, v.maps[n], s');
    OthersSame(v, n, s');
    OneOwner(v, n, n);
    UntouchedData(v.store.live, v.store.img, s'.img, v.maps[n]);
  }

  lemma LeakedSame(v: Volume, n: int, b: int, s': Store)
    requires 0 <= n < |v.slots| && n < |v.maps| && Ready(v.store, v.slots[n], v.maps[n], b)
    requires Untouched(v.store.img, s'.img, v.store.live, v.maps[n])
    ensures s'.img[b] == v.store.img[b]
  {
    if v.maps[n].InIndex(b) {
      IndexIsOwned(v.maps[n], b);
    }
  }

  /** The block now belongs to inode n, as the last of its file. */
  ghost predicate Attached(v: Volume, n: int, b: int, v': Volume) {
    && InodeNumValid(n) && |v.maps| == |v'.maps| == INODE_BLOCK_COUNT && |v.slots| == |v'.slots| && n < |v.slots|
    && v' == Replaced(v, n, v'.store, v'.slots[n], v'.maps[n], v.leaked - multiset{b})
    && v'.maps[n].Data() == v.maps[n].Data() + [b]
    && OnlyAddresses(v.slots[n], v'.slots[n])
  }

  /** The file has the blocks it had; the index blocks that were taken in vain are nobody's. */
  ghost predicate NotAttached(v: Volume, n: int, v': Volume) {
    && InodeNumValid(n) && |v.maps| == INODE_BLOCK_COUNT && |v.slots| == |v'.slots| && n < |v.slots|
    && v' == Replaced(v, n, v'.store, v'.slots[n], v.maps[n], v'.leaked)
    && v'.leaked == v.leaked + multiset(v'.store.live - v.store.live)
    && OnlyAddresses(v.slots[n], v'.slots[n])
  }

  lemma AttachedSound(v: Volume, n: int, b: int, s': Store, r': Record, m': BlockMap)
    requires Sound(v) && InodeNumValid(n) && v.slots[n].isAllocated && b in v.leaked
    requires Appended(v.store, v.slots[n], v.maps[n], b, s', r', m')
    ensures var v' := Replaced(v, n, s', r', m', v.leaked - multiset{b});
      && Sound(v') && Attached(v, n, b, v') && AllDataSame(v, s'.img)
      && (Tidy(v) ==> Tidy(v'))
  {
    hide Maps, Clean, Owned, TotalOwned, SlotsMapped, DataSame, Untouched, AllDataSame;
    UntouchedSame(v, n, s');
    assert multiset{b} + (v.leaked - multiset{b}) == v.leaked;
    AddToBoth(multiset(s'.live), Owned(v.maps[n]) + multiset{b}, multiset(v.store.live), Owned(m'),
              v.leaked - multiset{b});
    assert multiset(s'.live) + Owned(v.maps[n]) + v.leaked
      == multiset(v.store.live) + Owned(m') + (v.leaked - multiset{b});
    ReplacedSound(v, n, s', r', m', v.leaked - multiset{b});
    TidyAt(v, n);
  }

  lemma TidyAt(v: Volume, n: int)
    requires InodeNumValid(n)
    ensures Tidy(v) ==> |v.maps| == INODE_BLOCK_COUNT <= |v.slots| && Clean(v.store.img, v.slots[n], v.maps[n])
  {
  }

  lemma NotAttachedSound(v: Volume, n: int, s': Store, r': Record)
    requires Sound(v) && InodeNumValid(n) && v.slots[n].isAllocated
    requires NotAppended(v.store, v.slots[n], v.maps[n], s', r')
    ensures var v' := Replaced(v, n, s', r', v.maps[n], v.leaked + multiset(s'.live - v.store.live));
      Sound(v') && NotAttached(v, n, v') && AllDataSame(v, s'.img)
  {
    hide Maps, Clean, Owned, TotalOwned, SlotsMapped, DataSame, Untouched, AllDataSame;
    UntouchedSame(v, n, s');
    var more := multiset(s'.live - v.store.live);
    assert multiset(s'.live) == multiset(v.store.live) + more;
    assert multiset(s'.live) + Owned(v.maps[n]) + v.leaked
      == multiset(v.store.live) + Owned(v.maps[n]) + (v.leaked + more);
    assert v.maps[n := v.maps[n]] == v.maps;
    ReplacedSound(v, n, s', r', v.maps[n], v.leaked + more);
  }

  lemma UntouchedBy(v: Volume, n: int, b: int, ok: bool, s': Store, r': Record, m': BlockMap)
    requires 0 <= n < |v.slots| && n < |v.maps| && Ready(v.store, v.slots[n], v.maps[n], b)
    requires if ok then Appended(v.store, v.slots[n], v.maps[n], b, s', r', m')
      else NotAppended(v.store, v.slots[n], v.maps[n], s', r')
    ensures s'.img[b] == v.store.img[b] && v.store.live <= s'.live
  {
    hide Ready, Remapped, Owned, Maps, Untouched;
    LeakedSame(v, n, b, s');
  }

  /** After a failed append the record as it was before maps the same blocks too. */
  lemma OldRecordSound(v: Volume, n: int, s': Store, r': Record)
    requires Sound(v) && InodeNumValid(n) && v.slots[n].isAllocated
    requires NotAppended(v.store, v.slots[n], v.maps[n], s', r')
    ensures Sound(Replaced(v, n, s', v.slots[n], v.maps[n], v.leaked + multiset(s'.live - v.store.live)))
  {
    SlotMap(v, n);
    OldRecordMaps(v.store.img, s'.img, v.slots[n], r', v.maps[n]);
    var r := v.slots[n];
    hide Maps, Clean, Sound, Untouched;
    NotAttachedSound(v, n, s', r);
  }

  lemma OldRecordMaps(img: Image, img': Image, r: Record, r': Record, m: BlockMap)
    requires Maps(img, r, m) && Maps(img', r', m)
    ensures Maps(img', r, m)
  {
    hide Pack;
  }

  /** A failed append has leaked every block that was spare, or none if the file had its full length. */
  ghost predicate AllSpareLeaked(v: Volume, n: int, v': Volume) {
    && 0 <= n < |v.maps|
    && (|v.maps[n].Data()| < MAX_BLOCKS ==>
          Spare(v'.store.live) == 0 && |v'.leaked| == |v.leaked| + Spare(v.store.live))
    && (|v.maps[n].Data()| >= MAX_BLOCKS ==> v'.leaked == v.leaked)
  }

  lemma SpareLeaks(v: Volume, n: int, s': Store, r': Record)
    requires 0 <= n < |v.maps| && n < |v.slots| && v.store.live <= s'.live
    requires UsedUp(v.store, v.slots[n], v.maps[n], s', r')
    ensures AllSpareLeaked(v, n, Volume(s', v.slots, v.maps, v.leaked + multiset(s'.live - v.store.live)))
  {
    var more := s'.live - v.store.live;
    assert s'.live == v.store.live + more;
    assert |multiset(more)| == |more|;
    if |v.maps[n].Data()| >= MAX_BLOCKS {
      assert v.leaked + multiset(more) == v.leaked;
    }
  }

  method Attach(fs: FileSystem, n: int, node: Inode, b: int, ghost slots: seq<Record>) returns (ok: bool)
    requires fs.Stored() && Sound(fs.At(slots)) && InodeNumValid(n) && slots[n] == node.Rec() && node.isAllocated
    requires b in fs.leaked && InData(b)
    modifies fs`maps, fs`leaked, fs.disk, fs.disk.mem, node
    ensures fs.Stored() && Sound(fs.At(slots[n := node.Rec()]))
    ensures ok <==>
      |old(fs.maps)[n].Data()| < MAX_BLOCKS && IndexBlocksFor(|old(fs.maps)[n].Data()|) <= Spare(old(fs.disk.live))
    ensures ok ==> Attached(old(fs.At(slots)), n, b, fs.At(slots[n := node.Rec()]))
    ensures !ok ==> NotAttached(old(fs.At(slots)), n, fs.At(slots[n := node.Rec()]))
    ensures AllDataSame(old(fs.At(slots)), fs.disk.img) && fs.disk.img[b] == old(fs.disk.img)[b]
    ensures old(fs.disk.live) <= fs.disk.live
    ensures ok ==> Appended(old(fs.disk.Now()), slots[n], old(fs.maps)[n], b, fs.disk.Now(), node.Rec(), fs.maps[n])
    ensures ok ==> Spare(fs.disk.live) == Spare(old(fs.disk.live)) - IndexBlocksFor(|old(fs.maps)[n].Data()|)
    ensures !ok ==> AllSpareLeaked(old(fs.At(slots)), n, fs.At(slots))
    ensures !ok ==> Sound(fs.At(slots))
    ensures ok && old(Tidy(fs.At(slots))) ==> Tidy(fs.At(slots[n := node.Rec()]))
    ensures FreeKept(old(fs.disk.Now()), fs.disk.Now())
  {
    hide FreeKept, AsFound, Sound, Tidy, Ready, Appended, NotAppended, UsedUp, Spare, IndexBlocksFor, AllDataSame,
         Attached, NotAttached, AllSpareLeaked, fs.disk.Valid, fs.table.Valid;
    ghost var v := fs.At(slots);
    AttachReady(v, n, b);
    ghost var m';
    ok, m' := AddDatablockToInode(fs.disk, node, b, fs.maps[n]);
    UntouchedBy(v, n, b, ok, fs.disk.Now(), node.Rec(), m');
    if ok {
      AttachedSound(v, n, b, fs.disk.Now(), node.Rec(), m');
      AppendSpends(v.store, slots[n], v.maps[n], b, fs.disk.Now(), node.Rec(), m');
      fs.maps := fs.maps[n := m'];
      fs.leaked := fs.leaked - multiset{b};
    } else {
      NotAttachedSound(v, n, fs.disk.Now(), node.Rec());
      OldRecordSound(v, n, fs.disk.Now(), node.Rec());
      SpareLeaks(v, n, fs.disk.Now(), node.Rec());
      assert slots[n := slots[n]] == slots;
      fs.leaked := fs.leaked + multiset(fs.disk.live - v.store.live);
      assert fs.maps[n := fs.maps[n]] == fs.maps;
    }
  }

  /** The blocks an append needs are there: the new one and the index blocks it takes. */
  ghost predicate RoomForBlock(live: set<int>, m: BlockMap) {
    |m.Data()| < MAX_BLOCKS && 1 + IndexBlocksFor(|m.Data()|) <= Spare(live)
  }

  lemma RoomGone(live: set<int>, m: BlockMap)
    requires Spare(live) <= 0
    ensures !RoomForBlock(live, m)
  {
  }

  lemma RoomGoneToo(s: Store, s': Store, m: BlockMap)
    requires s.live <= s'.live && !(|m.Data()| < MAX_BLOCKS && IndexBlocksFor(|m.Data()|) <= Spare(s.live))
    ensures !RoomForBlock(s'.live, m)
  {
    assert s'.live == s.live + (s'.live - s.live);
    assert |s'.live| >= |s.live|;
  }

  lemma RoomLeft(v: Volume, n: int, b: int, v1: Volume)
    requires Allocated(v, b, v1) && 0 <= n < |v.maps|
    ensures RoomForBlock(v.store.live, v.maps[n]) <==>
      |v.maps[n].Data()| < MAX_BLOCKS && IndexBlocksFor(|v.maps[n].Data()|) <= Spare(v1.store.live)
  {
  }

  lemma Extended(v: Volume, n: int, b: int, v1: Volume, v2: Volume)
    requires Sound(v) && InodeNumValid(n) && TakenAs(v.store, b, v1.store) && Attached(v1, n, b, v2)
    requires v1 == Volume(v1.store, v.slots, v.maps, v.leaked + multiset{b})
    requires n < |v1.slots| && n < |v1.maps| && n < |v2.slots| && n < |v2.maps| && v.slots[n].isAllocated
    requires Appended(v1.store, v1.slots[n], v1.maps[n], b, v2.store, v2.slots[n], v2.maps[n])
    ensures |v.maps| == |v2.maps| == INODE_BLOCK_COUNT
    ensures |v.slots| == |v2.slots| == INODE_BLOCK_COUNT * INODES_PER_BLOCK
    ensures Moved(v, MoveExtend(n, b, v1.store), v2) && v2.leaked == v.leaked
  {
    hide Sound, Appended, TakenAs;
    SlotMap(v, n);
    assert v.leaked + multiset{b} - multiset{b} == v.leaked;
  }

  /** A failed append of a new block to a file of k blocks has leaked all that was spare, or just the new block. */
  ghost predicate Wasted(v: Volume, k: int, v': Volume) {
    var waste := if k < MAX_BLOCKS || Spare(v.store.live) == 0 then Spare(v.store.live) else 1;
    && v.leaked <= v'.leaked && |v'.leaked| == |v.leaked| + waste
    && Spare(v'.store.live) == Spare(v.store.live) - waste
  }

  lemma NothingWasted(v: Volume, k: int)
    requires Spare(v.store.live) == 0
    ensures Wasted(v, k, v)
  {
  }

  lemma AllWasted(v: Volume, n: int, b: int, v1: Volume, v2: Volume, v': Volume)
    requires v1.leaked == v.leaked + multiset{b} && v1.maps == v.maps && v1.slots == v.slots
    requires Spare(v1.store.live) == Spare(v.store.live) - 1
    requires NotAttached(v1, n, v2) && v1.store.live <= v2.store.live
    requires 0 <= Spare(v1.store.live) && AllSpareLeaked(v1, n, v') && v' == v2.(slots := v1.slots)
    ensures n < |v.maps| && Wasted(v, |v.maps[n].Data()|, v')
  {
    hide OnlyAddresses;
    var more := v2.store.live - v1.store.live;
    assert v2.store.live == v1.store.live + more;
    assert |v1.leaked| == |v.leaked| + 1 && |v2.leaked| == |v1.leaked| + |multiset(more)| && |multiset(more)| == |more|;
  }

  /** Allocates a block and appends it to a loaded inode, as a file that grows does. */
  method Extend(fs: FileSystem, n: int, node: Inode, ghost slots: seq<Record>) returns (ok: bool, b: int)
    requires fs.Stored() && Sound(fs.At(slots)) && InodeNumValid(n) && slots[n] == node.Rec() && node.isAllocated
    modifies fs`maps, fs`leaked, fs.disk, fs.disk.mem, node
    ensures fs.Stored() && Sound(fs.At(slots[n := node.Rec()])) && OnlyAddresses(old(node.Rec()), node.Rec())
    ensures |fs.maps| == INODE_BLOCK_COUNT && fs.maps == old(fs.maps)[n := fs.maps[n]]
    ensures AllDataSame(old(fs.At(slots)), fs.disk.img)
    ensures ok <==> RoomForBlock(old(fs.disk.live), old(fs.maps)[n])
    ensures ok ==>
      && InData(b) && fs.maps[n].Data() == old(fs.maps)[n].Data() + [b] && fs.leaked == old(fs.leaked)
      && (exists mid :: Moved(old(fs.At(slots)), MoveExtend(n, b, mid), fs.At(slots[n := node.Rec()])))
      && Leads(old(fs.At(slots)), fs.At(slots[n := node.Rec()]))
    ensures ok ==> DataBlocks.ZeroPast0(fs.disk.img[b])
    ensures ok ==> Spare(fs.disk.live) == Spare(old(fs.disk.live)) - 1 - IndexBlocksFor(|old(fs.maps)[n].Data()|)
    ensures !ok ==> fs.maps == old(fs.maps) && !RoomForBlock(fs.disk.live, fs.maps[n])
    ensures !ok ==> Wasted(old(fs.At(slots)), |fs.maps[n].Data()|, fs.At(slots))
    ensures ok && old(Tidy(fs.At(slots))) ==> Tidy(fs.At(slots[n := node.Rec()]))
    ensures FreeKept(old(fs.disk.Now()), fs.disk.Now())
    ensures ok ==> b !in old(fs.disk.live) && AsFound(old(fs.disk.img)[b], fs.disk.img[b])
  {
    hide FreeKept, AsFound, Sound, Tidy, Maps, AllDataSame, Appended, Attached, NotAttached, Allocated, Spare,
         IndexBlocksFor, TakenAs, RoomForBlock, Moved, Leads, Wasted, DataBlocks.ZeroPast0, AllSpareLeaked,
         fs.disk.Valid, fs.table.Valid;
    ghost var v := fs.At(slots);
    SlotMap(v, n);
    NothingTaken(fs.disk.Now());
    SpareIsNatural(fs.disk);
    assert slots[n := node.Rec()] == slots && fs.maps[n := fs.maps[n]] == fs.maps;
    b := Allocate(fs, slots);
    ghost var v1 := fs.At(slots);
    if b <= 0 {
      AllocationFailed(v, b, v1);
      RoomGone(fs.disk.live, fs.maps[n]);
      NothingWasted(v, |fs.maps[n].Data()|);
      return false, b;
    }
    RoomLeft(v, n, b, v1);
    AllocatedFacts(v, b, v1);
    SpareIsNatural(fs.disk);
    ok := Attach(fs, n, node, b, slots);
    ghost var v2 := fs.At(slots[n := node.Rec()]);
    AllSameTwice(v, v1, v2.store.img);
    FreeKeptTwice(v.store, v1.store, v2.store);
    if ok {
      AttachedFacts(v1, n, b, v2);
      Extended(v, n, b, v1, v2);
      LeadsOne(v, MoveExtend(n, b, v1.store), v2);
    } else {
      NotAttachedFacts(v1, n, v2);
      RoomGoneToo(v1.store, v2.store, v.maps[n]);
      AllWasted(v, n, b, v1, v2, fs.At(slots));
    }
  }

  lemma AllocationFailed(v: Volume, b: int, v1: Volume)
    requires b <= 0 && (b == -1 ==> v1 == v) && (b != -1 ==> InData(b))
    ensures b == -1 && v1 == v
  {
  }

  lemma AllocatedFacts(v: Volume, b: int, v1: Volume)
    requires Allocated(v, b, v1)
    ensures b in v1.leaked && InData(b) && v1.maps == v.maps && v1.slots == v.slots
    ensures v1.leaked == v.leaked + multiset{b}
    ensures TakenAs(v.store, b, v1.store) && v1 == Volume(v1.store, v.slots, v.maps, v.leaked + multiset{b})
    ensures DataBlocks.ZeroPast0(v1.store.img[b]) && Spare(v1.store.live) == Spare(v.store.live) - 1
  {
  }

  lemma AttachedFacts(v: Volume, n: int, b: int, v': Volume)
    requires Attached(v, n, b, v')
    ensures |v'.maps| == INODE_BLOCK_COUNT && n < |v.slots| && |v.slots| == |v'.slots|
    ensures v'.maps == v.maps[n := v'.maps[n]]
    ensures v'.maps[n].Data() == v.maps[n].Data() + [b] && OnlyAddresses(v.slots[n], v'.slots[n])
  {
  }

  lemma NotAttachedFacts(v: Volume, n: int, v': Volume)
    requires NotAttached(v, n, v')
    ensures v'.maps == v.maps && n < |v.slots| && |v.slots| == |v'.slots| && OnlyAddresses(v.slots[n], v'.slots[n])
  {
    assert v.maps[n := v.maps[n]] == v.maps;
  }

  lemma AllSameTwice(v: Volume, v1: Volume, img': Image)
    requires v1.maps == v.maps && AllDataSame(v, v1.store.img) && AllDataSame(v1, img')
    ensures AllDataSame(v, img')
  {
    forall k | InodeNumValid(k) && k < |v.maps|
      ensures DataSame(v.store.img, img', v.maps[k])
    {
      assert DataSame(v.store.img, v1.store.img, v.maps[k]) && DataSame(v1.store.img, img', v.maps[k]);
    }
  }

  // ----- removing blocks from a loaded inode -----

  /** Inode n maps only its first k blocks; the others went back, all but those in `lost`. */
  ghost predicate CutShort(v: Volume, n: int, k: int, lost: multiset<int>, v': Volume) {
    && InodeNumValid(n) && |v.maps| == INODE_BLOCK_COUNT && |v.slots| == |v'.slots| && n < |v.slots|
    && v' == Replaced(v, n, v'.store, v'.slots[n], Truncate(v.maps[n], k), v.leaked + lost)
    && OnlyAddresses(v.slots[n], v'.slots[n])
  }

  lemma KeptData(s: Store, r: Record, m: BlockMap, k: int, lost: multiset<int>, s': Store, r': Record)
    requires Maps(s.img, r, m) && Exclusive(s.live, m) && 0 <= k <= |m.Data()|
    requires Removed(s, r, m, k, lost, s', r')
    ensures DataSame(s.img, s'.img, Truncate(m, k))
  {
    MapShape(s.img, r, m);
    TruncateData(m, k);
    Split(m, k);
    var m' := Truncate(m, k);
    hide Maps, Truncate, Excess;
    forall j | 0 <= j < |m'.Data()|
      ensures m'.Data()[j] in s'.live && !m'.InIndex(m'.Data()[j]) && m'.Data()[j] !in lost
    {
      DataKept(s, m, k, lost, s', m'.Data()[j]);
    }
  }

  /** A block in use is either freed, or kept by the shortened map, or lost, but never two of these. */
  lemma DataKept(s: Store, m: BlockMap, k: int, lost: multiset<int>, s': Store, b: int)
    requires Exclusive(s.live, m) && Owned(m) == Owned(Truncate(m, k)) + Excess(m, k)
    requires multiset(s'.live) + Excess(m, k) == multiset(s.live) + lost && b in Truncate(m, k).Data()
    ensures b in s'.live && !Truncate(m, k).InIndex(b) && b !in lost
  {
    hide Truncate, Excess;
    var m', e := Truncate(m, k), Excess(m, k);
    IndexIsOwned(m', b);
    assert Owned(m) <= multiset(s.live);
    assert Exclusive(s.live, m');
    DataIsNotIndex(s.live, m', b);
    hide Owned;
    assert (multiset(s'.live) + e)[b] == (multiset(s.live) + lost)[b];
    assert Owned(m)[b] == Owned(m')[b] + e[b] <= multiset(s.live)[b];
  }

  lemma CutShortSound(v: Volume, n: int, k: int, lost: multiset<int>, s': Store, r': Record)
    requires Sound(v) && InodeNumValid(n) && v.slots[n].isAllocated && 0 <= k <= v.slots[n].blocks
    requires Removed(v.store, v.slots[n], v.maps[n], k, lost, s', r')
    ensures var v' := Replaced(v, n, s', r', Truncate(v.maps[n], k), v.leaked + lost);
      && Sound(v') && CutShort(v, n, k, lost, v')
      && (Tidy(v) && Clean(s'.img, r', Truncate(v.maps[n], k)) ==> Tidy(v'))
    ensures OtherDataSame(v, n, s'.img) && DataSame(v.store.img, s'.img, Truncate(v.maps[n], k))
  {
    SlotMap(v, n);
    OneOwner(v, n, n);
    hide Maps, Clean, Owned, TotalOwned, SlotsMapped, DataSame, OtherDataSame, Truncate, Excess, Elsewhere;
    RemovalSound(v, n, k, lost, s', r');
    OthersSame(v, n, s');
    KeptData(v.store, v.slots[n], v.maps[n], k, lost, s', r');
  }

  lemma SlotMap(v: Volume, n: int)
    requires Sound(v) && InodeNumValid(n)
    ensures Maps(v.store.img, v.slots[n], v.maps[n]) && |v.maps[n].Data()| == v.slots[n].blocks
    ensures |v.slots| == INODE_BLOCK_COUNT * INODES_PER_BLOCK && |v.maps| == INODE_BLOCK_COUNT
    ensures Exclusive(v.store.live, v.maps[n])
  {
    OneOwner(v, n, n);
  }

  method Release(fs: FileSystem, n: int, node: Inode, start: int, ghost slots: seq<Record>) returns (ok: bool)
    requires fs.Stored() && Sound(fs.At(slots)) && InodeNumValid(n) && slots[n] == node.Rec() && node.isAllocated
    requires 0 <= start <= node.blocks && Prunable(fs.disk.Now(), node.Rec(), fs.maps[n], start)
    requires start < DIRECT + N + N * N || Exact(fs.maps[n], start)
    modifies fs`maps, fs`leaked, fs.disk, fs.disk.mem, node
    ensures fs.Stored() && Sound(fs.At(slots[n := node.Rec()]))
    ensures Exact(old(fs.maps)[n], start) ==>
      ok && CutShort(old(fs.At(slots)), n, start, multiset{}, fs.At(slots[n := node.Rec()]))
    ensures ok && start < DIRECT + N + N * N ==>
      CutShort(old(fs.At(slots)), n, start, Lost(old(node.Rec()), old(fs.maps)[n], start),
               fs.At(slots[n := node.Rec()]))
    ensures start < old(node.blocks) ==> ok
    ensures !ok ==> fs.At(slots[n := node.Rec()]) == old(fs.At(slots)) && node.Rec() == old(node.Rec())
    ensures OtherDataSame(old(fs.At(slots)), n, fs.disk.img)
    ensures ok ==> DataSame(old(fs.disk.img), fs.disk.img, Truncate(old(fs.maps)[n], start))
    ensures old(Tidy(fs.At(slots))) && Exact(old(fs.maps)[n], start) && LeavesZeros(old(fs.maps)[n], start) ==>
      Tidy(fs.At(slots[n := node.Rec()]))
    ensures Exact(old(fs.maps)[n], start) && LeavesZeros(old(fs.maps)[n], start) ==>
      && |fs.maps| == INODE_BLOCK_COUNT
      && Moved(old(fs.At(slots)), MoveCut(n, start), fs.At(slots[n := node.Rec()]))
      && Leads(old(fs.At(slots)), fs.At(slots[n := node.Rec()]))
  {
    hide Sound, Tidy, Prunable, Removed, Exact, LeavesZeros, Clean, Lost, Truncate, OtherDataSame, DataSame, CutShort,
         Moved, Leads, fs.disk.Valid, fs.table.Valid;
    ghost var v := fs.At(slots);
    SlotMap(v, n);
    ghost var m := fs.maps[n];
    TidyAt(v, n);
    ok := RemoveDatablocksRange(fs.disk, node, start, m);
    if !ok {
      assert slots[n := node.Rec()] == slots;
      assert OtherDataSame(v, n, fs.disk.img) by {
        NothingMoved(v);
        AllImpliesOther(v, n, fs.disk.img);
      }
      return;
    }
    fs.maps := fs.maps[n := Truncate(m, start)];
    ghost var lost := if start < DIRECT + N + N * N then Lost(slots[n], m, start) else multiset{};
    fs.leaked := fs.leaked + lost;
    CutShortSound(v, n, start, lost, fs.disk.Now(), node.Rec());
    LostWhenExact(v, n, start, lost, fs.disk.Now(), node.Rec());
    if Exact(m, start) && LeavesZeros(m, start) {
      CutMoves(v, n, start, fs.At(slots[n := node.Rec()]));
      LeadsOne(v, MoveCut(n, start), fs.At(slots[n := node.Rec()]));
    }
  }

  lemma CutMoves(v: Volume, n: int, k: int, v': Volume)
    requires Sound(v) && InodeNumValid(n) && n < |v.slots| && v.slots[n].isAllocated && 0 <= k && n < |v.maps|
    requires n < |v'.slots|
    requires Exact(v.maps[n], k) && LeavesZeros(v.maps[n], k) && CutShort(v, n, k, multiset{}, v')
    requires Removed(v.store, v.slots[n], v.maps[n], k, multiset{}, v'.store, v'.slots[n])
    requires Clean(v.store.img, v.slots[n], v.maps[n]) ==> Clean(v'.store.img, v'.slots[n], Truncate(v.maps[n], k))
    ensures |v.maps| == |v'.maps| == INODE_BLOCK_COUNT
    ensures |v.slots| == |v'.slots| == INODE_BLOCK_COUNT * INODES_PER_BLOCK
    ensures Moved(v, MoveCut(n, k), v')
  {
    hide Sound, Clean, Removed, Exact, LeavesZeros, Truncate, OnlyAddresses;
    SlotMap(v, n);
    assert v.leaked + multiset{} == v.leaked;
  }

  lemma AllImpliesOther(v: Volume, n: int, img': Image)
    requires AllDataSame(v, img')
    ensures OtherDataSame(v, n, img')
  {
  }

  lemma LostWhenExact(v: Volume, n: int, start: int, lost: multiset<int>, s': Store, r': Record)
    requires InodeNumValid(n) && n < |v.slots| && n < |v.maps|
    requires Removed(v.store, v.slots[n], v.maps[n], start, lost, s', r')
    ensures Removed(v.store, v.slots[n], v.maps[n], start, multiset{}, s', r') ==> lost == multiset{}
  {
    hide Removed;
    NothingLost(v.store, v.slots[n], v.maps[n], start, lost, s', r');
  }

  // ----- writing data -----

  lemma FilledSame(v: Volume, n: int, k: int, img': Image)
    requires Sound(v) && InodeNumValid(n) && 0 <= k < |v.maps[n].Data()|
    requires forall b :: 0 <= b < BLOCK_COUNT && b != v.maps[n].Data()[k] ==> img'[b] == v.store.img[b]
    ensures Sound(v.(store := v.store.(img := img'))) && OtherDataSame(v, n, img')
    ensures Tidy(v) ==> Tidy(v.(store := v.store.(img := img')))
  {
    hide Sound, Tidy, OtherDataSame;
    SlotMap(v, n);
    FillSound(v, n, k, img');
    OthersSame(v, n, v.store.(img := img'));
    var v' := Replaced(v, n, v.store.(img := img'), v.slots[n], v.maps[n], v.leaked);
    assert v' == v.(store := v.store.(img := img'));
    TidyAt(v, n);
  }

  lemma DataBlockAt(v: Volume, n: int, k: int)
    requires Sound(v) && InodeNumValid(n) && 0 <= k < |v.maps[n].Data()|
    ensures InData(v.maps[n].Data()[k]) && v.maps[n].Data()[k] in v.store.live
  {
    SlotMap(v, n);
    MapShape(v.store.img, v.slots[n], v.maps[n]);
    OwnedIsLive(v.store.live, v.maps[n], v.maps[n].Data()[k]);
  }

  /** Writes logical block k of inode n. */
  method Fill(fs: FileSystem, n: int, ghost k: int, b: int, block: Block, ghost slots: seq<Record>) returns (ok: bool)
    requires fs.Stored() && Sound(fs.At(slots)) && InodeNumValid(n)
    requires 0 <= k < |fs.maps[n].Data()| && b == fs.maps[n].Data()[k]
    modifies fs.disk`img, fs.disk.mem
    ensures ok && fs.Stored() && Sound(fs.At(slots)) && InData(b)
    ensures fs.disk.img == old(fs.disk.img)[b := block]
    ensures OtherDataSame(old(fs.At(slots)), n, fs.disk.img)
    ensures old(Tidy(fs.At(slots))) ==> Tidy(fs.At(slots))
    ensures Moved(old(fs.At(slots)), MoveFill(n, k, block), fs.At(slots)) && Leads(old(fs.At(slots)), fs.At(slots))
  {
    hide Sound, Tidy, OtherDataSame, Leads, fs.disk.Valid, fs.table.Valid;
    ghost var v := fs.At(slots);
    SlotMap(v, n);
    DataBlockAt(v, n, k);
    ok := WriteDataBlock(fs.disk, b, block);
    FilledSame(v, n, k, fs.disk.img);
    assert slots[n := slots[n]] == slots && fs.maps[n := fs.maps[n]] == fs.maps;
    LeadsOne(v, MoveFill(n, k, block), fs.At(slots));
  }

  lemma LeakedFilled(v: Volume, b: int, block: Block)
    requires Sound(v) && b in v.leaked && 0 <= b < BLOCK_COUNT
    ensures b in v.store.live
    ensures var v' := v.(store := v.store.(img := v.store.img[b := block]));
      Sound(v') && AllDataSame(v, v'.store.img) && (Tidy(v) ==> Tidy(v'))
  {
    hide Maps, Clean, TotalOwned, DataSame, Blank;
    LeakedIsLive(v, b);
    var img' := v.store.img[b := block];
    forall n | InodeNumValid(n)
      ensures Maps(img', v.slots[n], v.maps[n])
      ensures Tidy(v) ==> Clean(img', v.slots[n], v.maps[n])
      ensures DataSame(v.store.img, img', v.maps[n])
    {
      LeakedApart(v, n, b, img');
    }
  }

  lemma LeakedIsLive(v: Volume, b: int)
    requires Sound(v) && b in v.leaked
    ensures b in v.store.live
  {
    assert multiset(v.store.live)[b] == TotalOwned(v.maps)[b] + v.leaked[b];
  }

  lemma LeakedApart(v: Volume, n: int, b: int, img': Image)
    requires Sound(v) && InodeNumValid(n) && b in v.leaked
    requires forall x :: 0 <= x < BLOCK_COUNT && x != b ==> img'[x] == v.store.img[x]
    ensures Maps(img', v.slots[n], v.maps[n])
    ensures Tidy(v) ==> Clean(img', v.slots[n], v.maps[n])
    ensures DataSame(v.store.img, img', v.maps[n])
  {
    OneOwner(v, n, n);
    var m := v.maps[n];
    assert b !in Owned(m);
    assert !m.InIndex(b) by {
      if m.InIndex(b) {
        IndexIsOwned(m, b);
      }
    }
    forall j | 0 <= j < |m.Data()|
      ensures m.Data()[j] != b
    {
      IndexIsOwned(m, m.Data()[j]);
    }
    assert Maps(v.store.img, v.slots[n], m);
    hide Maps, Clean, Owned;
    MapsElsewhere(v.store.img, img', v.slots[n], m);
  }

  /** Writes an allocated block that is in no file yet. */
  method FillLeaked(fs: FileSystem, b: int, block: Block, ghost slots: seq<Record>) returns (ok: bool)
    requires fs.Stored() && Sound(fs.At(slots)) && b in fs.leaked && InData(b)
    modifies fs.disk`img, fs.disk.mem
    ensures ok && fs.Stored() && Sound(fs.At(slots))
    ensures fs.disk.img == old(fs.disk.img)[b := block]
    ensures AllDataSame(old(fs.At(slots)), fs.disk.img)
    ensures old(Tidy(fs.At(slots))) ==> Tidy(fs.At(slots))
  {
    hide Sound, Tidy, AllDataSame, fs.disk.Valid, fs.table.Valid;
    LeakedFilled(fs.At(slots), b, block);
    ok := WriteDataBlock(fs.disk, b, block);
  }

  // ----- the inode table -----

  /** Takes the lowest free inode number. */
  method Create(fs: FileSystem) returns (n: int)
    requires fs.Stored() && Sound(fs.At(fs.table.slots))
    modifies fs.table, fs.table.rows
    ensures fs.Stored() && Sound(fs.At(fs.table.slots))
    ensures n == -1 <==> forall k :: InodeNumValid(k) ==> old(fs.table.slots[k]).isAllocated
    ensures n == -1 ==> fs.table.slots == old(fs.table.slots)
    ensures n != -1 ==>
      && InodeNumValid(n) && !old(fs.table.slots[n]).isAllocated
      && (forall k :: 0 <= k < n ==> old(fs.table.slots[k]).isAllocated)
      && fs.table.slots == old(fs.table.slots)[n := old(fs.table.slots[n]).(linkCount := 0, isAllocated := true)]
      && Moved(old(fs.At(fs.table.slots)), MoveCreate(n), fs.At(fs.table.slots))
      && Leads(old(fs.At(fs.table.slots)), fs.At(fs.table.slots))
    ensures old(Tidy(fs.At(fs.table.slots))) ==> Tidy(fs.At(fs.table.slots))
  {
    hide Sound, Tidy, Leads, fs.disk.Valid, fs.table.Valid;
    ghost var v := fs.At(fs.table.slots);
    n := fs.table.CreateInode();
    if n != -1 {
      SlotMap(v, n);
      FieldsSound(v, n, fs.table.slots[n]);
      assert fs.maps[n := fs.maps[n]] == fs.maps;
      LeadsOne(v, MoveCreate(n), fs.At(fs.table.slots));
    }
  }

  /** Changing fields that say nothing about blocks is one of the steps of a run. */
  lemma EditMoves(v: Volume, n: int, r': Record)
    requires Sound(v) && InodeNumValid(n) && SameAddresses(v.slots[n], r') && v.slots[n].isAllocated && r'.isAllocated
    ensures |v.maps| == INODE_BLOCK_COUNT && |v.slots| == INODE_BLOCK_COUNT * INODES_PER_BLOCK
    ensures Moved(v, MoveEdit(n, r'), v.(slots := v.slots[n := r']))
  {
    hide Sound;
    SlotMap(v, n);
    assert v.maps[n := v.maps[n]] == v.maps;
  }

  lemma EditLeads(v: Volume, n: int, r': Record)
    requires Sound(v) && InodeNumValid(n) && SameAddresses(v.slots[n], r') && v.slots[n].isAllocated && r'.isAllocated
    ensures |v.maps| == INODE_BLOCK_COUNT && |v.slots| == INODE_BLOCK_COUNT * INODES_PER_BLOCK
    ensures Moved(v, MoveEdit(n, r'), v.(slots := v.slots[n := r'])) && Leads(v, v.(slots := v.slots[n := r']))
  {
    hide Sound, Moved, Leads, SameAddresses;
    EditMoves(v, n, r');
    LeadsOne(v, MoveEdit(n, r'), v.(slots := v.slots[n := r']));
  }

  /** Writes a loaded inode back to its slot. */
  method Save(fs: FileSystem, n: int, node: Inode) returns (ok: bool)
    requires fs.Stored()
    modifies fs.table, fs.table.rows
    ensures fs.Stored() && (ok <==> InodeNumValid(n))
    ensures fs.table.slots == if ok then old(fs.table.slots)[n := node.Rec()] else old(fs.table.slots)
  {
    ok := fs.table.WriteINode(n, node);
  }

  /** Writes back a loaded inode that still leads to the same blocks: a step of a run. */
  method SaveEdited(fs: FileSystem, n: int, node: Inode) returns (ok: bool)
    requires fs.Stored() && Sound(fs.At(fs.table.slots)) && InodeNumValid(n) && fs.table.slots[n].isAllocated
    requires node.isAllocated && SameAddresses(fs.table.slots[n], node.Rec())
    modifies fs.table, fs.table.rows
    ensures ok && fs.Stored() && Sound(fs.At(fs.table.slots))
    ensures fs.table.slots == old(fs.table.slots)[n := node.Rec()]
    ensures |fs.maps| == INODE_BLOCK_COUNT && |fs.table.slots| == INODE_BLOCK_COUNT * INODES_PER_BLOCK
    ensures Moved(old(fs.At(fs.table.slots)), MoveEdit(n, node.Rec()), fs.At(fs.table.slots))
    ensures Leads(old(fs.At(fs.table.slots)), fs.At(fs.table.slots))
    ensures old(Tidy(fs.At(fs.table.slots))) ==> Tidy(fs.At(fs.table.slots))
  {
    hide Sound, Tidy, SameAddresses, Moved, Leads, fs.disk.Valid, fs.table.Valid;
    ghost var v := fs.At(fs.table.slots);
    SlotMap(v, n);
    EditLeads(v, n, node.Rec());
    FieldsSound(v, n, node.Rec());
    assert v.maps[n := v.maps[n]] == v.maps;
    ok := Save(fs, n, node);
    assert fs.At(fs.table.slots) == Replaced(v, n, v.store, node.Rec(), v.maps[n], v.leaked);
  }

  /** The index slots of inode n past its end are zero. */
  ghost predicate CleanAt(v: Volume, n: int) {
    InodeNumValid(n) && |v.maps| == INODE_BLOCK_COUNT <= |v.slots| && Clean(v.store.img, v.slots[n], v.maps[n])
  }

  /** Gives back the blocks of an inode and its number; deleting an inode without blocks frees nothing. */
  method DeleteInode(fs: FileSystem, n: int) returns (ok: bool)
    requires fs.Stored() && Sound(fs.At(fs.table.slots))
    requires InodeNumValid(n) ==> CleanAt(fs.At(fs.table.slots), n)
    modifies fs`maps, fs.disk, fs.disk.mem, fs.table, fs.table.rows
    ensures fs.Stored() && Sound(fs.At(fs.table.slots))
    ensures old(Tidy(fs.At(fs.table.slots))) ==> Tidy(fs.At(fs.table.slots))
    ensures ok <==> InodeNumValid(n)
    ensures !ok ==> fs.At(fs.table.slots) == old(fs.At(fs.table.slots))
    ensures ok ==>
      && fs.table.slots == old(fs.table.slots)[n := Erased(old(fs.table.slots[n]))]
      && |old(fs.maps)| == INODE_BLOCK_COUNT && fs.maps == old(fs.maps)[n := EMPTY_MAP]
      && multiset(fs.disk.live) + Owned(old(fs.maps)[n]) == multiset(old(fs.disk.live))
      && OtherDataSame(old(fs.At(fs.table.slots)), n, fs.disk.img)
      && (exists r :: Moved(old(fs.At(fs.table.slots)), MoveErase(n, r), fs.At(fs.table.slots)))
      && Leads(old(fs.At(fs.table.slots)), fs.At(fs.table.slots))
  {
    hide Sound, Tidy, OtherDataSame, CleanAt, Owned, Moved, Leads, fs.disk.Valid, fs.table.Valid;
    if !InodeNumValid(n) {
      return false;
    }
    ghost var slots := fs.table.slots;
    var row := fs.table.ReadRow(n);
    var node := new Inode(row[n % INODES_PER_BLOCK]);
    ok := FreeAllDataBlocks(fs, n, node, slots);
    if !ok {
      return;
    }
    Reset(node);
    row := row[n % INODES_PER_BLOCK := node.Rec()];
    fs.table.WriteInodeBlock(n, row);
  }

  /** Removes all blocks of a slot about to be cleared. */
  method FreeAllDataBlocks(fs: FileSystem, n: int, node: Inode, ghost slots: seq<Record>) returns (ok: bool)
    requires fs.Stored() && Sound(fs.At(slots)) && slots == fs.table.slots
    requires InodeNumValid(n) && node.Rec() == slots[n] && CleanAt(fs.At(slots), n)
    modifies fs`maps, fs.disk, fs.disk.mem, node
    ensures ok && fs.Stored() && OnlyAddresses(slots[n], node.Rec())
    ensures Sound(fs.At(slots[n := Erased(slots[n])]))
    ensures old(Tidy(fs.At(slots))) ==> Tidy(fs.At(slots[n := Erased(slots[n])]))
    ensures |old(fs.maps)| == INODE_BLOCK_COUNT && fs.maps == old(fs.maps)[n := EMPTY_MAP]
    ensures multiset(fs.disk.live) + Owned(old(fs.maps)[n]) == multiset(old(fs.disk.live))
    ensures OtherDataSame(old(fs.At(slots)), n, fs.disk.img)
    ensures |fs.maps| == INODE_BLOCK_COUNT
    ensures Moved(old(fs.At(slots)), MoveErase(n, node.Rec()), fs.At(slots[n := Erased(slots[n])]))
    ensures Leads(old(fs.At(slots)), fs.At(slots[n := Erased(slots[n])]))
  {
    hide Sound, Tidy, Removed, Exact, LeavesZeros, Clean, Lost, OtherDataSame, Prunable, CleanAt, Owned, Leads,
         fs.disk.Valid, fs.table.Valid;
    ghost var v := fs.At(slots);
    SlotMap(v, n);
    ExactFromZero(v, n);
    ok := RemoveDatablocksRange(fs.disk, node, 0, fs.maps[n]);
    DeletedSound(v, n, fs.disk.Now(), node.Rec());
    fs.maps := fs.maps[n := EMPTY_MAP];
    LeadsOne(v, MoveErase(n, node.Rec()), fs.At(slots[n := Erased(slots[n])]));
  }

  /** Clears a slot; the mode stays. */
  method Reset(node: Inode)
    modifies node
    ensures node.Rec() == Erased(old(node.Rec()))
  {
    node.linkCount, node.fileSize, node.blocks := 0, 0, 0;
    node.direct := NoAddresses();
    node.single, node.double, node.triple := 0, 0, 0;
    node.isAllocated, node.filesCount := false, 0;
  }

  lemma ExactFromZero(v: Volume, n: int)
    requires Sound(v) && CleanAt(v, n)
    ensures |v.maps| == INODE_BLOCK_COUNT <= |v.slots|
    ensures Exact(v.maps[n], 0) && Prunable(v.store, v.slots[n], v.maps[n], 0)
  {
    SlotMap(v, n);
  }

  lemma DeletedSound(v: Volume, n: int, s': Store, r': Record)
    requires Sound(v) && InodeNumValid(n)
    requires Removed(v.store, v.slots[n], v.maps[n], 0, multiset{}, s', r')
    ensures |v.maps| == INODE_BLOCK_COUNT && n < |v.slots|
    ensures var v' := Replaced(v, n, s', Erased(v.slots[n]), EMPTY_MAP, v.leaked);
      && Sound(v') && (Tidy(v) ==> Tidy(v')) && OtherDataSame(v, n, s'.img)
    ensures multiset(s'.live) + Owned(v.maps[n]) == multiset(v.store.live)
    ensures OnlyAddresses(v.slots[n], r')
  {
    hide Sound, Tidy, OtherDataSame, Elsewhere, Owned;
    SlotMap(v, n);
    DeletionSound(v, n, s', r');
    OthersSame(v, n, s');
    RemovalElsewhere(v.store, v.slots[n], v.maps[n], 0, multiset{}, s', r');
    TruncateToNone(v.maps[n]);
  }

  lemma TruncateToNone(m: BlockMap)
    ensures Truncate(m, 0) == EMPTY_MAP && Owned(EMPTY_MAP) == multiset{}
  {
  }
}
