/** Looking up, adding and removing directory entries (src/inode.cpp:483-645, src/inode.cpp:1065-1157). */
module DirectoryOps {
  import opened Geometry
  import opened Words
  import opened LayerZero
  import opened DataBlocks
  import opened Inodes
  import opened InodeTable
  import opened BlockMaps
  import opened Append
  import opened Lookup
  import opened DirectoryBlocks
  import opened Directories
  import opened Ownership
  import opened Storage

  // ----- scanning -----

  lemma Scannable(img: Image, r: Record, m: BlockMap, k: int)
    requires Maps(img, r, m) && 0 <= k < r.blocks
    ensures Searchable(img, r, m, k) && k < |m.Data()| && |m.Data()| == r.blocks
  {
    hide Direct, Single, Double, Triple;
  }

  lemma NoneYet(dir: Directory, k: int, name: seq<byte>)
    requires 0 <= k < |dir|
    requires forall h, i :: 0 <= h < k && 0 <= i < |dir[h]| ==> dir[h][i].name != name
    requires forall i :: 0 <= i < |dir[k]| ==> dir[k][i].name != name
    ensures forall h, i :: 0 <= h < k + 1 && 0 <= i < |dir[h]| ==> dir[h][i].name != name
  {
  }

  lemma ShownAt(img: Image, m: BlockMap, dir: Directory, k: int)
    requires Shown(img, m, dir) && 0 <= k < |dir|
    ensures k < |m.Data()| && InData(m.Data()[k]) && Fits(dir[k]) && img[m.Data()[k]] == DirectoryBlock(dir[k])
  {
  }

  lemma EmptyBlock(es: seq<Entry>, name: seq<byte>)
    requires Fits(es) && Word(DirectoryBlock(es), 0) == 0
    ensures es == []
  {
    Header(es);
  }

  /**
   * Scans the directory's blocks for the first record with the name; both callers' loops, one of which skips empty
   * blocks.
   */
  method FindEntry(disk: Disk, node: Inode, name: seq<byte>, skipEmpty: bool, ghost m: BlockMap, ghost dir: Directory)
    returns (b: int, block: Block, offset: int, ghost k: nat, ghost i: nat)
    requires disk.Valid() && Maps(disk.img, node.Rec(), m) && Shown(disk.img, m, dir)
    ensures offset == -1 ==> !Named(Listing(dir), name)
    ensures offset != -1 ==>
      && k < |dir| && k < |m.Data()| && FirstNamed(dir[k], name, i)
      && offset == Start(dir[k], i) && offset + 16 <= BLOCK_SIZE
      && b == m.Data()[k] && block == disk.img[b] == DirectoryBlock(dir[k])
    ensures offset == -1 || offset > 0
  {
    hide Maps, disk.Valid, Shown, Searchable, Listing, DirectoryBlock, Start, Fits, EntriesOk, Word, CacheHit;
    b, block, offset, k, i := -1, ZeroBlock(), -1, 0, 0;
    var prev, l := 0, 0;
    DirLength(disk.img, node.Rec(), m, dir);
    while l < node.blocks
      invariant 0 <= l <= node.blocks == |dir| && CacheOk(m, l, prev)
      invariant forall h, i :: 0 <= h < l && 0 <= i < |dir[h]| ==> dir[h][i].name != name
      invariant offset == -1
    {
      Scannable(disk.img, node.Rec(), m, l);
      ShownAt(disk.img, m, dir, l);
      var next;
      b, next := GetDatablockFromInode(disk, node, l, prev, m);
      if b <= 0 {
        return;
      }
      var read := ReadDataBlock(disk, b);
      block := read.value;
      if skipEmpty && Word(block, 0) == 0 {
        EmptyBlock(dir[l], name);
        NoneYet(dir, l, name);
      } else {
        k := l;
        offset, i := FindRecord(block, name, dir[l]);
        if offset > 0 {
          return;
        }
        NoneYet(dir, l, name);
      }
      prev, l := next, l + 1;
    }
    NotFound(dir, name);
  }

  lemma DirLength(img: Image, r: Record, m: BlockMap, dir: Directory)
    requires Maps(img, r, m) && Shown(img, m, dir)
    ensures |dir| == r.blocks == |m.Data()|
  {
    hide Direct, Single, Double, Triple;
  }

  /** What a lookup of one name in a loaded directory returns. */
  function LookedUp(es: seq<Entry>, name: seq<byte>): int {
    if name in Names(es) then Names(es)[name] else -1
  }

  /** The inode number under a name, or -1. */
  method LookupName(disk: Disk, node: Inode, name: seq<byte>, ghost m: BlockMap,
                    ghost dir: Directory) returns (inum: int)
    requires disk.Valid() && Maps(disk.img, node.Rec(), m)
    requires node.isDir ==> Shown(disk.img, m, dir) && Distinct(Listing(dir))
    ensures inum == if node.isDir then LookedUp(Listing(dir), name) else -1
  {
    hide Maps, disk.Valid, Shown, Listing, DirectoryBlock, Distinct, Names, Start, FirstNamed;
    if !node.isDir {
      return -1;
    }
    if |name| > FILE_NAME_MAX_LENGTH {
      TooLong(disk.img, m, dir, name);
      return -1;
    }
    var b, block, offset;
    ghost var k, i;
    b, block, offset, k, i := FindEntry(disk, node, name, true, m, dir);
    if offset == -1 {
      NamedIn(Listing(dir), name);
      return -1;
    }
    inum := WordAt(block, offset + RECORD_LENGTH);
    FoundRecord(disk.img, m, dir, k, i, name);
  }

  lemma FoundRecord(img: Image, m: BlockMap, dir: Directory, k: nat, i: nat, name: seq<byte>)
    requires Shown(img, m, dir) && Distinct(Listing(dir)) && k < |dir| && FirstNamed(dir[k], name, i)
    ensures Start(dir[k], i) + 16 <= BLOCK_SIZE && 0 <= Start(dir[k], i)
    ensures name in Names(Listing(dir))
    ensures WordAt(DirectoryBlock(dir[k]), Start(dir[k], i) + RECORD_LENGTH) == Names(Listing(dir))[name]
  {
    hide Listing, Distinct, Names;
    ShownAt(img, m, dir, k);
    hide Shown, DirectoryBlock, Start, Fits, EntriesOk;
    RecordAt(dir[k], i);
    FoundIn(dir, k, i);
  }

  lemma {:induction false} LongNames(dir: Directory, name: seq<byte>)
    requires |name| > FILE_NAME_MAX_LENGTH && forall k :: 0 <= k < |dir| ==> Fits(dir[k])
    ensures !Named(Listing(dir), name)
  {
    forall k, i | 0 <= k < |dir| && 0 <= i < |dir[k]|
      ensures dir[k][i].name != name
    {
      assert Fits(dir[k]) && EntryOk(dir[k][i]);
    }
    NotFound(dir, name);
  }

  lemma TooLong(img: Image, m: BlockMap, dir: Directory, name: seq<byte>)
    requires Shown(img, m, dir) && Distinct(Listing(dir)) && |name| > FILE_NAME_MAX_LENGTH
    ensures name !in Names(Listing(dir))
  {
    LongNames(dir, name);
    NamedIn(Listing(dir), name);
  }

  // ----- adding -----

  /**
   * A loaded inode and its entries agree, and its size is within its blocks; an inode that is no directory has no
   * entries.
   */
  ghost predicate Lists(img: Image, r: Record, m: BlockMap, dir: Directory) {
    && 0 <= r.fileSize <= BLOCK_SIZE * r.blocks
    && if r.isAllocated && r.isDir then
         Shown(img, m, dir) && Distinct(Listing(dir)) && r.filesCount == |Listing(dir)|
       else
         dir == []
  }

  lemma DataDistinct(live: set<int>, m: BlockMap)
    requires Exclusive(live, m)
    ensures FreeList.NoDuplicates(m.Data())
  {
    forall x
      ensures multiset(m.Data())[x] <= 1
    {
      OnlyOne(live, m, x);
      assert multiset(m.Data()) == multiset(m.direct) + multiset(m.s0) + multiset(m.d0) + multiset(m.t0);
    }
    UniqueSeq(m.Data());
  }

  lemma ShownFilled(img: Image, m: BlockMap, dir: Directory, k: int, es: seq<Entry>)
    requires Shown(img, m, dir) && FreeList.NoDuplicates(m.Data()) && 0 <= k < |dir| && Fits(es)
    ensures Shown(img[m.Data()[k] := DirectoryBlock(es)], m, dir[k := es])
  {
    hide DirectoryBlock, Fits;
  }

  lemma ShownSame(img: Image, img': Image, m: BlockMap, dir: Directory)
    requires Shown(img, m, dir) && DataSame(img, img', m)
    ensures Shown(img', m, dir)
  {
    hide DirectoryBlock, Fits;
  }

  lemma ListsSame(img: Image, img': Image, r: Record, m: BlockMap, dir: Directory)
    requires Lists(img, r, m, dir) && DataSame(img, img', m)
    ensures Lists(img', r, m, dir)
  {
    hide Listing, Distinct, Shown, DataSame;
    if r.isAllocated && r.isDir {
      ShownSame(img, img', m, dir);
    }
  }

  lemma ShownLonger(img: Image, img': Image, m: BlockMap, m': BlockMap, b: int, dir: Directory, e: Entry)
    requires Shown(img, m, dir) && DataSame(img, img', m) && m'.Data() == m.Data() + [b]
    requires InData(b) && Fits([e]) && img'[b] == DirectoryBlock([e])
    ensures Shown(img', m', dir + [[e]])
  {
    hide DirectoryBlock, Fits;
    ShownSame(img, img', m, dir);
  }

  /** The inode counts one entry more; nothing but its size and blocks changed besides. */
  predicate CountedOne(r: Record, r': Record) {
    r' == r.(blocks := r'.blocks, direct := r'.direct, single := r'.single, double := r'.double, triple := r'.triple,
             fileSize := r.fileSize + BLOCK_SIZE * (r'.blocks - r.blocks), filesCount := r.filesCount + 1)
  }

  /** The directory gained one entry and its inode counts it. */
  ghost predicate EntryAdded(r: Record, dir: Directory, e: Entry, r': Record, dir': Directory) {
    Names(Listing(dir')) == Names(Listing(dir))[e.name := e.inum] && CountedOne(r, r')
  }

  /** The entry's record is in the directory and its inode counts it, whether or not the name was there before. */
  ghost predicate EntryPlaced(r: Record, dir: Directory, e: Entry, img': Image, r': Record, m': BlockMap,
                              dir': Directory) {
    Shown(img', m', dir') && Placed(dir, e, dir') && CountedOne(r, r') && r.blocks <= r'.blocks
  }

  /** A new name extends the map; one that was there before is in the directory twice from then on. */
  lemma PlacedIsAdded(img: Image, r: Record, m: BlockMap, dir: Directory, e: Entry, img': Image, r': Record,
                      m': BlockMap, dir': Directory)
    requires Lists(img, r, m, dir) && r.isAllocated && r.isDir && EntryPlaced(r, dir, e, img', r', m', dir')
    ensures Distinct(Listing(dir')) <==> e.name !in Names(Listing(dir))
    ensures e.name !in Names(Listing(dir)) ==> Lists(img', r', m', dir') && EntryAdded(r, dir, e, r', dir')
  {
    hide Listing, Distinct, Names, Shown, Placed;
    PlacedNames(dir, e, dir');
  }

  lemma PlacedInBlock(img: Image, live: set<int>, r: Record, m: BlockMap, dir: Directory, k: int, e: Entry, img': Image)
    requires Shown(img, m, dir) && Exclusive(live, m)
    requires 0 <= k < |dir| && Fits(dir[k] + [e])
    requires k < |m.Data()| && InData(m.Data()[k]) && img' == img[m.Data()[k] := DirectoryBlock(dir[k] + [e])]
    ensures EntryPlaced(r, dir, e, img', r.(filesCount := r.filesCount + 1), m, dir[k := dir[k] + [e]])
  {
    hide DirectoryBlock, Fits, Shown, Exclusive;
    DataDistinct(live, m);
    ShownFilled(img, m, dir, k, dir[k] + [e]);
  }

  lemma PlacedBehind(img: Image, r: Record, m: BlockMap, dir: Directory, e: Entry, b: int, img': Image, r': Record,
                     m': BlockMap)
    requires Shown(img, m, dir)
    requires DataSame(img, img', m) && m'.Data() == m.Data() + [b] && InData(b) && Fits([e])
    requires img'[b] == DirectoryBlock([e])
    requires BlockMaps.OnlyAddresses(r, r') && r'.blocks == r.blocks + 1
    ensures EntryPlaced(r, dir, e, img', r'.(filesCount := r.filesCount + 1, fileSize := r.fileSize + BLOCK_SIZE), m',
                        dir + [[e]])
  {
    hide DirectoryBlock, Fits, Shown, DataSame;
    ShownLonger(img, img', m, m', b, dir, e);
  }

  /** Some block of the directory has room for one more record with the name. */
  ghost predicate HasSlack(dir: Directory, name: seq<byte>) {
    exists k :: 0 <= k < |dir| && Fits(dir[k] + [Entry(0, name)])
  }

  lemma SlackForAny(es: seq<Entry>, e: Entry)
    requires Fits(es) && EntryOk(e)
    ensures Fits(es + [e]) <==> Fits(es + [Entry(0, e.name)])
  {
    hide Fits;
    FitsWhen(es, e);
    FitsWhen(es, Entry(0, e.name));
  }

  lemma SlackAt(dir: Directory, k: int, name: seq<byte>)
    requires 0 <= k < |dir| && Fits(dir[k] + [Entry(0, name)])
    ensures HasSlack(dir, name)
  {
  }

  lemma NoSlack(dir: Directory, name: seq<byte>)
    requires forall k :: 0 <= k < |dir| ==> !Fits(dir[k] + [Entry(0, name)])
    ensures !HasSlack(dir, name)
  {
  }

  /** The first block that has room for one more record with the name; the number of blocks if none has. */
  ghost function FirstSlack(dir: Directory, name: seq<byte>): (k: nat)
    ensures k <= |dir| && (k < |dir| <==> HasSlack(dir, name))
    ensures k < |dir| ==> Fits(dir[k] + [Entry(0, name)])
    ensures forall h :: 0 <= h < k ==> !Fits(dir[h] + [Entry(0, name)])
  {
    if dir == [] then 0
    else if Fits(dir[0] + [Entry(0, name)]) then 0
    else
      var k := FirstSlack(dir[1..], name);
      assert forall h :: 1 <= h < |dir| ==> dir[h] == dir[1..][h - 1];
      k + 1
  }

  /** The directory with one entry more: in the first block with room for it, or in a block of its own at the end. */
  ghost function WithEntry(dir: Directory, e: Entry): Directory {
    var k := FirstSlack(dir, e.name);
    if k < |dir| then dir[k := dir[k] + [e]] else dir + [[e]]
  }

  lemma EntryGoes(dir: Directory, e: Entry, l: int)
    requires 0 <= l < |dir| && Fits(dir[l] + [Entry(0, e.name)])
    requires forall h :: 0 <= h < l ==> !Fits(dir[h] + [Entry(0, e.name)])
    ensures WithEntry(dir, e) == dir[l := dir[l] + [e]]
  {
    hide Fits;
  }

  /** Puts the entry into block l of the directory if that has room for it. */
  method AddToBlock(fs: FileSystem, n: int, node: Inode, e: Entry, ghost l: int, b: int, ghost slots: seq<Record>)
    returns (ok: bool)
    requires fs.Stored() && Sound(fs.At(slots)) && InodeNumValid(n) && slots[n] == node.Rec() && EntryOk(e)
    requires |fs.dirs| == |fs.maps| == INODE_BLOCK_COUNT && Shown(fs.disk.img, fs.maps[n], fs.dirs[n])
    requires 0 <= l < |fs.dirs[n]| && l < |fs.maps[n].Data()| && b == fs.maps[n].Data()[l]
    modifies fs`dirs, fs.disk`img, fs.disk.mem, node
    ensures fs.Stored() && Sound(fs.At(slots))
    ensures OtherDataSame(old(fs.At(slots)), n, fs.disk.img)
    ensures ok <==> Fits(old(fs.dirs)[n][l] + [Entry(0, e.name)])
    ensures !ok ==> fs.disk.img == old(fs.disk.img) && node.Rec() == old(node.Rec()) && fs.dirs == old(fs.dirs)
    ensures ok ==>
      && |fs.dirs| == INODE_BLOCK_COUNT && fs.dirs == old(fs.dirs)[n := fs.dirs[n]]
      && EntryPlaced(old(node.Rec()), old(fs.dirs)[n], e, fs.disk.img, node.Rec(), fs.maps[n], fs.dirs[n])
      && node.Rec() == old(node.Rec()).(filesCount := old(node.filesCount) + 1)
      && Leads(old(fs.At(slots)), fs.At(slots))
    ensures ok ==> |fs.dirs| == INODE_BLOCK_COUNT && fs.dirs[n] == old(fs.dirs)[n][l := old(fs.dirs)[n][l] + [e]]
    ensures old(Tidy(fs.At(slots))) ==> Tidy(fs.At(slots))
  {
    hide Sound, Tidy, Maps, Exclusive, Shown, EntryPlaced, OtherDataSame, DirectoryBlock, Fits, EntryOk, Leads, Moved,
         fs.disk.Valid, fs.table.Valid;
    ghost var v, m, dir := fs.At(slots), fs.maps[n], fs.dirs[n];
    SlotMap(v, n);
    NothingMoved(v);
    AllImpliesOther(v, n, fs.disk.img);
    ShownAt(fs.disk.img, m, dir, l);
    var assignBlock := ReadDataBlock(fs.disk, b);
    var block;
    ok, block := AddRecord(assignBlock.value, e, dir[l]);
    SlackForAny(dir[l], e);
    if !ok {
      return;
    }
    ok := Fill(fs, n, l, b, block, slots);
    if !ok {
      return;
    }
    PlacedInBlock(v.store.img, v.store.live, slots[n], m, dir, l, e, fs.disk.img);
    node.filesCount := node.filesCount + 1;
    fs.dirs := fs.dirs[n := dir[l := dir[l] + [e]]];
  }

  /** Puts the entry into the first block that has room for it. */
  method AddInSomeBlock(fs: FileSystem, n: int, node: Inode, e: Entry, ghost slots: seq<Record>) returns (ok: bool)
    requires fs.Stored() && Sound(fs.At(slots)) && InodeNumValid(n) && slots[n] == node.Rec()
    requires node.isAllocated && node.isDir && EntryOk(e)
    requires |fs.dirs| == |fs.maps| == INODE_BLOCK_COUNT && Lists(fs.disk.img, node.Rec(), fs.maps[n], fs.dirs[n])
    modifies fs`dirs, fs.disk`img, fs.disk.mem, node
    ensures fs.Stored() && Sound(fs.At(slots))
    ensures OtherDataSame(old(fs.At(slots)), n, fs.disk.img)
    ensures ok <==> HasSlack(old(fs.dirs)[n], e.name)
    ensures !ok ==> fs.disk.img == old(fs.disk.img) && node.Rec() == old(node.Rec()) && fs.dirs == old(fs.dirs)
    ensures ok ==>
      && |fs.dirs| == INODE_BLOCK_COUNT && fs.dirs == old(fs.dirs)[n := fs.dirs[n]]
      && EntryPlaced(old(node.Rec()), old(fs.dirs)[n], e, fs.disk.img, node.Rec(), fs.maps[n], fs.dirs[n])
      && node.Rec() == old(node.Rec()).(filesCount := old(node.filesCount) + 1)
      && Leads(old(fs.At(slots)), fs.At(slots))
    ensures ok ==> |fs.dirs| == INODE_BLOCK_COUNT && fs.dirs[n] == WithEntry(old(fs.dirs)[n], e)
    ensures old(Tidy(fs.At(slots))) ==> Tidy(fs.At(slots))
  {
    hide Sound, Tidy, Maps, Exclusive, Lists, Shown, Searchable, EntryPlaced, OtherDataSame, Fits, EntryOk, Distinct,
         Listing, CacheHit, HasSlack, WithEntry, Leads, fs.disk.Valid, fs.table.Valid;
    ghost var v, m, dir := fs.At(slots), fs.maps[n], fs.dirs[n];
    SlotMap(v, n);
    ListsShown(fs.disk.img, slots[n], m, dir);
    DirLength(fs.disk.img, node.Rec(), m, dir);
    NothingMoved(v);
    AllImpliesOther(v, n, fs.disk.img);
    var prev, l := 0, 0;
    while l < node.blocks
      invariant 0 <= l <= node.blocks == |dir| && CacheOk(m, l, prev)
      invariant fs.disk.img == v.store.img && node.Rec() == slots[n] && fs.dirs == old(fs.dirs) && fs.Stored()
      invariant forall h :: 0 <= h < l ==> !Fits(dir[h] + [Entry(0, e.name)])
    {
      Scannable(fs.disk.img, node.Rec(), m, l);
      ShownAt(fs.disk.img, m, dir, l);
      var b, next := GetDatablockFromInode(fs.disk, node, l, prev, m);
      if b <= 0 {
        return false;
      }
      ok := AddToBlock(fs, n, node, e, l, b, slots);
      if ok {
        SlackAt(dir, l, e.name);
        EntryGoes(dir, e, l);
        return;
      }
      prev, l := next, l + 1;
    }
    NoSlack(dir, e.name);
    ok := false;
  }

  lemma ListsShown(img: Image, r: Record, m: BlockMap, dir: Directory)
    requires Lists(img, r, m, dir) && r.isAllocated && r.isDir
    ensures Shown(img, m, dir) && Distinct(Listing(dir)) && r.filesCount == |Listing(dir)|
  {
  }

  /** A newly allocated block that already holds the entry's record. */
  method AllocateRecord(fs: FileSystem, n: int, e: Entry, ghost slots: seq<Record>) returns (b: int)
    requires fs.Stored() && Sound(fs.At(slots)) && InodeNumValid(n) && EntryOk(e)
    modifies fs`leaked, fs.disk, fs.disk.mem
    ensures fs.Stored() && Sound(fs.At(slots))
    ensures AllDataSame(old(fs.At(slots)), fs.disk.img)
    ensures b <= 0 ==> Spare(old(fs.disk.live)) == 0
    ensures Spare(old(fs.disk.live)) == 0 ==> b <= 0 && fs.At(slots) == old(fs.At(slots))
    ensures b > 0 ==>
      && fs.leaked == old(fs.leaked) + multiset{b} && InData(b) && Fits([e])
      && fs.disk.img[b] == DirectoryBlock([e]) && TakenAs(old(fs.disk.Now()), b, fs.disk.Now())
    ensures RoomForBlock(old(fs.disk.live), fs.maps[n]) <==>
      b > 0 && |fs.maps[n].Data()| < MAX_BLOCKS && IndexBlocksFor(|fs.maps[n].Data()|) <= Spare(fs.disk.live)
    ensures b > 0 ==> Spare(fs.disk.live) == Spare(old(fs.disk.live)) - 1
    ensures old(Tidy(fs.At(slots))) ==> Tidy(fs.At(slots))
  {
    hide Sound, Tidy, AllDataSame, DirectoryBlock, Fits, EntryOk, Spare, IndexBlocksFor, ZeroPast0, RoomForBlock,
         fs.disk.Valid, fs.table.Valid;
    ghost var v := fs.At(slots);
    SlotMap(v, n);
    if RoomForBlock(fs.disk.live, fs.maps[n]) {
      RoomAtAll(fs.disk.live, fs.maps[n]);
    }
    b := Allocate(fs, slots);
    if b <= 0 {
      return;
    }
    ghost var v1 := fs.At(slots);
    RoomLeft(v, n, b, v1);
    var block := NewBlock(e);
    var ok := FillLeaked(fs, b, block, slots);
    AllSameTwice(v, v1, fs.disk.img);
    FilledAsTaken(v.store, b, v1.store, fs.disk.Now());
  }

  lemma FilledAsTaken(s: Store, b: int, s1: Store, s2: Store)
    requires DataBlocks.Taken(s, b, s1) && s2.live == s1.live && s2.img == s1.img[b := s2.img[b]]
    ensures TakenAs(s, b, s2)
  {
    hide ZeroPast0;
    assert s.img[b := s1.img[b]][b := s2.img[b]] == s.img[b := s2.img[b]];
  }

  /** Counts the entry that the directory's new block holds. */
  method CountEntry(fs: FileSystem, n: int, node: Inode, ghost dir: Directory, ghost slots: seq<Record>)
    requires fs.Stored() && Sound(fs.At(slots)) && InodeNumValid(n) && n < |slots| && n < |fs.dirs|
    requires slots[n] == node.Rec() && node.isAllocated
    modifies fs`dirs, node
    ensures fs.Stored() && Sound(fs.At(slots[n := node.Rec()]))
    ensures node.Rec()
      == old(node.Rec()).(fileSize := old(node.fileSize) + BLOCK_SIZE, filesCount := old(node.filesCount) + 1)
    ensures fs.dirs == old(fs.dirs)[n := dir]
    ensures Leads(old(fs.At(slots)), fs.At(slots[n := node.Rec()]))
    ensures old(Tidy(fs.At(slots))) ==> Tidy(fs.At(slots[n := node.Rec()]))
  {
    hide Sound, Tidy, Leads, Moved, fs.disk.Valid, fs.table.Valid;
    ghost var v := fs.At(slots);
    node.fileSize := node.fileSize + BLOCK_SIZE;
    node.filesCount := node.filesCount + 1;
    fs.dirs := fs.dirs[n := dir];
    EditedSound(v, n, node.Rec());
    EditLeads(v, n, node.Rec());
  }

  /** Puts the entry into a block of its own at the end of the directory. */
  method AddInNewBlock(fs: FileSystem, n: int, node: Inode, e: Entry, ghost slots: seq<Record>) returns (ok: bool)
    requires fs.Stored() && Sound(fs.At(slots)) && InodeNumValid(n) && slots[n] == node.Rec()
    requires node.isAllocated && node.isDir && EntryOk(e)
    requires |fs.dirs| == |fs.maps| == INODE_BLOCK_COUNT && Lists(fs.disk.img, node.Rec(), fs.maps[n], fs.dirs[n])
    modifies fs`maps, fs`leaked, fs`dirs, fs.disk, fs.disk.mem, node
    ensures fs.Stored() && Sound(fs.At(slots[n := node.Rec()]))
    ensures OtherDataSame(old(fs.At(slots)), n, fs.disk.img)
    ensures fs.maps == old(fs.maps)[n := fs.maps[n]] && |fs.maps| == INODE_BLOCK_COUNT
    ensures ok <==> RoomForBlock(old(fs.disk.live), old(fs.maps)[n])
    ensures Spare(old(fs.disk.live)) == 0 ==> fs.At(slots) == old(fs.At(slots)) && node.Rec() == old(node.Rec())
    ensures ok ==> Spare(fs.disk.live) == Spare(old(fs.disk.live)) - 1 - IndexBlocksFor(|old(fs.maps)[n].Data()|)
    ensures !ok ==> Sound(fs.At(slots)) && AllDataSame(old(fs.At(slots)), fs.disk.img)
    ensures !ok ==> fs.dirs == old(fs.dirs) && fs.maps == old(fs.maps)
    ensures !ok ==> Wasted(old(fs.At(slots)), |old(fs.maps)[n].Data()|, fs.At(slots))
    ensures ok ==>
      && node.isDir && |fs.dirs| == INODE_BLOCK_COUNT && fs.dirs == old(fs.dirs)[n := fs.dirs[n]]
      && fs.dirs[n] == old(fs.dirs)[n] + [[e]]
      && fs.leaked == old(fs.leaked) && Leads(old(fs.At(slots)), fs.At(slots[n := node.Rec()]))
      && EntryPlaced(old(node.Rec()), old(fs.dirs)[n], e, fs.disk.img, node.Rec(), fs.maps[n], fs.dirs[n])
    ensures ok && old(Tidy(fs.At(slots))) ==> Tidy(fs.At(slots[n := node.Rec()]))
  {
    hide Sound, Appended, NotAttached, Attached, OnlyAddresses, Tidy, Maps, Lists, Shown, EntryPlaced, OtherDataSame,
         AllDataSame, DataSame, DirectoryBlock, Fits, EntryOk, Listing, Names, Spare, IndexBlocksFor, ZeroPast0,
         RoomForBlock, TakenAs, Wasted, AllSpareLeaked, Leads, Moved, fs.disk.Valid, fs.table.Valid;
    ghost var v, dir := fs.At(slots), fs.dirs[n];
    SlotMap(v, n);
    assert slots[n := node.Rec()] == slots;
    var b := AllocateRecord(fs, n, e, slots);
    ghost var v2 := fs.At(slots);
    AllImpliesOther(v, n, v2.store.img);
    if b <= 0 {
      NothingWasted(v, |v.maps[n].Data()|);
      return false;
    }
    SpareIsNatural(fs.disk);
    ok := Attach(fs, n, node, b, slots);
    AllSameTwice(v, v2, fs.disk.img);
    AllImpliesOther(v, n, fs.disk.img);
    if !ok {
      NotAttachedFacts(v2, n, fs.At(slots[n := node.Rec()]));
      AllWasted(v, n, b, v2, fs.At(slots[n := node.Rec()]), fs.At(slots));
      return;
    }
    ghost var slots3 := slots[n := node.Rec()];
    ghost var v3 := fs.At(slots3);
    NewBlockAdded(v, n, e, b, dir, v2, v3);
    Extended(v, n, b, v2, v3);
    LeadsOne(v, MoveExtend(n, b, v2.store), v3);
    CountEntry(fs, n, node, dir + [[e]], slots3);
    assert slots3[n := node.Rec()] == slots[n := node.Rec()];
    LeadsFar(v, v3, fs.At(slots[n := node.Rec()]));
  }

  lemma RoomAtAll(live: set<int>, m: BlockMap)
    requires RoomForBlock(live, m)
    ensures Spare(live) > 0
  {
  }

  lemma NewBlockAdded(v: Volume, n: int, e: Entry, b: int, dir: Directory, v2: Volume, v3: Volume)
    requires Sound(v) && InodeNumValid(n) && v2.slots == v.slots && v2.maps == v.maps
    requires v2.leaked == v.leaked + multiset{b}
    requires |v.maps| == INODE_BLOCK_COUNT && n < |v.slots| && v.slots[n].isAllocated && v.slots[n].isDir && EntryOk(e)
    requires Lists(v.store.img, v.slots[n], v.maps[n], dir)
    requires Sound(v2) && Sound(v3) && Attached(v2, n, b, v3) && AllDataSame(v, v3.store.img)
    requires InData(b) && Fits([e]) && v3.store.img[b] == DirectoryBlock([e])
    ensures |v3.slots| == |v.slots| && |v3.maps| == |v.maps| && v3.maps == v.maps[n := v3.maps[n]]
    ensures v3.slots[n].isAllocated && v3.slots[n].isDir && v3.leaked == v.leaked
    ensures
      var r2 := v3.slots[n].(filesCount := v.slots[n].filesCount + 1, fileSize := v.slots[n].fileSize + BLOCK_SIZE);
      && EntryPlaced(v.slots[n], dir, e, v3.store.img, r2, v3.maps[n], dir + [[e]])
      && r2.filesCount == v3.slots[n].filesCount + 1 && r2.fileSize == v3.slots[n].fileSize + BLOCK_SIZE
  {
    hide Sound, Maps, Lists, Shown, EntryPlaced, DataSame, AllDataSame, DirectoryBlock, Fits, EntryOk, Listing, Names;
    AllSameAt(v, n, v3.store.img);
    AttachedBlocks(v2, n, b, v3);
    ListsShown(v.store.img, v.slots[n], v.maps[n], dir);
    PlacedBehind(v.store.img, v.slots[n], v.maps[n], dir, e, b, v3.store.img, v3.slots[n], v3.maps[n]);
    assert v.leaked + multiset{b} - multiset{b} == v.leaked;
  }

  lemma EditedSound(v: Volume, n: int, r': Record)
    requires Sound(v) && InodeNumValid(n) && SameAddresses(v.slots[n], r') && r'.isAllocated
    ensures 0 <= n < |v.slots| && Sound(v.(slots := v.slots[n := r']))
    ensures Tidy(v) ==> Tidy(v.(slots := v.slots[n := r']))
  {
    hide Sound, Tidy;
    SlotMap(v, n);
    FieldsSound(v, n, r');
    assert v.maps[n := v.maps[n]] == v.maps;
    assert Replaced(v, n, v.store, r', v.maps[n], v.leaked) == v.(slots := v.slots[n := r']);
  }

  lemma AllSameAt(v: Volume, n: int, img': Image)
    requires AllDataSame(v, img') && InodeNumValid(n) && n < |v.maps|
    ensures DataSame(v.store.img, img', v.maps[n])
  {
  }

  lemma AttachedBlocks(v: Volume, n: int, b: int, v': Volume)
    requires Sound(v) && Sound(v') && Attached(v, n, b, v')
    ensures v'.slots[n].blocks == v.slots[n].blocks + 1
  {
    hide Sound;
    SlotMap(v, n);
    SlotMap(v', n);
  }

  /** Whether an entry with the name can be added: in a block that has room, or in a new one. */
  ghost predicate RoomForEntry(live: set<int>, m: BlockMap, dir: Directory, name: seq<byte>) {
    HasSlack(dir, name) || RoomForBlock(live, m)
  }

  /** How many blocks the entry takes. */
  ghost function EntryTakes(m: BlockMap, dir: Directory, name: seq<byte>): int {
    if HasSlack(dir, name) then 0 else 1 + IndexBlocksFor(|m.Data()|)
  }

  method AddDirectoryEntry(fs: FileSystem, n: int, node: Inode, child: int, name: seq<byte>,
                           ghost slots: seq<Record>) returns (ok: bool)
    requires fs.Stored() && Sound(fs.At(slots)) && InodeNumValid(n) && slots[n] == node.Rec() && node.isAllocated
    requires |fs.dirs| == |fs.maps| == INODE_BLOCK_COUNT && Lists(fs.disk.img, node.Rec(), fs.maps[n], fs.dirs[n])
    requires 0 !in name && IsInt64(child)
    modifies fs`maps, fs`leaked, fs`dirs, fs.disk, fs.disk.mem, node
    ensures fs.Stored() && Sound(fs.At(slots[n := node.Rec()]))
    ensures OtherDataSame(old(fs.At(slots)), n, fs.disk.img)
    ensures |fs.maps| == INODE_BLOCK_COUNT && fs.maps == old(fs.maps)[n := fs.maps[n]]
    ensures ok <==>
      old(node.isDir) && NameOk(name) && RoomForEntry(old(fs.disk.live), old(fs.maps)[n], old(fs.dirs)[n], name)
    ensures ok ==> Spare(fs.disk.live) == Spare(old(fs.disk.live)) - EntryTakes(old(fs.maps)[n], old(fs.dirs)[n], name)
    ensures !ok && !(old(node.isDir) && NameOk(name) && Spare(old(fs.disk.live)) > 0) ==>
      fs.At(slots) == old(fs.At(slots)) && node.Rec() == old(node.Rec())
    ensures !ok ==> Sound(fs.At(slots)) && AllDataSame(old(fs.At(slots)), fs.disk.img)
    ensures !ok ==> fs.dirs == old(fs.dirs) && fs.maps == old(fs.maps)
    ensures !ok && old(node.isDir) && NameOk(name) ==>
      Wasted(old(fs.At(slots)), |old(fs.maps)[n].Data()|, fs.At(slots))
    ensures ok ==>
      && |fs.dirs| == INODE_BLOCK_COUNT && fs.dirs == old(fs.dirs)[n := fs.dirs[n]] && fs.leaked == old(fs.leaked)
      && EntryPlaced(old(node.Rec()), old(fs.dirs)[n], Entry(child, name), fs.disk.img, node.Rec(), fs.maps[n],
                     fs.dirs[n])
      && fs.dirs[n] == WithEntry(old(fs.dirs)[n], Entry(child, name))
      && (Distinct(Listing(fs.dirs[n])) <==> name !in Names(Listing(old(fs.dirs)[n])))
      && Leads(old(fs.At(slots)), fs.At(slots[n := node.Rec()]))
    ensures ok && name !in Names(Listing(old(fs.dirs)[n])) ==>
      && Lists(fs.disk.img, node.Rec(), fs.maps[n], fs.dirs[n])
      && EntryAdded(old(node.Rec()), old(fs.dirs)[n], Entry(child, name), node.Rec(), fs.dirs[n])
    ensures ok && old(Tidy(fs.At(slots))) ==> Tidy(fs.At(slots[n := node.Rec()]))
  {
    hide Wasted, Sound, Tidy, Maps, Lists, Shown, Distinct, EntryPlaced, EntryAdded, OtherDataSame, AllDataSame,
         Listing, Names, RoomForBlock, HasSlack, WithEntry, IndexBlocksFor, Spare, Leads, Moved, fs.disk.Valid,
         fs.table.Valid;
    ghost var v, dir := fs.At(slots), fs.dirs[n];
    SlotMap(v, n);
    if node.isDir && node.blocks <= 0 {
      NoBlockNoSlack(v.store.img, slots[n], v.maps[n], fs.dirs[n], name);
    }
    NothingMoved(v);
    SpareIsNatural(fs.disk);
    AllImpliesOther(v, n, fs.disk.img);
    assert slots[n := node.Rec()] == slots && fs.maps[n := fs.maps[n]] == fs.maps;
    if !node.isDir {
      return false;
    }
    if |name| > FILE_NAME_MAX_LENGTH {
      return false;
    }
    var e := Entry(child, name);
    if node.blocks > 0 {
      ok := AddInSomeBlock(fs, n, node, e, slots);
      if ok {
        PlacedIsAdded(v.store.img, slots[n], v.maps[n], dir, e, fs.disk.img, node.Rec(), fs.maps[n], fs.dirs[n]);
        EditedSound(fs.At(slots), n, node.Rec());
        EditLeads(fs.At(slots), n, node.Rec());
        LeadsFar(v, fs.At(slots), fs.At(slots[n := node.Rec()]));
        return;
      }
    }
    GoesBehind(dir, e);
    ok := AddInNewBlock(fs, n, node, e, slots);
    if ok {
      PlacedIsAdded(v.store.img, slots[n], v.maps[n], dir, e, fs.disk.img, node.Rec(), fs.maps[n], fs.dirs[n]);
    }
  }

  lemma GoesBehind(dir: Directory, e: Entry)
    ensures !HasSlack(dir, e.name) ==> WithEntry(dir, e) == dir + [[e]]
  {
    hide HasSlack;
  }

  lemma NoBlockNoSlack(img: Image, r: Record, m: BlockMap, dir: Directory, name: seq<byte>)
    requires Maps(img, r, m) && Lists(img, r, m, dir) && r.isAllocated && r.isDir && r.blocks <= 0
    ensures !HasSlack(dir, name)
  {
    ListsShown(img, r, m, dir);
    DirLength(img, r, m, dir);
  }

  // ----- removing -----

  /** The directory lost the entry with the name, and its inode no longer counts it. */
  ghost predicate EntryRemoved(r: Record, dir: Directory, name: seq<byte>, r': Record, dir': Directory) {
    && Names(Listing(dir')) == Names(Listing(dir)) - {name}
    && r' == r.(filesCount := r.filesCount - 1)
  }

  lemma RemovedInBlock(img: Image, live: set<int>, r: Record, m: BlockMap, dir: Directory, k: int, i: int, img': Image)
    requires Lists(img, r, m, dir) && r.isAllocated && r.isDir && Exclusive(live, m)
    requires 0 <= k < |dir| && 0 <= i < |dir[k]| && Fits(Without(dir[k], i))
    requires k < |m.Data()| && InData(m.Data()[k]) && img' == img[m.Data()[k] := DirectoryBlock(Without(dir[k], i))]
    ensures var r', dir' := r.(filesCount := r.filesCount - 1), dir[k := Without(dir[k], i)];
      Lists(img', r', m, dir') && EntryRemoved(r, dir, dir[k][i].name, r', dir')
  {
    hide DirectoryBlock, Fits, Listing, Distinct, Names, Shown, Exclusive, Without;
    DataDistinct(live, m);
    ShownFilled(img, m, dir, k, Without(dir[k], i));
    RemovedFrom(dir, k, i);
  }

  /** The record with the name is out of its block; the others are where they were, in their order. */
  ghost predicate Dropped(dir: Directory, name: seq<byte>, dir': Directory) {
    exists k, i :: 0 <= k < |dir| && 0 <= i < |dir[k]| && dir[k][i].name == name && dir' == dir[k := Without(dir[k], i)]
  }

  /** Some block of directory n has room for an entry with the name. */
  ghost predicate PlaceLeft(dirs: seq<Directory>, n: int, name: seq<byte>) {
    0 <= n < |dirs| && NameOk(name) && HasSlack(dirs[n], name)
  }

  /** What is removed leaves room for an entry with the same name. */
  lemma LeavesPlace(dirs: seq<Directory>, n: int, dir: Directory, k: int, i: int, name: seq<byte>)
    requires 0 <= k < |dir| && 0 <= i < |dir[k]| && Fits(dir[k]) && dir[k][i].name == name
    requires 0 <= n < |dirs| && dirs[n] == dir[k := Without(dir[k], i)]
    ensures PlaceLeft(dirs, n, name)
  {
    hide Fits, Without, NameOk;
    Refits(dir[k], i, 0);
    SlackAt(dirs[n], k, name);
  }

  method RemoveFromDirectory(fs: FileSystem, n: int, node: Inode, name: seq<byte>,
                             ghost slots: seq<Record>) returns (ok: bool)
    requires fs.Stored() && Sound(fs.At(slots)) && InodeNumValid(n) && slots[n] == node.Rec() && node.isAllocated
    requires |fs.dirs| == |fs.maps| == INODE_BLOCK_COUNT && Lists(fs.disk.img, node.Rec(), fs.maps[n], fs.dirs[n])
    modifies fs`dirs, fs.disk`img, fs.disk.mem, node
    ensures fs.Stored() && Sound(fs.At(slots))
    ensures OtherDataSame(old(fs.At(slots)), n, fs.disk.img)
    ensures ok <==> old(node.isDir) && name in Names(Listing(old(fs.dirs)[n]))
    ensures !ok ==> fs.disk.img == old(fs.disk.img) && node.Rec() == old(node.Rec()) && fs.dirs == old(fs.dirs)
    ensures ok ==>
      && |fs.dirs| == INODE_BLOCK_COUNT && fs.dirs == old(fs.dirs)[n := fs.dirs[n]]
      && Lists(fs.disk.img, node.Rec(), fs.maps[n], fs.dirs[n])
      && EntryRemoved(old(node.Rec()), old(fs.dirs)[n], name, node.Rec(), fs.dirs[n])
      && Dropped(old(fs.dirs)[n], name, fs.dirs[n])
      && PlaceLeft(fs.dirs, n, name) && Leads(old(fs.At(slots)), fs.At(slots))
    ensures old(Tidy(fs.At(slots))) ==> Tidy(fs.At(slots))
  {
    hide Sound, Tidy, Maps, Lists, Shown, EntryRemoved, OtherDataSame, DirectoryBlock, Fits, EntriesOk, Without, Start,
         Listing, Distinct, Names, PlaceLeft, Leads, Moved, fs.disk.Valid, fs.table.Valid;
    ghost var v, m, dir := fs.At(slots), fs.maps[n], fs.dirs[n];
    SlotMap(v, n);
    NothingMoved(v);
    AllImpliesOther(v, n, fs.disk.img);
    if !node.isDir {
      return false;
    }
    ListsShown(fs.disk.img, slots[n], m, dir);
    if |name| > FILE_NAME_MAX_LENGTH {
      TooLong(fs.disk.img, m, dir, name);
      return false;
    }
    var b, block, offset;
    ghost var k, i;
    b, block, offset, k, i := FindEntry(fs.disk, node, name, false, m, dir);
    if offset == -1 {
      NamedIn(Listing(dir), name);
      return false;
    }
    FoundIn(dir, k, i);
    ShownAt(fs.disk.img, m, dir, k);
    var buffer := RemoveRecord(block, offset, dir[k], i);
    var _ := Fill(fs, n, k, b, buffer, slots);
    RemovedInBlock(v.store.img, v.store.live, slots[n], m, dir, k, i, fs.disk.img);
    node.filesCount := node.filesCount - 1;
    fs.dirs := fs.dirs[n := dir[k := Without(dir[k], i)]];
    LeavesPlace(fs.dirs, n, dir, k, i, name);
    ok := true;
  }

  // ----- listing -----

  /** The unsigned short at the start of a record. */
  function ShortAt(block: Block, offset: int): int
    requires 0 <= offset <= BLOCK_SIZE - 2
  {
    Decode(block[offset..offset + 2])
  }

  lemma ShortOfWord(block: Block, offset: int)
    requires 0 <= offset <= BLOCK_SIZE - 8 && 0 <= WordAt(block, offset) < 0x1_0000
    ensures ShortAt(block, offset) == WordAt(block, offset)
  {
    var s := block[offset..offset + 8];
    assert block[offset..offset + 2] == s[..2] == [s[0], s[1]];
    SmallWord(s);
    TwoBytes(s);
    TwoBytes([s[0], s[1]]);
    hide Decode;
    ZeroBehindTwo(s[0], s[1], Decode(s[2..]), Decode([s[0], s[1]][2..]));
  }

  /** A small word is not negative: its bytes are its value. */
  lemma SmallWord(s: seq<byte>)
    requires |s| == 8 && 0 <= Value(s) < 0x1_0000
    ensures Decode(s) == Value(s)
  {
    EncodeDecode(s);
    Power256Of8();
    hide Decode, Encode, Power256;
  }

  lemma TwoBytes(s: seq<byte>)
    requires |s| >= 2
    ensures Decode(s) == s[0] + 256 * (s[1] + 256 * Decode(s[2..]))
    ensures |s| == 2 ==> Decode(s[2..]) == 0
  {
    assert s[1..][1..] == s[2..];
  }

  lemma ZeroBehindTwo(x: int, y: int, high: nat, none: int)
    requires 0 <= x && 0 <= y && x + 256 * (y + 256 * high) < 0x1_0000 && none == 0
    ensures x + 256 * (y + 256 * high) == x + 256 * (y + 256 * none)
  {
  }

  predicate Loadable(slots: seq<Record>, n: int) {
    InodeNumValid(n) && n < |slots| && slots[n].isAllocated
  }

  /** The entries before the first whose inode cannot be loaded. */
  predicate UpToMissing(slots: seq<Record>, es: seq<Entry>, out: seq<Entry>) {
    && |out| < |es| && out == es[..|out|]
    && AllLoadable(slots, out) && !Loadable(slots, es[|out|].inum)
  }

  predicate AllLoadable(slots: seq<Record>, es: seq<Entry>) {
    forall i :: 0 <= i < |es| ==> Loadable(slots, es[i].inum)
  }

  /** What is reported of one block: its records up to the first whose inode cannot be loaded. */
  method ListBlock(fs: FileSystem, block: Block, ghost es: seq<Entry>) returns (ok: bool, out: seq<Entry>)
    requires fs.Stored() && Fits(es) && block == DirectoryBlock(es)
    ensures ok <==> AllLoadable(fs.table.slots, es)
    ensures if ok then out == es else UpToMissing(fs.table.slots, es, out)
  {
    hide EntryOk, Records, DirectoryBlock, Value, Start, fs.disk.Valid;
    out := [];
    var offset := 8;
    StartOfFirst(es);
    InRange(es, 0);
    ghost var i := 0;
    while offset < BLOCK_SIZE - RECORD_FIXED_LEN
      invariant 0 <= i <= |es| && offset == Start(es, i) && out == es[..i]
      invariant forall j :: 0 <= j < i ==> Loadable(fs.table.slots, es[j].inum)
      decreases |es| - i
    {
      InRange(es, i);
      ShortIsLength(es, i);
      var recLen := ShortAt(block, offset);
      var fileInum := WordAt(block, offset + RECORD_LENGTH);
      if recLen == 0 {
        assert es[..i] == es;
        return true, out;
      }
      RecordAt(es, i);
      var nameLen := recLen - RECORD_FIXED_LEN;
      var start := offset + RECORD_FIXED_LEN;
      var fileName := block[start..start + nameLen - 1];  // the C string, without its end
      var fileInode := fs.table.LoadINode(fileInum);
      if fileInode == null {
        return false, out;
      }
      out := out + [Entry(fileInum, fileName)];
      assert es[..i + 1] == es[..i] + [es[i]];
      offset := offset + recLen;
      i := i + 1;
    }
    if i < |es| {
      InRange(es, i);
      assert false;
    }
    assert es[..i] == es;
    ok := true;
  }

  lemma ShortIsLength(es: seq<Entry>, i: nat)
    requires Fits(es) && i <= |es| && 0 <= Start(es, i) <= BLOCK_SIZE - 8
    ensures ShortAt(DirectoryBlock(es), Start(es, i)) == if i < |es| then RecordLength(es[i].name) else 0
  {
    hide Records, DirectoryBlock, Value, Start;
    if i < |es| {
      RecordAt(es, i);
      assert EntryOk(es[i]);
    } else {
      AtTheEnd(es);
    }
    ShortOfWord(DirectoryBlock(es), Start(es, i));
  }
}
